/** The read-only chord table and its flat encoding.

    A table is a flat sequence of keys: the trigger keys of one chord, the sentinel
    `NoKey`, the chord's output key, and so on for every chord. The plugin never
    decodes the table as a whole; it reads it one key at a time while stepping from
    one entry to the next. The functions here give those reads a meaning: the
    per-entry scans (`TriggerCount`, `Scan`, `InChordAt`) and the structured view
    (`Decode`) that the matching engine is specified against. All of them take the
    suffix of the table that starts at the entry being read. */
module ChordTable {
  import opened Events

  /** One chord: its trigger keys, in table order, and the key it produces. */
  datatype ChordDef = ChordDef(triggers: seq<Key>, output: Key)

  /** A chord definition the encoding can represent: at least one trigger and no
      trigger equal to the sentinel. */
  predicate ValidDef(d: ChordDef)
  {
    |d.triggers| > 0 && NoKey !in d.triggers
  }

  predicate ValidTable(ds: seq<ChordDef>)
  {
    forall i :: 0 <= i < |ds| ==> ValidDef(ds[i])
  }

  /** What `chordSize` counts at the start of `s`: the keys before the first
      `NoKey`, but never reaching the last key of `s` (the table's last index is
      excluded by the loop bound). */
  function TriggerCount(s: seq<Key>): (n: nat)
    ensures |s| <= 1 ==> n == 0
    ensures |s| > 1 ==> n <= |s| - 1
    ensures forall j :: 0 <= j < n ==> s[j] != NoKey
    ensures n < |s| - 1 ==> s[n] == NoKey
  {
    if |s| <= 1 || s[0] == NoKey then 0 else 1 + TriggerCount(s[1..])
  }

  /** The scan of `inChord` once it has started: it stops with false at the first
      `NoKey` and with true at the first occurrence of `k`, whichever comes first.
      It has no bound of its own, so it is defined only where a `NoKey` ends it. */
  predicate Scan(s: seq<Key>, k: Key)
    requires NoKey in s
    decreases |s|
  {
    if s[0] == NoKey then false
    else if s[0] == k then true
    else
      NoKeyInRest(s);
      Scan(s[1..], k)
  }

  /** A `NoKey` after the first position is still there once that position is dropped. */
  lemma NoKeyInRest(s: seq<Key>)
    requires NoKey in s && s[0] != NoKey
    ensures NoKey in s[1..]
  {
    var j :| 0 <= j < |s| && s[j] == NoKey;
    assert s[1..][j - 1] == NoKey;
  }

  /** `inChord(index, k)` needs a `NoKey` at or after `index` whenever its one
      bound test lets the scan start. */
  predicate ScanTerminatesAt(t: seq<Key>, index: nat)
  {
    index < |t| - 1 ==> NoKey in t[index..]
  }

  /** `inChord(index, k)` on the table `t`: the bound test is made once, on the start
      index (not on the moving position), and the scan then runs to a `NoKey` or a
      match. */
  predicate InChordAt(t: seq<Key>, index: nat, k: Key)
    requires ScanTerminatesAt(t, index)
  {
    index < |t| - 1 && Scan(t[index..], k)
  }

  /** The conventional optional value. */
  datatype Option<T> = None | Some(value: T)

  /** The structured view of a table suffix: `None` when it is not a sequence of
      well-formed entries. */
  function Decode(s: seq<Key>): Option<seq<ChordDef>>
    decreases |s|
  {
    if |s| == 0 then Some([])
    else
      var n := TriggerCount(s);
      if n == 0 || n >= |s| - 1 then None
      else
        match Decode(s[n + 2..])
        case None => None
        case Some(rest) => Some([ChordDef(s[..n], s[n + 1])] + rest)
  }

  predicate WellFormed(s: seq<Key>)
  {
    Decode(s).Some?
  }

  /** The flat encoding of a list of chord definitions. */
  function Encode(ds: seq<ChordDef>): seq<Key>
  {
    if |ds| == 0 then [] else ds[0].triggers + [NoKey, ds[0].output] + Encode(ds[1..])
  }

  /** Within a well-formed suffix, `Scan` answers membership in the run before the
      first `NoKey`. */
  lemma {:induction false} ScanUpTo(s: seq<Key>, k: Key, n: nat)
    requires n < |s| && s[n] == NoKey
    requires forall j :: 0 <= j < n ==> s[j] != NoKey
    ensures NoKey in s
    ensures Scan(s, k) <==> k in s[..n]
  {
    assert s[n] == NoKey;
    if n > 0 {
      assert s[1..][n - 1] == NoKey;
      ScanUpTo(s[1..], k, n - 1);
      assert s[..n] == [s[0]] + s[1..][..n - 1];
    }
  }

  /** `inChord` at the start of a well-formed entry is membership in its triggers. */
  lemma InChordIffTrigger(t: seq<Key>, c: nat, k: Key)
    requires c < |t| && WellFormed(t[c..])
    ensures ScanTerminatesAt(t, c)
    ensures InChordAt(t, c, k) <==> k in Decode(t[c..]).value[0].triggers
  {
    var s := t[c..];
    var n := TriggerCount(s);
    ScanUpTo(s, k, n);
  }

  /** The run count of an encoded entry is the number of its triggers. */
  lemma {:induction false} TriggerCountOfEntry(t: seq<Key>, o: Key, r: seq<Key>)
    requires NoKey !in t
    ensures TriggerCount(t + [NoKey, o] + r) == |t|
  {
    var s := t + [NoKey, o] + r;
    if |t| > 0 {
      assert t[0] in t;
      assert s[1..] == t[1..] + [NoKey, o] + r;
      assert NoKey !in t[1..] by {
        forall j | 0 <= j < |t[1..]| ensures t[1..][j] != NoKey { assert t[1..][j] == t[j + 1]; assert t[j + 1] in t; }
      }
      TriggerCountOfEntry(t[1..], o, r);
    }
  }

  /** Decoding an encoded table gives back its definitions. */
  lemma {:induction false} DecodeEncode(ds: seq<ChordDef>)
    requires ValidTable(ds)
    ensures Decode(Encode(ds)) == Some(ds)
  {
    if |ds| > 0 {
      var d := ds[0];
      assert ValidDef(d);
      var s := Encode(ds);
      assert s == d.triggers + [NoKey, d.output] + Encode(ds[1..]);
      TriggerCountOfEntry(d.triggers, d.output, Encode(ds[1..]));
      var n := |d.triggers|;
      assert s[..n] == d.triggers;
      assert s[n + 1] == d.output;
      assert s[n + 2..] == Encode(ds[1..]);
      assert ValidTable(ds[1..]) by {
        forall i | 0 <= i < |ds[1..]| ensures ValidDef(ds[1..][i]) { assert ds[1..][i] == ds[i + 1]; }
      }
      DecodeEncode(ds[1..]);
      assert [d] + ds[1..] == ds;
    }
  }

  /** A table that decodes is the encoding of valid definitions. */
  lemma {:induction false} EncodeDecode(s: seq<Key>)
    requires WellFormed(s)
    ensures ValidTable(Decode(s).value)
    ensures Encode(Decode(s).value) == s
    decreases |s|
  {
    if |s| > 0 {
      var n := DecodeHead(s);
      var rest := s[n + 2..];
      EncodeDecode(rest);
      var d := ChordDef(s[..n], s[n + 1]);
      EncodeCons(d, Decode(rest).value);
      SplitEntry(s, n);
    }
  }

  /** A suffix is its first entry's triggers, the sentinel, the output and the rest. */
  lemma SplitEntry(s: seq<Key>, n: nat)
    requires n + 2 <= |s| && s[n] == NoKey
    ensures s == s[..n] + [NoKey, s[n + 1]] + s[n + 2..]
  {
  }

  /** The first entry of a non-empty well-formed suffix, and the suffix after it. */
  lemma DecodeHead(s: seq<Key>) returns (n: nat)
    requires WellFormed(s) && |s| > 0
    ensures n == TriggerCount(s) && 0 < n < |s| - 1 && s[n] == NoKey
    ensures ValidDef(ChordDef(s[..n], s[n + 1]))
    ensures WellFormed(s[n + 2..])
    ensures Decode(s).value == [ChordDef(s[..n], s[n + 1])] + Decode(s[n + 2..]).value
  {
    n := TriggerCount(s);
    assert NoKey !in s[..n] by {
      forall j | 0 <= j < n ensures s[..n][j] != NoKey { }
    }
  }

  /** One step of `Encode` and `ValidTable` on a list with a known head. */
  lemma EncodeCons(d: ChordDef, tail: seq<ChordDef>)
    requires ValidDef(d) && ValidTable(tail)
    ensures ValidTable([d] + tail)
    ensures Encode([d] + tail) == d.triggers + [NoKey, d.output] + Encode(tail)
  {
    var ds := [d] + tail;
    assert ds[0] == d && ds[1..] == tail;
    forall i | 0 <= i < |ds| ensures ValidDef(ds[i]) {
      if i > 0 { assert ds[i] == tail[i - 1]; }
    }
  }
}
