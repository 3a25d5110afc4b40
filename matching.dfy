/** The matching engine: what `isChord`, `isChordStrictSubsetOf`, `getChord` and
    `isChordStrictSubset` compute, stated over the decoded table. */
module Matching {
  import opened Events
  import opened ChordTable

  /** Every buffered key is a trigger of `d`. */
  predicate Covers(d: ChordDef, keys: seq<Key>)
  {
    forall i :: 0 <= i < |keys| ==> keys[i] in d.triggers
  }

  /** `d` is exactly the chord held: as many triggers as buffered keys, all covered. */
  predicate IsExact(d: ChordDef, keys: seq<Key>)
  {
    |d.triggers| == |keys| && Covers(d, keys)
  }

  /** `d` could still complete: more triggers than buffered keys, all covered. */
  predicate IsStrictSuperset(d: ChordDef, keys: seq<Key>)
  {
    |d.triggers| > |keys| && Covers(d, keys)
  }

  /** The output of the first definition, in table order, that matches `keys`
      exactly, or `NoKey` when there is none. */
  function FirstMatch(ds: seq<ChordDef>, keys: seq<Key>): Key
  {
    if |ds| == 0 then NoKey
    else if IsExact(ds[0], keys) then ds[0].output
    else FirstMatch(ds[1..], keys)
  }

  /** Some definition strictly contains the held keys, found by walking the
      table in order. */
  predicate SomeStrictSuperset(ds: seq<ChordDef>, keys: seq<Key>)
  {
    |ds| > 0 && (IsStrictSuperset(ds[0], keys) || SomeStrictSuperset(ds[1..], keys))
  }

  /** The walk finds a strict superset exactly when the table holds one. */
  lemma {:induction false} SomeStrictSupersetIff(ds: seq<ChordDef>, keys: seq<Key>)
    ensures SomeStrictSuperset(ds, keys) <==> exists i :: 0 <= i < |ds| && IsStrictSuperset(ds[i], keys)
  {
    if |ds| > 0 {
      SomeStrictSupersetIff(ds[1..], keys);
      if exists i :: 0 <= i < |ds| && IsStrictSuperset(ds[i], keys) {
        var i :| 0 <= i < |ds| && IsStrictSuperset(ds[i], keys);
        if i > 0 { assert ds[1..][i - 1] == ds[i]; }
      }
      if SomeStrictSuperset(ds[1..], keys) {
        var i :| 0 <= i < |ds[1..]| && IsStrictSuperset(ds[1..][i], keys);
        assert ds[i + 1] == ds[1..][i];
      }
    }
  }

  /** First match wins: the first exact definition decides the result. */
  lemma {:induction false} FirstMatchWins(ds: seq<ChordDef>, keys: seq<Key>, i: nat)
    requires i < |ds| && IsExact(ds[i], keys)
    requires forall j :: 0 <= j < i ==> !IsExact(ds[j], keys)
    ensures FirstMatch(ds, keys) == ds[i].output
  {
    if i > 0 {
      assert !IsExact(ds[0], keys);
      forall j | 0 <= j < i - 1 ensures !IsExact(ds[1..][j], keys) {
        assert ds[1..][j] == ds[j + 1];
      }
      FirstMatchWins(ds[1..], keys, i - 1);
    }
  }

  /** Without an exact definition the result is `NoKey`. */
  lemma {:induction false} FirstMatchNone(ds: seq<ChordDef>, keys: seq<Key>)
    requires forall i :: 0 <= i < |ds| ==> !IsExact(ds[i], keys)
    ensures FirstMatch(ds, keys) == NoKey
  {
    if |ds| > 0 {
      assert !IsExact(ds[0], keys);
      forall j | 0 <= j < |ds| - 1 ensures !IsExact(ds[1..][j], keys) {
        assert ds[1..][j] == ds[j + 1];
      }
      FirstMatchNone(ds[1..], keys);
    }
  }

  /** A result other than `NoKey` is the output of the first exact definition. */
  lemma {:induction false} FirstMatchFound(ds: seq<ChordDef>, keys: seq<Key>) returns (i: nat)
    requires FirstMatch(ds, keys) != NoKey
    ensures i < |ds| && IsExact(ds[i], keys) && ds[i].output == FirstMatch(ds, keys)
    ensures forall j :: 0 <= j < i ==> !IsExact(ds[j], keys)
  {
    if IsExact(ds[0], keys) {
      i := 0;
    } else {
      var k := FirstMatchFound(ds[1..], keys);
      i := k + 1;
      forall j | 0 <= j < i ensures !IsExact(ds[j], keys) {
        if j > 0 { assert ds[j] == ds[1..][j - 1]; }
      }
    }
  }

  /** With every trigger set non-empty, an empty buffer never matches. */
  lemma FirstMatchNeedsKeys(ds: seq<ChordDef>, keys: seq<Key>)
    requires ValidTable(ds) && FirstMatch(ds, keys) != NoKey
    ensures |keys| > 0
  {
    var i := FirstMatchFound(ds, keys);
    assert ValidDef(ds[i]);
  }

  /** One step of the table walk for the strict-superset test. */
  lemma SomeStrictSupersetCons(d: ChordDef, rest: seq<ChordDef>, keys: seq<Key>)
    ensures SomeStrictSuperset([d] + rest, keys) == (IsStrictSuperset(d, keys) || SomeStrictSuperset(rest, keys))
  {
    assert ([d] + rest)[0] == d && ([d] + rest)[1..] == rest;
  }

  /** The per-key `inChord` tests of `isChord` and `isChordStrictSubsetOf`: every
      buffered key is found by `inChord` at the entry starting at `c`. */
  predicate AllInChordAt(t: seq<Key>, c: nat, keys: seq<Key>)
    requires |keys| > 0 ==> ScanTerminatesAt(t, c)
  {
    forall i :: 0 <= i < |keys| ==> InChordAt(t, c, keys[i])
  }

  /** The per-key `inChord` tests at the start `c` of a well-formed entry amount
      to coverage by that entry's triggers, and `chordSize` to its size. */
  lemma EntryMatch(t: seq<Key>, c: nat, keys: seq<Key>)
    requires c < |t| && WellFormed(t[c..])
    ensures ScanTerminatesAt(t, c)
    ensures TriggerCount(t[c..]) == |Decode(t[c..]).value[0].triggers|
    ensures AllInChordAt(t, c, keys) <==> Covers(Decode(t[c..]).value[0], keys)
  {
    var n := DecodeHead(t[c..]);
    InChordIffTrigger(t, c, NoKey);
    forall i | 0 <= i < |keys| ensures InChordAt(t, c, keys[i]) <==> keys[i] in Decode(t[c..]).value[0].triggers {
      InChordIffTrigger(t, c, keys[i]);
    }
  }

  /** One step of `getChord`'s walk from the entry at `c`: the entry decides when it
      matches by the plugin's own tests, and the walk moves on to `c + cs + 2`
      otherwise. */
  lemma FirstMatchStep(t: seq<Key>, c: nat, cs: nat, next: nat, keys: seq<Key>)
    requires c < |t| && WellFormed(t[c..]) && cs == TriggerCount(t[c..]) && next == c + cs + 2
    ensures ScanTerminatesAt(t, c)
    ensures next <= |t| && WellFormed(t[next..])
    ensures FirstMatch(Decode(t[c..]).value, keys) ==
           if cs == |keys| && AllInChordAt(t, c, keys) then t[c + cs + 1]
           else FirstMatch(Decode(t[next..]).value, keys)
  {
    EntryMatch(t, c, keys);
    var n := DecodeHead(t[c..]);
    var d := ChordDef(t[c..][..cs], t[c..][cs + 1]);
    assert t[c..][cs + 2..] == t[next..];
    var rest := Decode(t[next..]).value;
    FirstMatchCons(d, rest, keys);
  }

  lemma FirstMatchCons(d: ChordDef, rest: seq<ChordDef>, keys: seq<Key>)
    ensures FirstMatch([d] + rest, keys) == if IsExact(d, keys) then d.output else FirstMatch(rest, keys)
  {
    assert ([d] + rest)[0] == d && ([d] + rest)[1..] == rest;
  }

  /** One step of `isChordStrictSubset`'s walk from the entry at `c`. */
  lemma SomeStrictSupersetStep(t: seq<Key>, c: nat, cs: nat, next: nat, keys: seq<Key>)
    requires c < |t| && WellFormed(t[c..]) && cs == TriggerCount(t[c..]) && next == c + cs + 2
    ensures ScanTerminatesAt(t, c)
    ensures next <= |t| && WellFormed(t[next..])
    ensures SomeStrictSuperset(Decode(t[c..]).value, keys) ==
              ((cs > |keys| && AllInChordAt(t, c, keys)) || SomeStrictSuperset(Decode(t[next..]).value, keys))
  {
    EntryMatch(t, c, keys);
    var n := DecodeHead(t[c..]);
    var d := ChordDef(t[c..][..cs], t[c..][cs + 1]);
    assert t[c..][cs + 2..] == t[next..];
    SomeStrictSupersetCons(d, Decode(t[next..]).value, keys);
  }

  /** A buffer that can still grow into some chord is shorter than that chord, so
      with every trigger set of at most `cap` keys it holds fewer than `cap` keys. */
  lemma StrictSupersetBoundsKeys(ds: seq<ChordDef>, keys: seq<Key>, cap: nat)
    requires forall i :: 0 <= i < |ds| ==> |ds[i].triggers| <= cap
    requires SomeStrictSuperset(ds, keys)
    ensures |keys| < cap
  {
    SomeStrictSupersetIff(ds, keys);
    var i :| 0 <= i < |ds| && IsStrictSuperset(ds[i], keys);
  }
}
