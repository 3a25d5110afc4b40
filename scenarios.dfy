/** Concrete tables and key sequences that exercise the plugin's documented
    behaviour, proved from the contracts of the matching engine and of `Chord`. */
module Scenarios {
  import opened Events
  import opened ChordTable
  import opened Matching
  import opened ChordPlugin

  const A := Other(1)
  const B := Other(2)
  const C := Other(3)
  const D := Other(4)
  const X := Other(10)
  const Y := Other(11)
  const Z := Other(12)

  /** With {A,B} -> X and {A,B,C} -> Y, holding A and B waits for C; holding all
      three gives Y; and if the wait ends with only A and B, they resolve to X. */
  lemma SubsetWaiting()
    ensures var ds := [ChordDef([A, B], X), ChordDef([A, B, C], Y)];
      && Decode(Encode(ds)) == Some(ds)
      && SomeStrictSuperset(ds, [A])
      && SomeStrictSuperset(ds, [A, B])
      && !SomeStrictSuperset(ds, [A, B, C])
      && FirstMatch(ds, [A, B, C]) == Y
      && FirstMatch(ds, [B, A]) == X
  {
    var ds := [ChordDef([A, B], X), ChordDef([A, B, C], Y)];
    assert ValidTable(ds);
    DecodeEncode(ds);
    assert IsStrictSuperset(ds[1], [A, B]);
    SomeStrictSupersetIff(ds, [A, B]);
    assert IsStrictSuperset(ds[0], [A]);
    SomeStrictSupersetIff(ds, [A]);
    assert !IsStrictSuperset(ds[0], [A, B, C]) && !IsStrictSuperset(ds[1], [A, B, C]);
    SomeStrictSupersetIff(ds, [A, B, C]);
    assert !IsExact(ds[0], [A, B, C]);
    assert IsExact(ds[1], [A, B, C]);
    FirstMatchWins(ds, [A, B, C], 1);
    assert IsExact(ds[0], [B, A]);
    FirstMatchWins(ds, [B, A], 0);
  }

  /** With two definitions of the same trigger set, the earlier one wins. */
  lemma ExactMatchPrecedence()
    ensures var ds := [ChordDef([A, B], X), ChordDef([B, A], Z)];
      && Decode(Encode(ds)) == Some(ds)
      && FirstMatch(ds, [A, B]) == X
      && FirstMatch(ds, [B, A]) == X
  {
    var ds := [ChordDef([A, B], X), ChordDef([B, A], Z)];
    assert ValidTable(ds);
    DecodeEncode(ds);
    assert IsExact(ds[0], [A, B]);
    assert IsExact(ds[0], [B, A]);
    FirstMatchWins(ds, [A, B], 0);
    FirstMatchWins(ds, [B, A], 0);
  }

  /** With {A,B,C,D} -> X, held A, then A and B, then A, B and C all still wait, so
      the buffer A,B,C is reachable; it matches no chord, and a forced decision
      replays its events in buffer order with their own keys. */
  lemma ArpeggiateOrdering(ea: KeyEvent, eb: KeyEvent, ec: KeyEvent)
    requires ea.key == A && eb.key == B && ec.key == C
    ensures var ds := [ChordDef([A, B, C, D], X)];
      && Decode(Encode(ds)) == Some(ds)
      && SomeStrictSuperset(ds, KeysOf([ea]))
      && SomeStrictSuperset(ds, KeysOf([ea, eb]))
      && SomeStrictSuperset(ds, KeysOf([ea, eb, ec]))
      && Replay(ds, [ea, eb, ec]) == [ea, eb, ec]
  {
    var ds := [ChordDef([A, B, C, D], X)];
    assert ValidTable(ds);
    DecodeEncode(ds);
    assert KeysOf([ea]) == [A];
    assert KeysOf([ea, eb]) == [A, B];
    assert KeysOf([ea, eb, ec]) == [A, B, C];
    assert IsStrictSuperset(ds[0], [A]);
    assert IsStrictSuperset(ds[0], [A, B]);
    assert IsStrictSuperset(ds[0], [A, B, C]);
    assert !IsExact(ds[0], [A, B, C]);
    ReplayArpeggiates(ds, [ea, eb, ec]);
  }

  /** The table {A,B} -> X and fresh presses of state 1. */
  const Pair := [ChordDef([A, B], X)]
  const Presses := KeyPredicates(k => false, k => false, s => s == 1)

  /** A plugin instance over the encoding of `Pair`, as its constructor leaves it. */
  method NewPairChord() returns (chord: Chord)
    ensures fresh(chord) && fresh(chord.potentialChord) && chord.Valid()
    ensures chord.Table() == Pair && chord.keyPredicates == Presses
    ensures chord.maxChordSize == 4 && chord.potentialChordSize == 0 && chord.emitted == []
  {
    assert ValidTable(Pair);
    DecodeEncode(Pair);
    chord := new Chord(Encode(Pair), 4, Presses, 50, 20);
  }

  /** How `Pair` judges a held A, and a held A then B. */
  lemma PairVerdicts(ea: KeyEvent, eb: KeyEvent)
    requires ea.key == A && eb.key == B
    ensures SomeStrictSuperset(Pair, KeysOf([ea])) && FirstMatch(Pair, KeysOf([ea])) == NoKey
    ensures !SomeStrictSuperset(Pair, KeysOf([ea, eb])) && FirstMatch(Pair, KeysOf([ea, eb])) == X
  {
    assert KeysOf([ea]) == [A];
    assert IsStrictSuperset(Pair[0], [A]);
    assert !IsExact(Pair[0], [A]);
    FirstMatchNone(Pair, [A]);
    assert KeysOf([ea, eb]) == [A, B];
    assert !IsStrictSuperset(Pair[0], [A, B]);
    assert IsExact(Pair[0], [A, B]);
    FirstMatchWins(Pair, [A, B], 0);
  }

  /** A client of `Chord`: with {A,B} -> X, pressing A is held back, and once the
      timeout has expired the next cycle replays A on its own. */
  method TimeoutForcing()
  {
    var chord := NewPairChord();
    var expired := (t: int, d: int) => true;

    var press := KeyEvent(7, 1, A, 1);
    PairVerdicts(press, KeyEvent(8, 1, B, 2));
    assert chord.Appended(press) == [press];
    var r, passed := chord.OnKeyswitchEvent(press, false, Clock(100, expired));
    assert r == ABORT && chord.emitted == [];
    assert chord.Buffered() == [press];

    var _ := chord.AfterEachCycle(Clock(200, expired));
    assert chord.emitted == [press];
    assert chord.potentialChordSize == 0;
  }

  /** A client of `Chord`: with {A,B} -> X, pressing A then B resolves on B's
      event, which continues with key X and B's identity. */
  method ChordResolves()
  {
    var chord := NewPairChord();
    var expired := (t: int, d: int) => true;
    var pressA := KeyEvent(7, 1, A, 1);
    var pressB := KeyEvent(8, 1, B, 2);
    PairVerdicts(pressA, pressB);

    assert chord.Appended(pressA) == [pressA];
    var r1, p1 := chord.OnKeyswitchEvent(pressA, false, Clock(100, expired));
    assert r1 == ABORT;
    assert chord.Buffered() == [pressA];
    assert chord.Appended(pressB) == [pressA, pressB];

    var r2, p2 := chord.OnKeyswitchEvent(pressB, false, Clock(110, expired));
    assert r2 == OK && p2 == KeyEvent(8, 1, X, 2);
    assert chord.emitted == [] && chord.potentialChordSize == 0;
  }
}
