/** The chord plugin: a potential-chord buffer, the timing state, and the event
    handlers that decide whether held keys wait for more, resolve into a chord's
    output key, or are replayed one by one ("arpeggiated"). */
module ChordPlugin {
  import opened Events
  import opened ChordTable
  import opened Matching

  newtype uint8 = x: int | 0 <= x < 256

  datatype EventHandlerResult = OK | ABORT

  /** The runtime's clock as the plugin sees it in one cycle: the cycle's start time
      and the runtime's `hasTimeExpired(timestamp, ttl)` test, left uninterpreted. */
  datatype Clock = Clock(millisAtCycleStart: int, hasTimeExpired: (int, int) -> bool)

  /** What `resolveOrArpeggiate` sends downstream for the buffer `b`: one event
      carrying the chord's output key and the identity of the last buffered event
      when the buffer matches a chord, otherwise every buffered event unchanged. */
  function Replay(ds: seq<ChordDef>, b: seq<KeyEvent>): seq<KeyEvent>
    requires ValidTable(ds)
  {
    var target := FirstMatch(ds, KeysOf(b));
    if target == NoKey then b
    else
      FirstMatchNeedsKeys(ds, KeysOf(b));
      [Rewrite(b[|b| - 1], target)]
  }

  /** A buffer that only the first exact chord with a real output matches collapses
      into one event: the last buffered event, carrying that output. */
  lemma ReplayResolves(ds: seq<ChordDef>, b: seq<KeyEvent>, i: nat)
    requires ValidTable(ds)
    requires i < |ds| && IsExact(ds[i], KeysOf(b)) && ds[i].output != NoKey
    requires forall j :: 0 <= j < i ==> !IsExact(ds[j], KeysOf(b))
    ensures |b| > 0
    ensures Replay(ds, b) == [Rewrite(b[|b| - 1], ds[i].output)]
  {
    FirstMatchWins(ds, KeysOf(b), i);
    assert ValidDef(ds[i]);
  }

  /** A buffer that no chord matches exactly is replayed as it is, in order. */
  lemma ReplayArpeggiates(ds: seq<ChordDef>, b: seq<KeyEvent>)
    requires ValidTable(ds)
    requires forall i :: 0 <= i < |ds| ==> !IsExact(ds[i], KeysOf(b))
    ensures Replay(ds, b) == b
  {
    FirstMatchNone(ds, KeysOf(b));
  }

  /** Where one call of the key-switch handler leaves the event `e` and the events
      `b0` buffered before it, given the buffer `b` after the call, the output log
      `log` before and `out` after it, and the event `passed` that continues: a
      held-back press sits behind `b0`; otherwise the event continues with its own
      location, state and identity, while `b0` either stays buffered, is sent ahead
      of it (replayed in order, or resolved into one event), or is folded together
      with the press into the chord that the press completes. Nothing is dropped. */
  ghost predicate Accounted(ds: seq<ChordDef>, b0: seq<KeyEvent>, e: KeyEvent, result: EventHandlerResult,
                            passed: KeyEvent, b: seq<KeyEvent>, log: seq<KeyEvent>, out: seq<KeyEvent>)
    requires ValidTable(ds)
  {
    if result == ABORT then b == b0 + [e] && out == log
    else
      && passed == Rewrite(e, passed.key)
      && (|| (b == b0 && out == log && passed == e)
          || (b == [] && out == log + Replay(ds, b0) && passed == e)
          || (b == [] && out == log && passed.key != NoKey && passed.key == FirstMatch(ds, KeysOf(b0 + [e]))))
  }

  /** An event passed on untouched, with the buffer and the output as they were. */
  lemma AccountedUntouched(ds: seq<ChordDef>, b0: seq<KeyEvent>, e: KeyEvent,
                           b: seq<KeyEvent>, log: seq<KeyEvent>, out: seq<KeyEvent>)
    requires ValidTable(ds)
    requires b == b0 && out == log
    ensures Accounted(ds, b0, e, OK, e, b, log, out)
  {
  }

  /** A press held back behind the buffer. */
  lemma AccountedHeld(ds: seq<ChordDef>, b0: seq<KeyEvent>, e: KeyEvent,
                      b: seq<KeyEvent>, log: seq<KeyEvent>, out: seq<KeyEvent>)
    requires ValidTable(ds)
    requires b == b0 + [e] && out == log
    ensures Accounted(ds, b0, e, ABORT, e, b, log, out)
  {
  }

  /** An event passed on behind the replay of the buffer. */
  lemma AccountedReplayed(ds: seq<ChordDef>, b0: seq<KeyEvent>, e: KeyEvent,
                          b: seq<KeyEvent>, log: seq<KeyEvent>, out: seq<KeyEvent>)
    requires ValidTable(ds)
    requires b == [] && out == log + Replay(ds, b0)
    ensures Accounted(ds, b0, e, OK, e, b, log, out)
  {
  }

  /** A press that completes a chord together with the buffer, and continues as it. */
  lemma AccountedFolded(ds: seq<ChordDef>, b0: seq<KeyEvent>, e: KeyEvent, k: Key,
                        b: seq<KeyEvent>, log: seq<KeyEvent>, out: seq<KeyEvent>)
    requires ValidTable(ds)
    requires k != NoKey && k == FirstMatch(ds, KeysOf(b0 + [e]))
    requires b == [] && out == log
    ensures Accounted(ds, b0, e, OK, Rewrite(e, k), b, log, out)
  {
  }

  class Chord {
    /** `chord_defs_`; its length is `chord_defs_size_`. */
    const defs: seq<Key>
    /** `kMaxChordSize`, the capacity of the potential-chord buffer. */
    const maxChordSize: nat
    const keyPredicates: KeyPredicates
    /** `potential_chord_`, of which the first `potentialChordSize` entries are live. */
    const potentialChord: array<KeyEvent>
    var potentialChordSize: nat
    var startTime: int
    var priorKeypressTimestamp: int
    var timeout: uint8
    var minimumPriorInterval: uint8
    /** Every event handed to `Runtime.handleKeyEvent`, oldest first. */
    var emitted: seq<KeyEvent>

    ghost predicate Valid()
      reads this
    {
      && potentialChord.Length == maxChordSize
      && 0 < maxChordSize
      && potentialChordSize <= maxChordSize
      && WellFormed(defs)
    }

    /** The live part of the buffer. */
    ghost function Buffered(): (b: seq<KeyEvent>)
      reads this, potentialChord
      requires Valid()
      ensures |b| == potentialChordSize
    {
      potentialChord[..potentialChordSize]
    }

    /** Events stay buffered only while they can still grow into a chord. */
    ghost predicate Pending()
      reads this, potentialChord
      requires Valid()
    {
      potentialChordSize > 0 ==> SomeStrictSuperset(Table(), KeysOf(Buffered()))
    }

    /** Every chord of the table fits in the buffer. */
    ghost predicate TableFits()
      reads this
      requires WellFormed(defs)
    {
      forall i :: 0 <= i < |Table()| ==> |Table()[i].triggers| <= maxChordSize
    }

    /** While the buffer is pending and every chord fits, the buffer is never full,
        so `appendEvent` always stores the press. */
    lemma PendingNotFull()
      requires Valid() && Pending() && TableFits()
      ensures potentialChordSize < maxChordSize
    {
      if potentialChordSize > 0 {
        StrictSupersetBoundsKeys(Table(), KeysOf(Buffered()), maxChordSize);
      }
    }

    /** A full buffer is still pending, since `Pending()` holds in every state the
        constructor and the handlers leave. `appendEvent` has no room, so the buffer
        stays as it is and can still grow into a chord. The press is then held back
        (`ABORT`) without being stored, and this is the only outcome a full buffer has. */
    lemma FullBufferHoldsBack(event: KeyEvent)
      requires Valid() && Pending() && potentialChordSize == maxChordSize
      ensures Appended(event) == Buffered()
      ensures SomeStrictSuperset(Table(), KeysOf(Appended(event)))
    {
    }

    /** The chord definitions the table encodes. */
    ghost function Table(): (ds: seq<ChordDef>)
      requires WellFormed(defs)
      ensures ValidTable(ds) && Encode(ds) == defs
    {
      EncodeDecode(defs);
      Decode(defs).value
    }

    /** The live buffer as `appendEvent(event)` would leave it. */
    ghost function Appended(event: KeyEvent): (b: seq<KeyEvent>)
      reads this, potentialChord
      requires Valid()
      ensures |b| <= maxChordSize
    {
      if potentialChordSize < maxChordSize then Buffered() + [event] else Buffered()
    }

    /** The value `resetPriorKeypressTimestamp` stores. */
    ghost function PriorReset(clock: Clock): int
      reads this
    {
      clock.millisAtCycleStart - (minimumPriorInterval as int + 1)
    }

    /** The state `resolveOrArpeggiate` leaves when it started from buffer `b`,
        prior-keypress timestamp `prior` and output log `log`. */
    ghost predicate Replayed(b: seq<KeyEvent>, prior: int, log: seq<KeyEvent>, clock: Clock)
      reads this
      requires WellFormed(defs)
    {
      && potentialChordSize == 0
      && emitted == log + Replay(Table(), b)
      && priorKeypressTimestamp == (if FirstMatch(Table(), KeysOf(b)) == NoKey then prior else PriorReset(clock))
    }

    /** An event that reaches the buffering step of `onKeyswitchEvent`. */
    ghost predicate Attempts(event: KeyEvent, shouldIgnore: bool, clock: Clock)
      reads this
    {
      && !shouldIgnore
      && keyPredicates.keyToggledOn(event.state)
      && (potentialChordSize == 0 ==> clock.hasTimeExpired(priorKeypressTimestamp, minimumPriorInterval as int))
    }

    constructor (defs: seq<Key>, maxChordSize: nat, keyPredicates: KeyPredicates,
                 timeout: uint8, minimumPriorInterval: uint8)
      requires WellFormed(defs) && maxChordSize > 0
      ensures Valid() && Pending() && fresh(potentialChord)
      ensures this.defs == defs && this.maxChordSize == maxChordSize && this.keyPredicates == keyPredicates
      ensures this.timeout == timeout && this.minimumPriorInterval == minimumPriorInterval
      ensures potentialChordSize == 0 && startTime == 0 && priorKeypressTimestamp == 0 && emitted == []
    {
      this.defs := defs;
      this.maxChordSize := maxChordSize;
      this.keyPredicates := keyPredicates;
      this.timeout := timeout;
      this.minimumPriorInterval := minimumPriorInterval;
      potentialChord := new KeyEvent[maxChordSize];
      potentialChordSize := 0;
      startTime := 0;
      priorKeypressTimestamp := 0;
      emitted := [];
    }

    /** The key-switch event handler. `shouldIgnore` is the event tracker's verdict
        on this event; `passed` is the event as it continues down the pipeline. */
    method OnKeyswitchEvent(event: KeyEvent, shouldIgnore: bool, clock: Clock)
      returns (result: EventHandlerResult, passed: KeyEvent)
      requires Valid()
      modifies this, potentialChord
      ensures Valid() && (old(Pending()) ==> Pending())
      ensures timeout == old(timeout) && minimumPriorInterval == old(minimumPriorInterval)
      // An event the tracker has already seen is passed on untouched.
      ensures shouldIgnore ==>
        result == OK && passed == event && unchanged(this) && unchanged(potentialChord)
      // A release (or any event that is not a fresh press) forces the pending decision.
      ensures !shouldIgnore && !keyPredicates.keyToggledOn(event.state) ==>
        && result == OK && passed == event
        && Replayed(old(Buffered()), old(priorKeypressTimestamp), old(emitted), clock)
        && startTime == old(startTime)
        && unchanged(potentialChord)
      // With nothing buffered, a press inside the quiet interval is an ordinary keystroke.
      ensures !shouldIgnore && keyPredicates.keyToggledOn(event.state) && !old(Attempts(event, shouldIgnore, clock)) ==>
        result == OK && passed == event && unchanged(this) && unchanged(potentialChord)
      // Otherwise the event is appended (a no-op when the buffer is full) and matched.
      ensures old(Attempts(event, shouldIgnore, clock)) ==>
        var b1 := old(Appended(event));
        var prior1 := if old(potentialChordSize) == 0 && !IsExpectedBeforeChord(event.key)
                      then clock.millisAtCycleStart else old(priorKeypressTimestamp);
        var target := FirstMatch(Table(), KeysOf(b1));
        && potentialChord[..] == (if old(potentialChordSize) < maxChordSize
                                  then old(potentialChord[..])[old(potentialChordSize) := event]
                                  else old(potentialChord[..]))
        && (SomeStrictSuperset(Table(), KeysOf(b1)) ==>
              && result == ABORT && passed == event
              && Buffered() == b1
              && startTime == clock.millisAtCycleStart
              && priorKeypressTimestamp == prior1
              && emitted == old(emitted))
        && (!SomeStrictSuperset(Table(), KeysOf(b1)) && target == NoKey ==>
              && result == OK && passed == event
              && startTime == old(startTime)
              && Replayed(b1[..|b1| - 1], prior1, old(emitted), clock))
        && (!SomeStrictSuperset(Table(), KeysOf(b1)) && target != NoKey ==>
              && result == OK && passed == Rewrite(event, target)
              && potentialChordSize == 0
              && startTime == old(startTime)
              && priorKeypressTimestamp == PriorReset(clock)
              && emitted == old(emitted))
      // The event is held back exactly when the extended buffer can still grow into a chord.
      ensures result == ABORT <==>
        old(Attempts(event, shouldIgnore, clock)) && SomeStrictSuperset(Table(), KeysOf(old(Appended(event))))
      // While the buffer is pending and every chord fits in it, no event is dropped.
      ensures old(Pending()) && TableFits() ==>
        Accounted(Table(), old(Buffered()), event, result, passed, Buffered(), old(emitted), emitted)
    {
      ghost var b0 := Buffered();
      ghost var log := emitted;
      passed := event;
      if shouldIgnore {
        AccountedUntouched(Table(), b0, event, Buffered(), log, emitted);
        return OK, passed;
      }

      if !keyPredicates.keyToggledOn(event.state) {
        ResolveOrArpeggiate(clock);
        AccountedReplayed(Table(), b0, event, Buffered(), log, emitted);
        return OK, passed;
      }

      result, passed := OnPress(event, clock);
    }

    /** `onKeyswitchEvent` for a fresh press the tracker has not seen: outside a
        pending chord it must come after the quiet interval, and a press of a key
        that may start a chord resets that interval's start. */
    method OnPress(event: KeyEvent, clock: Clock) returns (result: EventHandlerResult, passed: KeyEvent)
      requires Valid() && keyPredicates.keyToggledOn(event.state)
      modifies this, potentialChord
      ensures Valid() && (old(Pending()) ==> Pending())
      ensures timeout == old(timeout) && minimumPriorInterval == old(minimumPriorInterval)
      ensures !old(Attempts(event, false, clock)) ==>
        result == OK && passed == event && unchanged(this) && unchanged(potentialChord)
      // Otherwise the event is appended (a no-op when the buffer is full) and matched.
      ensures old(Attempts(event, false, clock)) ==>
        var b1 := old(Appended(event));
        var prior1 := if old(potentialChordSize) == 0 && !IsExpectedBeforeChord(event.key)
                      then clock.millisAtCycleStart else old(priorKeypressTimestamp);
        var target := FirstMatch(Table(), KeysOf(b1));
        && potentialChord[..] == (if old(potentialChordSize) < maxChordSize
                                  then old(potentialChord[..])[old(potentialChordSize) := event]
                                  else old(potentialChord[..]))
        && (SomeStrictSuperset(Table(), KeysOf(b1)) ==>
              && result == ABORT && passed == event
              && Buffered() == b1
              && startTime == clock.millisAtCycleStart
              && priorKeypressTimestamp == prior1
              && emitted == old(emitted))
        && (!SomeStrictSuperset(Table(), KeysOf(b1)) && target == NoKey ==>
              && result == OK && passed == event
              && startTime == old(startTime)
              && Replayed(b1[..|b1| - 1], prior1, old(emitted), clock))
        && (!SomeStrictSuperset(Table(), KeysOf(b1)) && target != NoKey ==>
              && result == OK && passed == Rewrite(event, target)
              && potentialChordSize == 0
              && startTime == old(startTime)
              && priorKeypressTimestamp == PriorReset(clock)
              && emitted == old(emitted))
      ensures result == ABORT <==>
        old(Attempts(event, false, clock)) && SomeStrictSuperset(Table(), KeysOf(old(Appended(event))))
      ensures old(Pending()) && TableFits() ==>
        Accounted(Table(), old(Buffered()), event, result, passed, Buffered(), old(emitted), emitted)
    {
      passed := event;
      ghost var b0 := Buffered();
      ghost var b1 := Appended(event);
      ghost var log := emitted;
      ghost var pending := Pending();
      if potentialChordSize == 0 {
        if !clock.hasTimeExpired(priorKeypressTimestamp, minimumPriorInterval as int) {
          AccountedUntouched(Table(), b0, event, Buffered(), log, emitted);
          return OK, passed;
        }
        if !IsExpectedBeforeChord(event.key) {
          priorKeypressTimestamp := clock.millisAtCycleStart;
        }
      }
      assert Appended(event) == b1;
      assert Buffered() == b0 && Pending() == pending && emitted == log;

      result, passed := ProcessPress(event, clock);
    }

    /** The rest of `onKeyswitchEvent` for a press that may start or extend a
        chord: buffer it, then hold it back, resolve the buffer into a chord, or
        replay what was buffered before it. */
    method ProcessPress(event: KeyEvent, clock: Clock) returns (result: EventHandlerResult, passed: KeyEvent)
      requires Valid()
      modifies this, potentialChord
      ensures Valid() && Pending()
      ensures timeout == old(timeout) && minimumPriorInterval == old(minimumPriorInterval)
      ensures var b1 := old(Appended(event));
        var target := FirstMatch(Table(), KeysOf(b1));
        && potentialChord[..] == (if old(potentialChordSize) < maxChordSize
                                  then old(potentialChord[..])[old(potentialChordSize) := event]
                                  else old(potentialChord[..]))
        && (SomeStrictSuperset(Table(), KeysOf(b1)) ==>
              && result == ABORT && passed == event
              && Buffered() == b1
              && startTime == clock.millisAtCycleStart
              && priorKeypressTimestamp == old(priorKeypressTimestamp)
              && emitted == old(emitted))
        && (!SomeStrictSuperset(Table(), KeysOf(b1)) && target == NoKey ==>
              && result == OK && passed == event
              && startTime == old(startTime)
              && Replayed(b1[..|b1| - 1], old(priorKeypressTimestamp), old(emitted), clock))
        && (!SomeStrictSuperset(Table(), KeysOf(b1)) && target != NoKey ==>
              && result == OK && passed == Rewrite(event, target)
              && potentialChordSize == 0
              && startTime == old(startTime)
              && priorKeypressTimestamp == PriorReset(clock)
              && emitted == old(emitted))
      ensures result == ABORT <==> SomeStrictSuperset(Table(), KeysOf(old(Appended(event))))
      ensures old(Pending()) && TableFits() ==>
        Accounted(Table(), old(Buffered()), event, result, passed, Buffered(), old(emitted), emitted)
    {
      passed := event;
      ghost var b0 := Buffered();
      ghost var b1 := Appended(event);
      ghost var log := emitted;
      ghost var fits := Pending() && TableFits();
      if fits {
        PendingNotFull();
        assert b1 == b0 + [event];
      }

      AppendEvent(event);

      var strictSubset := IsChordStrictSubset();
      if strictSubset {
        startTime := clock.millisAtCycleStart;
        if fits {
          AccountedHeld(Table(), b0, event, Buffered(), log, emitted);
        }
        return ABORT, passed;
      }

      assert Buffered() == b1;
      passed := FinishPress(event, clock);
      if fits {
        if FirstMatch(Table(), KeysOf(b1)) == NoKey {
          assert b1[..|b1| - 1] == b0;
          AccountedReplayed(Table(), b0, event, Buffered(), log, emitted);
        } else {
          AccountedFolded(Table(), b0, event, passed.key, Buffered(), log, emitted);
        }
      }
      return OK, passed;
    }

    /** The end of `onKeyswitchEvent` once the buffer can no longer grow into a
        longer chord. A buffer that matches no chord loses its last event (the
        press, when there was room to store it) and the rest is resolved or
        replayed ahead of the press, which continues unchanged; a buffer that
        matches a chord is emptied and the press continues carrying its output. */
    method FinishPress(event: KeyEvent, clock: Clock) returns (passed: KeyEvent)
      requires Valid() && potentialChordSize > 0
      modifies this
      ensures Valid() && potentialChordSize == 0
      ensures timeout == old(timeout) && minimumPriorInterval == old(minimumPriorInterval)
      ensures startTime == old(startTime)
      ensures var b := old(Buffered());
        var target := FirstMatch(Table(), KeysOf(b));
        && (target == NoKey ==>
              passed == event && Replayed(b[..|b| - 1], old(priorKeypressTimestamp), old(emitted), clock))
        && (target != NoKey ==>
              && passed == Rewrite(event, target)
              && priorKeypressTimestamp == PriorReset(clock)
              && emitted == old(emitted))
    {
      ghost var b := Buffered();
      var targetKey := GetChord();

      if targetKey == NoKey {
        potentialChordSize := potentialChordSize - 1;
        assert Buffered() == b[..|b| - 1];
        ResolveOrArpeggiate(clock);
        return event;
      }

      ResetPriorKeypressTimestamp(clock);
      potentialChordSize := 0;
      passed := event.(key := targetKey);
    }

    /** The per-cycle check: a pending chord whose timeout has expired is forced to a
        decision, and a prior-keypress timestamp older than the quiet interval is
        moved up to just outside it. */
    method AfterEachCycle(clock: Clock) returns (result: EventHandlerResult)
      requires Valid()
      modifies this
      ensures Valid() && (old(Pending()) ==> Pending()) && result == OK
      ensures var fire := clock.hasTimeExpired(old(startTime), old(timeout) as int) && old(potentialChordSize) > 0;
        && (fire ==> potentialChordSize == 0 && emitted == old(emitted) + Replay(Table(), old(Buffered())))
        && (!fire ==> potentialChordSize == old(potentialChordSize) && emitted == old(emitted))
        && priorKeypressTimestamp ==
             (if (fire && FirstMatch(Table(), KeysOf(old(Buffered()))) != NoKey)
                 || clock.hasTimeExpired(old(priorKeypressTimestamp), old(minimumPriorInterval) as int)
              then PriorReset(clock)
              else old(priorKeypressTimestamp))
      ensures startTime == old(startTime) && timeout == old(timeout) && minimumPriorInterval == old(minimumPriorInterval)
    {
      if clock.hasTimeExpired(startTime, timeout as int) && potentialChordSize > 0 {
        ResolveOrArpeggiate(clock);
      }

      if clock.hasTimeExpired(priorKeypressTimestamp, minimumPriorInterval as int) {
        ResetPriorKeypressTimestamp(clock);
      }

      return OK;
    }

    method SetTimeout(timeout: uint8)
      modifies this`timeout
      ensures this.timeout == timeout
    {
      this.timeout := timeout;
    }

    method SetMinimumPriorInterval(minInterval: uint8)
      modifies this`minimumPriorInterval
      ensures minimumPriorInterval == minInterval
    {
      minimumPriorInterval := minInterval;
    }

    /** Keys that often precede a chord in fast typing and so do not restart the
        quiet interval: modifiers, layer shifts, Space, Escape, Tab and the arrows. */
    function IsExpectedBeforeChord(key: Key): (r: bool)
      ensures keyPredicates.isKeyboardModifier(key) || keyPredicates.isLayerShift(key) ==> r
      ensures key in {Space, Esc, Tab, LeftArrow, RightArrow, UpArrow, DownArrow} ==> r
      ensures (key.Other? || key.NoKey?) && !keyPredicates.isKeyboardModifier(key) && !keyPredicates.isLayerShift(key) ==> !r
    {
      || keyPredicates.isKeyboardModifier(key)
      || keyPredicates.isLayerShift(key)
      || key == Space
      || key == Esc
      || key == Tab
      || key == LeftArrow || key == RightArrow || key == UpArrow || key == DownArrow
    }

    method ResetPriorKeypressTimestamp(clock: Clock)
      modifies this`priorKeypressTimestamp
      ensures priorKeypressTimestamp == PriorReset(clock)
    {
      priorKeypressTimestamp := clock.millisAtCycleStart - (minimumPriorInterval as int + 1);
    }

    method ResolveOrArpeggiate(clock: Clock)
      requires Valid()
      modifies this
      ensures Valid()
      ensures Replayed(old(Buffered()), old(priorKeypressTimestamp), old(emitted), clock)
      ensures startTime == old(startTime) && timeout == old(timeout) && minimumPriorInterval == old(minimumPriorInterval)
    {
      var targetKey := GetChord();
      if targetKey == NoKey {
        Arpeggiate();
      } else {
        FirstMatchNeedsKeys(Table(), KeysOf(Buffered()));
        Resolve(targetKey, clock);
      }
    }

    /** Collapse the buffer into one event: the last buffered event's location,
        state and identity with the chord's output key. */
    method Resolve(targetKey: Key, clock: Clock)
      requires Valid() && potentialChordSize > 0
      modifies this
      ensures Valid()
      ensures potentialChordSize == 0
      ensures priorKeypressTimestamp == PriorReset(clock)
      ensures emitted == old(emitted) + [Rewrite(old(Buffered())[old(potentialChordSize) - 1], targetKey)]
      ensures startTime == old(startTime) && timeout == old(timeout) && minimumPriorInterval == old(minimumPriorInterval)
    {
      ResetPriorKeypressTimestamp(clock);

      var event := potentialChord[potentialChordSize - 1];
      potentialChordSize := 0;

      var storedId := event.id;
      var restoredEvent := KeyEvent(event.addr, event.state, targetKey, storedId);
      HandleKeyEvent(restoredEvent);
    }

    /** `Runtime.handleKeyEvent`: the event goes downstream, after those before it. */
    method HandleKeyEvent(event: KeyEvent)
      modifies this`emitted
      ensures emitted == old(emitted) + [event]
    {
      emitted := emitted + [event];
    }

    /** `inChord(index, key)`: its loop re-tests `index`, not the moving position, so
        once started the scan stops only at a `NoKey` or at `key`. */
    method InChord(index: nat, key: Key) returns (found: bool)
      requires ScanTerminatesAt(defs, index)
      ensures found == InChordAt(defs, index, key)
    {
      var i := index;
      while index < |defs| - 1
        invariant index < |defs| - 1 ==> index <= i < |defs| && NoKey in defs[i..]
        invariant index < |defs| - 1 ==> Scan(defs[index..], key) == Scan(defs[i..], key)
        decreases |defs| - i
      {
        var chordKey := defs[i];
        assert defs[i..][0] == chordKey;
        if chordKey == NoKey {
          return false;
        }
        if chordKey == key {
          return true;
        }
        assert defs[i..][1..] == defs[i + 1..];
        i := i + 1;
      }
      return false;
    }

    /** `isChordStrictSubset`: walks the table entry by entry. */
    method IsChordStrictSubset() returns (r: bool)
      requires Valid()
      ensures r == SomeStrictSuperset(Table(), KeysOf(Buffered()))
    {
      ghost var keys := KeysOf(Buffered());
      var c := 0;
      assert defs[c..] == defs;
      while c < |defs|
        invariant c <= |defs| && WellFormed(defs[c..])
        invariant SomeStrictSuperset(Table(), keys) == SomeStrictSuperset(Decode(defs[c..]).value, keys)
        decreases |defs| - c
      {
        var cs := ChordSize(c);
        var next := c + cs + 2;
        SomeStrictSupersetStep(defs, c, cs, next, keys);
        var isSubset := IsChordStrictSubsetOf(c, cs);
        if isSubset {
          return true;
        }
        c := next;
      }
      assert defs[c..] == [];
      return false;
    }

    /** `isChordStrictSubsetOf(c, cs)`: the entry at `c`, of `cs` triggers, has more
        triggers than the buffer and contains every buffered key. */
    method IsChordStrictSubsetOf(c: nat, cs: nat) returns (r: bool)
      requires Valid()
      requires cs > potentialChordSize > 0 ==> ScanTerminatesAt(defs, c)
      ensures r <==> cs > potentialChordSize && AllInChordAt(defs, c, KeysOf(Buffered()))
    {
      if cs <= potentialChordSize {
        return false;
      }
      var i := 0;
      while i < potentialChordSize
        invariant 0 <= i <= potentialChordSize
        invariant forall j :: 0 <= j < i ==> InChordAt(defs, c, KeysOf(Buffered())[j])
      {
        assert KeysOf(Buffered())[i] == potentialChord[i].key;
        var found := InChord(c, potentialChord[i].key);
        if !found {
          return false;
        }
        i := i + 1;
      }
      return true;
    }

    /** `chordSize(index)`: the number of trigger keys of the entry at `index`. */
    method ChordSize(index: nat) returns (size: nat)
      ensures size == if index < |defs| then TriggerCount(defs[index..]) else 0
    {
      size := 0;
      var i := index;
      while i < |defs| - 1
        invariant index <= i
        invariant index >= |defs| - 1 ==> i == index
        invariant size == i - index
        invariant index < |defs| ==> i < |defs| && TriggerCount(defs[index..]) == size + TriggerCount(defs[i..])
        decreases |defs| - i
      {
        var key := defs[i];
        if key == NoKey {
          assert defs[i..][0] == NoKey;
          break;
        }
        assert defs[i..][1..] == defs[i + 1..];
        size := size + 1;
        i := i + 1;
      }
      assert index < |defs| ==> TriggerCount(defs[i..]) == 0;
    }

    /** `isChord(c, cs)`: the entry at `c`, of `cs` triggers, has exactly as many
        triggers as the buffer and contains every buffered key. */
    method IsChord(c: nat, cs: nat) returns (r: bool)
      requires Valid()
      requires cs == potentialChordSize > 0 ==> ScanTerminatesAt(defs, c)
      ensures r <==> cs == potentialChordSize && AllInChordAt(defs, c, KeysOf(Buffered()))
    {
      if cs != potentialChordSize {
        return false;
      }
      var i := 0;
      while i < potentialChordSize
        invariant 0 <= i <= potentialChordSize
        invariant forall j :: 0 <= j < i ==> InChordAt(defs, c, KeysOf(Buffered())[j])
      {
        assert KeysOf(Buffered())[i] == potentialChord[i].key;
        var found := InChord(c, potentialChord[i].key);
        if !found {
          return false;
        }
        i := i + 1;
      }
      return true;
    }

    /** `getChord`: the output key of the first entry, in table order, that matches
        the buffer exactly, or `NoKey`. */
    method GetChord() returns (targetKey: Key)
      requires Valid()
      ensures targetKey == FirstMatch(Table(), KeysOf(Buffered()))
    {
      ghost var keys := KeysOf(Buffered());
      var c := 0;
      assert defs[c..] == defs;
      while c < |defs|
        invariant c <= |defs| && WellFormed(defs[c..])
        invariant FirstMatch(Table(), keys) == FirstMatch(Decode(defs[c..]).value, keys)
        decreases |defs| - c
      {
        var cs := ChordSize(c);
        var next := c + cs + 2;
        FirstMatchStep(defs, c, cs, next, keys);
        var isMatch := IsChord(c, cs);
        if isMatch {
          return defs[c + cs + 1];
        }
        c := next;
      }
      assert defs[c..] == [];
      return NoKey;
    }

    /** `appendEvent`: store the event behind the live part, unless the buffer is full. */
    method AppendEvent(event: KeyEvent)
      requires Valid()
      modifies this`potentialChordSize, potentialChord
      ensures Valid()
      ensures old(potentialChordSize) < maxChordSize ==>
        && potentialChordSize == old(potentialChordSize) + 1
        && potentialChord[..] == old(potentialChord[..])[old(potentialChordSize) := event]
      ensures old(potentialChordSize) >= maxChordSize ==>
        potentialChordSize == old(potentialChordSize) && potentialChord[..] == old(potentialChord[..])
      ensures Buffered() == old(Appended(event))
    {
      if potentialChordSize < maxChordSize {
        potentialChord[potentialChordSize] := event;
        potentialChordSize := potentialChordSize + 1;
      }
    }

    /** `arpeggiate`: replay every buffered event, in buffer order, unchanged. */
    method Arpeggiate()
      requires Valid()
      modifies this
      ensures Valid()
      ensures potentialChordSize == 0
      ensures emitted == old(emitted) + old(Buffered())
      ensures priorKeypressTimestamp == old(priorKeypressTimestamp)
      ensures startTime == old(startTime) && timeout == old(timeout) && minimumPriorInterval == old(minimumPriorInterval)
    {
      var i := 0;
      while i < potentialChordSize
        invariant 0 <= i <= potentialChordSize
        invariant emitted == old(emitted) + potentialChord[..i]
        modifies this`emitted
      {
        var event := potentialChord[i];
        var storedId := event.id;
        var restoredEvent := KeyEvent(event.addr, event.state, event.key, storedId);
        HandleKeyEvent(restoredEvent);
        assert potentialChord[..i + 1] == potentialChord[..i] + [event];
        i := i + 1;
      }
      potentialChordSize := 0;
    }
  }
}
