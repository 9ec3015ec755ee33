// The keyboard reducer: arrow-key presses and releases folded into a
// pair of held flags, repeated keys dropped, and each state turned into a
// signed paddle velocity (script.js:203-235). The event plumbing of the
// browser is replaced by explicit sequences of timestamped keys.
module Input {
  import opened Config
  import opened Optional

  /** The four key events that reach the reducer; other keys are filtered out before it. */
  datatype Key = UpPressed | UpReleased | DownPressed | DownReleased

  datatype Direction = Up | Down

  function DirectionOf(k: Key): Direction {
    if k.UpPressed? || k.UpReleased? then Up else Down
  }

  predicate IsPress(k: Key) {
    k.UpPressed? || k.DownPressed?
  }

  type Bit = b: int | 0 <= b <= 1

  /** The accumulator `[up, down]`: 1 while the arrow is held, 0 otherwise. */
  datatype Held = Held(up: Bit, down: Bit)

  /** The state the stream starts with: neither arrow held. */
  const Released: Held := Held(0, 0)

  function Component(h: Held, d: Direction): Bit {
    if d == Up then h.up else h.down
  }

  /** One step of the reducer: the event's own arrow becomes held or released, the other arrow is untouched. */
  function Step(acc: Held, k: Key): (r: Held)
    ensures Component(r, DirectionOf(k)) == (if IsPress(k) then 1 else 0)
    ensures forall d: Direction :: d != DirectionOf(k) ==> Component(r, d) == Component(acc, d)
  {
    match k
    case UpPressed => Held(1, acc.down)
    case UpReleased => Held(0, acc.down)
    case DownPressed => Held(acc.up, 1)
    case DownReleased => Held(acc.up, 0)
  }

  /** The reducer's state after folding `keys`, in order, starting from Released. */
  function Scan(keys: seq<Key>): Held {
    if keys == [] then Released
    else Step(Scan(keys[..|keys| - 1]), keys[|keys| - 1])
  }

  /** The commanded paddle velocity: down-held minus up-held, times the paddle speed. */
  function Velocity(h: Held): (r: real)
    ensures r == 0.0 <==> h.up == h.down
    ensures r == PaddleVelocity <==> h.down == 1 && h.up == 0
    ensures r == -PaddleVelocity <==> h.up == 1 && h.down == 0
  {
    (h.down - h.up) as real * PaddleVelocity
  }

  /**
   * The arrow of direction d is held after `keys` exactly when some press
   * of it is followed by no later event of that arrow.
   */
  ghost predicate HeldAfter(keys: seq<Key>, d: Direction) {
    exists i :: 0 <= i < |keys| && DirectionOf(keys[i]) == d && IsPress(keys[i]) &&
      forall j :: i < j < |keys| ==> DirectionOf(keys[j]) != d
  }

  /** The fold agrees with the last-event-wins reading of the key history, for each arrow. */
  lemma {:induction false} ScanHeld(keys: seq<Key>, d: Direction)
    ensures Component(Scan(keys), d) == 1 <==> HeldAfter(keys, d)
  {
    if keys != [] {
      var n := |keys| - 1;
      var init, k := keys[..n], keys[n];
      ScanHeld(init, d);
      if DirectionOf(k) == d {
        // The last event decides: a press is its own witness, and after a
        // release no earlier press is followed only by other arrows.
        if IsPress(k) {
          assert DirectionOf(keys[n]) == d && IsPress(keys[n]);
        }
      } else {
        if HeldAfter(init, d) {
          var i :| 0 <= i < |init| && DirectionOf(init[i]) == d && IsPress(init[i]) &&
                   forall j :: i < j < |init| ==> DirectionOf(init[j]) != d;
          assert keys[i] == init[i];
          assert forall j :: i < j < |keys| ==> DirectionOf(keys[j]) != d by {
            forall j | i < j < |keys| ensures DirectionOf(keys[j]) != d {
              if j < n { assert keys[j] == init[j]; }
            }
          }
        }
        if HeldAfter(keys, d) {
          var i :| 0 <= i < |keys| && DirectionOf(keys[i]) == d && IsPress(keys[i]) &&
                   forall j :: i < j < |keys| ==> DirectionOf(keys[j]) != d;
          assert i < n;
          assert init[i] == keys[i];
          assert forall j :: i < j < |init| ==> DirectionOf(init[j]) != d by {
            forall j | i < j < |init| ensures DirectionOf(init[j]) != d {
              assert init[j] == keys[j];
            }
          }
        }
      }
    }
  }

  /** The same event twice in a row has the effect of one. */
  lemma StepIdempotent(acc: Held, k: Key)
    ensures Step(Step(acc, k), k) == Step(acc, k)
  {
  }

  /** Events of different arrows commute. */
  lemma StepsCommute(acc: Held, a: Key, b: Key)
    requires DirectionOf(a) != DirectionOf(b)
    ensures Step(Step(acc, a), b) == Step(Step(acc, b), a)
  {
  }

  /** Up pressed, down pressed, up released: the states pass through -V, 0 and end at +V. */
  lemma UpDownUpExample()
    ensures Velocity(Scan([UpPressed])) == -PaddleVelocity
    ensures Velocity(Scan([UpPressed, DownPressed])) == 0.0
    ensures Scan([UpPressed, DownPressed, UpReleased]) == Held(0, 1)
    ensures Velocity(Scan([UpPressed, DownPressed, UpReleased])) == PaddleVelocity
  {
    assert [UpPressed, DownPressed, UpReleased][..2] == [UpPressed, DownPressed];
    assert [UpPressed, DownPressed][..1] == [UpPressed];
    assert [UpPressed][..0] == [];
  }

  /** A key event with the time at which it passes through the stream. */
  datatype KeyEvent = KeyEvent(time: real, key: Key)

  /** A velocity command for the paddle, stamped with its time. */
  datatype Command = Command(time: real, velocity: real)

  function Keys(events: seq<KeyEvent>): seq<Key> {
    seq(|events|, i requires 0 <= i < |events| => events[i].key)
  }

  /** The events kept by dropping each event whose key repeats the one just before it. */
  function Distinct(events: seq<KeyEvent>): (r: seq<KeyEvent>)
    ensures |r| <= |events|
    ensures events != [] ==> r != [] && r[|r| - 1].key == events[|events| - 1].key
    ensures forall i :: 0 < i < |r| ==> r[i - 1].key != r[i].key
    ensures forall e :: e in r ==> e in events
  {
    if |events| <= 1 then events
    else
      var init, last := events[..|events| - 1], events[|events| - 1];
      if last.key == init[|init| - 1].key then Distinct(init)
      else Distinct(init) + [last]
  }

  /**
   * Dropping repeats the way the stream operator does it: front to back,
   * passing an event on unless its key equals the last key passed on.
   */
  function DropRepeats(lastKey: Option<Key>, events: seq<KeyEvent>): seq<KeyEvent>
    decreases |events|
  {
    if events == [] then []
    else if lastKey == Some(events[0].key) then DropRepeats(lastKey, events[1..])
    else [events[0]] + DropRepeats(Some(events[0].key), events[1..])
  }

  function LastKey(events: seq<KeyEvent>): Option<Key> {
    if events == [] then None else Some(events[|events| - 1].key)
  }

  /** Distinct of a history extended by one event: the event is kept unless it repeats the last key. */
  lemma DistinctAppend(prefix: seq<KeyEvent>, e: KeyEvent)
    ensures Distinct(prefix + [e]) == Distinct(prefix) + (if LastKey(prefix) == Some(e.key) then [] else [e])
  {
    assert (prefix + [e])[..|prefix|] == prefix;
  }

  /** The operator on one more event: the event is passed on unless it repeats the last key passed on. */
  lemma DropRepeatsCons(lastKey: Option<Key>, e: KeyEvent, tail: seq<KeyEvent>)
    ensures DropRepeats(lastKey, [e] + tail) ==
            (if lastKey == Some(e.key) then [] else [e]) + DropRepeats(Some(e.key), tail)
  {
    assert ([e] + tail)[1..] == tail;
  }

  /** Distinct of a history is Distinct of a prefix followed by the operator run on the rest. */
  lemma {:induction false} DistinctSplit(prefix: seq<KeyEvent>, rest: seq<KeyEvent>)
    ensures Distinct(prefix + rest) == Distinct(prefix) + DropRepeats(LastKey(prefix), rest)
    decreases |rest|
  {
    if rest == [] {
      assert prefix + rest == prefix;
    } else {
      var e, tail := rest[0], rest[1..];
      var longer := prefix + [e];
      var kept: seq<KeyEvent> := if LastKey(prefix) == Some(e.key) then [] else [e];
      var after := DropRepeats(Some(e.key), tail);
      calc {
        Distinct(prefix + rest);
        == { assert prefix + rest == longer + tail; }
        Distinct(longer + tail);
        == { assert LastKey(longer) == Some(e.key); DistinctSplit(longer, tail); }
        Distinct(longer) + after;
        == { DistinctAppend(prefix, e); }
        (Distinct(prefix) + kept) + after;
        == { assert (Distinct(prefix) + kept) + after == Distinct(prefix) + (kept + after); }
        Distinct(prefix) + (kept + after);
        == { assert rest == [e] + tail; DropRepeatsCons(LastKey(prefix), e, tail); }
        Distinct(prefix) + DropRepeats(LastKey(prefix), rest);
      }
    }
  }

  /**
   * Distinct is exactly the operator: it keeps, in order, the first event
   * of each run of equal keys and drops the rest of the run.
   */
  lemma DistinctIsDropRepeats(events: seq<KeyEvent>)
    ensures Distinct(events) == DropRepeats(None, events)
  {
    DistinctSplit([], events);
    assert [] + events == events;
  }

  lemma KeysAppend(events: seq<KeyEvent>, e: KeyEvent)
    ensures Keys(events + [e]) == Keys(events) + [e.key]
  {
  }

  lemma ScanAppend(keys: seq<Key>, k: Key)
    ensures Scan(keys + [k]) == Step(Scan(keys), k)
  {
    assert (keys + [k])[..|keys|] == keys;
  }

  /** An event that repeats the key before it leaves the state as it was. */
  lemma RepeatKeepsScan(events: seq<KeyEvent>, e: KeyEvent)
    requires events != [] && e.key == events[|events| - 1].key
    ensures Scan(Keys(events + [e])) == Scan(Keys(events))
  {
    var n := |events| - 1;
    var earlier := events[..n];
    assert events == earlier + [events[n]];
    KeysAppend(earlier, events[n]);
    KeysAppend(events, e);
    ScanAppend(Keys(earlier), e.key);
    ScanAppend(Keys(events), e.key);
    StepIdempotent(Scan(Keys(earlier)), e.key);
  }

  /** Two histories that reach the same state still agree after one more event. */
  lemma AppendKeepsScan(a: seq<KeyEvent>, b: seq<KeyEvent>, e: KeyEvent)
    requires Scan(Keys(a)) == Scan(Keys(b))
    ensures Scan(Keys(a + [e])) == Scan(Keys(b + [e]))
  {
    KeysAppend(a, e);
    KeysAppend(b, e);
    ScanAppend(Keys(a), e.key);
    ScanAppend(Keys(b), e.key);
  }

  /** Dropping repeated keys does not change the reducer's state. */
  lemma {:induction false} DistinctKeepsScan(events: seq<KeyEvent>)
    ensures Scan(Keys(Distinct(events))) == Scan(Keys(events))
  {
    if |events| > 1 {
      var n := |events| - 1;
      var init, last := events[..n], events[n];
      assert events == init + [last];
      DistinctKeepsScan(init);
      if last.key == init[n - 1].key {
        assert Distinct(events) == Distinct(init);
        RepeatKeepsScan(init, last);
      } else {
        assert Distinct(events) == Distinct(init) + [last];
        AppendKeepsScan(Distinct(init), init, last);
      }
    }
  }

  /** A velocity the reducer can command: up, still or down at paddle speed. */
  predicate Commandable(v: real) {
    v == 0.0 || v == PaddleVelocity || v == -PaddleVelocity
  }

  /**
   * The commands emitted for the (already distinct) events: one per event,
   * stamped with its time, carrying the velocity of the state after the
   * events up to and including it.
   */
  function Emitted(events: seq<KeyEvent>): (r: seq<Command>)
    ensures |r| == |events|
    ensures forall i :: 0 <= i < |r| ==> r[i].time == events[i].time && Commandable(r[i].velocity)
    ensures events != [] ==> r[|r| - 1].velocity == Velocity(Scan(Keys(events)))
  {
    assert events[..|events|] == events;
    seq(|events|, i requires 0 <= i < |events| => Command(events[i].time, Velocity(Scan(Keys(events[..i + 1])))))
  }

  /**
   * Emission is causal: the commands for the first n events do not depend
   * on the events after them. With the last command's velocity this gives
   * every command the velocity of the state after its own prefix.
   */
  lemma EmittedPrefix(events: seq<KeyEvent>, n: nat)
    requires n <= |events|
    ensures Emitted(events[..n]) == Emitted(events)[..n]
  {
    var head := events[..n];
    EmittedVelocity(head);
    EmittedVelocity(events);
    forall i | 0 <= i < n
      ensures Emitted(head)[i] == Emitted(events)[i]
    {
      assert head[..i + 1] == events[..i + 1];
    }
  }

  /**
   * The stream of velocity commands: the initial state is emitted first,
   * at the time of subscription, then one command per event that survives
   * the dropping of repeats.
   */
  function KeyStream(start: real, events: seq<KeyEvent>): (r: seq<Command>)
    ensures |r| == 1 + |Distinct(events)| && r[0] == Command(start, 0.0)
    ensures forall i :: 0 <= i < |Distinct(events)| ==> r[i + 1].time == Distinct(events)[i].time
    ensures forall i :: 0 < i < |r| ==> r[i].velocity == Velocity(Scan(Keys(Distinct(events)[..i])))
    ensures r[|r| - 1].velocity == Velocity(Scan(Keys(events)))
    ensures forall c :: c in r ==> Commandable(c.velocity)
  {
    var d := Distinct(events);
    DistinctKeepsScan(events);
    assert d != [] ==> d[..|d|] == d;
    EmittedVelocity(d);
    PrependCommand(Command(start, Velocity(Released)), d, Emitted(d));
    [Command(start, Velocity(Released))] + Emitted(d)
  }

  /** Each emitted command carries the velocity after its own prefix. */
  lemma EmittedVelocity(events: seq<KeyEvent>)
    ensures forall i :: 0 <= i < |events| ==> Emitted(events)[i].velocity == Velocity(Scan(Keys(events[..i + 1])))
  {
  }

  /** Prepending a command shifts the per-event facts by one place. */
  lemma PrependCommand(first: Command, events: seq<KeyEvent>, emitted: seq<Command>)
    requires |emitted| == |events|
    requires forall i :: 0 <= i < |events| ==> emitted[i].time == events[i].time
    requires forall i :: 0 <= i < |events| ==> emitted[i].velocity == Velocity(Scan(Keys(events[..i + 1])))
    ensures forall i :: 0 <= i < |events| ==> ([first] + emitted)[i + 1].time == events[i].time
    ensures forall i :: 0 < i < |emitted| + 1 ==> ([first] + emitted)[i].velocity == Velocity(Scan(Keys(events[..i])))
  {
    forall i | 0 < i < |emitted| + 1
      ensures ([first] + emitted)[i].velocity == Velocity(Scan(Keys(events[..i])))
    {
      assert ([first] + emitted)[i] == emitted[i - 1];
    }
  }
}
