/** The deduplicating consumer: a key is claimed under the lock, its handler runs outside the lock, and
    the outcome is recorded under the lock again. */
module Dedup {
  import Bits
  import opened Lists
  import opened BloomFilter

  type Key = Data

  datatype Message = Message(id: Data, topic: Data, payload: Data)

  const COLON: Data := [58]

  function DedupKey(m: Message): Key {
    if m.id != [] then m.id else m.topic + COLON + m.payload
  }

  /** The longer topic continues the shorter one past a colon that the other message has between topic
      and payload. */
  ghost predicate ColonMoved(m: Message, n: Message) {
    exists x: Data :: n.topic == m.topic + COLON + x && m.payload == x + COLON + n.payload
  }

  /** Exactly which messages share a key: ids speak for themselves and may equal another message's topic,
      colon and payload; without ids, messages must agree on topic and payload or differ by which colon
      separates the two. */
  lemma SameKeyIff(m: Message, n: Message)
    ensures DedupKey(m) == DedupKey(n) <==>
            if m.id != [] && n.id != [] then m.id == n.id
            else if m.id != [] then m.id == n.topic + COLON + n.payload
            else if n.id != [] then n.id == m.topic + COLON + m.payload
            else (m.topic == n.topic && m.payload == n.payload) || ColonMoved(m, n) || ColonMoved(n, m)
  {
    if m.id == n.id == [] {
      if DedupKey(m) == DedupKey(n) {
        if |m.topic| <= |n.topic| { SplitApart(m, n); } else { SplitApart(n, m); }
      }
      if ColonMoved(m, n) { JoinUp(m, n); }
      if ColonMoved(n, m) { JoinUp(n, m); }
    }
  }

  lemma SplitApart(m: Message, n: Message)
    requires m.id == n.id == [] && DedupKey(m) == DedupKey(n) && |m.topic| <= |n.topic|
    ensures (m.topic == n.topic && m.payload == n.payload) || ColonMoved(m, n)
  {
    var k, i := DedupKey(m), |m.topic|;
    assert k[..i] == m.topic && k[i] == 58 && k[i + 1..] == m.payload;
    assert k[..|n.topic|] == n.topic && k[|n.topic| + 1..] == n.payload && k[|n.topic|] == 58;
    if i < |n.topic| {
      var x := n.topic[i + 1..];
      assert n.topic == n.topic[..i] + [n.topic[i]] + x && n.topic[..i] == m.topic;
      assert m.payload == x + COLON + n.payload;
    }
  }

  lemma JoinUp(m: Message, n: Message)
    requires m.id == n.id == [] && ColonMoved(m, n)
    ensures DedupKey(m) == DedupKey(n)
  {
    var x: Data :| n.topic == m.topic + COLON + x && m.payload == x + COLON + n.payload;
    assert m.topic + COLON + (x + COLON + n.payload) == (m.topic + COLON + x) + COLON + n.payload;
  }

  /** Hence messages without an id and with a colon-free topic share a key exactly if they agree on topic
      and payload. */
  lemma KeyTellsApart(m: Message, n: Message)
    requires m.id == n.id == [] && 58 !in m.topic && 58 !in n.topic
    ensures DedupKey(m) == DedupKey(n) <==> m.topic == n.topic && m.payload == n.payload
  {
    SameKeyIff(m, n);
    assert 58 in COLON;
  }

  /** Both kinds of clash happen: a colon moves between topic and payload, or an id has that shape. */
  lemma KeysCanClash(a: Data, b: Data, c: Data)
    ensures DedupKey(Message([], a + COLON + b, c)) == DedupKey(Message([], a, b + COLON + c))
    ensures DedupKey(Message(a + COLON + b, c, c)) == DedupKey(Message([], a, b))
  {
    assert (a + COLON + b) + COLON + c == a + COLON + (b + COLON + c);
  }

  /** done is what the filter has been given since it was last cleared. */
  datatype Core = Core(shape: Shape, done: set<Key>, inFlight: set<Key>)

  ghost predicate Claimable(c: Core, k: Key)
    requires c.shape.numBits > 0
  {
    !MayContain(c.shape, c.done, k) && k !in c.inFlight
  }

  ghost function Claimed(c: Core, k: Key): Core
    requires c.shape.numBits > 0
  {
    if Claimable(c, k) then c.(inFlight := c.inFlight + {k}) else c
  }

  ghost function Completed(c: Core, k: Key, ok: bool): Core {
    c.(inFlight := c.inFlight - {k}, done := if ok then c.done + {k} else c.done)
  }

  ghost function Cleared(c: Core): Core {
    c.(done := {}, inFlight := {})
  }

  class Consumer {
    const bloom: Filter
    var inFlight: set<Key>

    ghost predicate Valid()
      reads this, bloom, bloom.bits
    {
      bloom.Valid()
    }

    ghost function View(): Core
      reads this, bloom
    {
      Core(bloom.shape, bloom.members, inFlight)
    }

    constructor (numBits: nat, numHash: nat)
      requires 0 < numBits && numBits + 63 < Bits.WORD
      ensures Valid() && fresh(bloom) && fresh(bloom.bits)
      ensures View() == Core(Shape(numBits, numHash), {}, {})
    {
      bloom := new Filter(numBits, numHash);
      inFlight := {};
    }

    /** The critical section before the handler. */
    method Claim(k: Key) returns (admitted: bool)
      requires Valid()
      modifies this`inFlight
      ensures Valid() && View() == Claimed(old(View()), k) && admitted == Claimable(old(View()), k)
      ensures admitted <==> !MayContain(bloom.shape, bloom.members, k) && k !in old(inFlight)
      ensures inFlight == if admitted then old(inFlight) + {k} else old(inFlight)
    {
      var seen := bloom.Contains(k);
      if seen {
        return false;
      }
      if k in inFlight {
        return false;
      }
      inFlight := inFlight + {k};
      return true;
    }

    /** The critical section after the handler. */
    method Complete(k: Key, ok: bool)
      requires Valid()
      modifies this`inFlight, bloom`count, bloom`members, bloom.bits
      ensures Valid() && View() == Completed(old(View()), k, ok)
      ensures inFlight == old(inFlight) - {k}
      ensures bloom.members == if ok then old(bloom.members) + {k} else old(bloom.members)
    {
      inFlight := inFlight - {k};
      if ok {
        bloom.Add(k);
      }
    }

    method Reset()
      requires Valid()
      modifies this`inFlight, bloom`count, bloom`members, bloom.bits
      ensures Valid() && View() == Cleared(old(View()))
    {
      bloom.Clear();
      inFlight := {};
    }
  }

  // ----- Concurrent deliveries -----

  datatype Delivery = Running(key: Key) | Over(key: Key)

  datatype Event = Started(key: Key) | Succeeded(key: Key) | Failed(key: Key)

  /** deliveries whose handler was started, and the history of handler events. */
  datatype System = System(core: Core, deliveries: seq<Delivery>, log: seq<Event>)

  datatype Step = Deliver(key: Key) | Finish(id: nat, ok: bool) | Reset

  ghost predicate Enabled(s: System, step: Step) {
    s.core.shape.numBits > 0 &&
    (step.Finish? ==> step.id < |s.deliveries| && s.deliveries[step.id].Running?)
  }

  ghost function Apply(s: System, step: Step): System
    requires Enabled(s, step)
  {
    match step
    case Deliver(k) =>
      if Claimable(s.core, k)
      then System(Claimed(s.core, k), s.deliveries + [Running(k)], s.log + [Started(k)])
      else s.(core := Claimed(s.core, k))
    case Finish(id, ok) =>
      var k := s.deliveries[id].key;
      System(Completed(s.core, k, ok), s.deliveries[id := Over(k)], s.log + [if ok then Succeeded(k) else Failed(k)])
    case Reset => s.(core := Cleared(s.core))
  }

  ghost function RunFrom(s: System, steps: seq<Step>): Option<System> {
    if steps == [] then Some(s)
    else
      var before, step := RunFrom(s, steps[..|steps| - 1]), steps[|steps| - 1];
      if before.Some? && Enabled(before.value, step) then Some(Apply(before.value, step)) else None
  }

  ghost predicate WithoutReset(steps: seq<Step>) {
    forall i :: 0 <= i < |steps| ==> steps[i] != Reset
  }

  function Initial(shape: Shape): System {
    System(Core(shape, {}, {}), [], [])
  }

  // ----- One handler at a time -----

  ghost predicate Overlap(s: System) {
    exists i, j :: 0 <= i < j < |s.deliveries| && s.deliveries[i].Running? && s.deliveries[j].Running?
                   && s.deliveries[i].key == s.deliveries[j].key
  }

  /** Every running handler holds its key, and no two hold the same. */
  ghost predicate Exclusive(s: System) {
    && s.core.shape.numBits > 0
    && (forall i :: 0 <= i < |s.deliveries| && s.deliveries[i].Running? ==> s.deliveries[i].key in s.core.inFlight)
    && !Overlap(s)
  }

  lemma StepExclusive(s: System, step: Step)
    requires Exclusive(s) && Enabled(s, step) && step != Reset
    ensures Exclusive(Apply(s, step))
  {
    var r := Apply(s, step);
    if step.Finish? {
      var k := s.deliveries[step.id].key;
      forall i | 0 <= i < |r.deliveries| && r.deliveries[i].Running? ensures r.deliveries[i].key != k {
        assert s.deliveries[i] == r.deliveries[i];
        assert i < step.id ==> !Overlap(s);
      }
    }
  }

  lemma {:induction false} RunExclusive(s: System, steps: seq<Step>)
    requires Exclusive(s) && WithoutReset(steps) && RunFrom(s, steps).Some?
    ensures Exclusive(RunFrom(s, steps).value)
  {
    if steps == [] {
    } else {
      RunExclusive(s, steps[..|steps| - 1]);
      StepExclusive(RunFrom(s, steps[..|steps| - 1]).value, steps[|steps| - 1]);
    }
  }

  // ----- The life of one key -----

  datatype Life = Idle | Busy | Done | Broken

  /** What the history says about a key: its handler runs, fails and runs again, until it succeeds and
      never runs again. Anything else is Broken. */
  function LifeOf(log: seq<Event>, k: Key): Life {
    if log == [] then Idle
    else
      var before, ev := LifeOf(log[..|log| - 1], k), log[|log| - 1];
      if ev.key != k then before
      else match ev
        case Started(_) => if before == Idle then Busy else Broken
        case Failed(_) => if before == Busy then Idle else Broken
        case Succeeded(_) => if before == Busy then Done else Broken
  }

  /** The core knows each key's life: busy keys are in flight, done keys are in the filter. */
  ghost predicate Truthful(s: System) {
    forall k :: LifeOf(s.log, k) == (if k in s.core.done then Done else if k in s.core.inFlight then Busy else Idle)
                && !(k in s.core.done && k in s.core.inFlight)
  }

  lemma LifeAfter(log: seq<Event>, ev: Event, k: Key)
    ensures LifeOf(log + [ev], k) ==
            if ev.key != k then LifeOf(log, k)
            else match ev
              case Started(_) => if LifeOf(log, k) == Idle then Busy else Broken
              case Failed(_) => if LifeOf(log, k) == Busy then Idle else Broken
              case Succeeded(_) => if LifeOf(log, k) == Busy then Done else Broken
  {
    assert (log + [ev])[..|log|] == log;
  }

  /** A key in the filter is never claimable: the filter has no false negatives. */
  lemma DoneIsNotClaimable(c: Core, k: Key)
    requires c.shape.numBits > 0 && k in c.done
    ensures !Claimable(c, k)
  {
    NoFalseNegatives(c.shape, c.done, k);
  }

  lemma StepTruthful(s: System, step: Step)
    requires Exclusive(s) && Truthful(s) && Enabled(s, step) && step != Reset
    ensures Truthful(Apply(s, step))
  {
    var r := Apply(s, step);
    if |r.log| > |s.log| {
      var ev := r.log[|s.log|];
      forall k
        ensures LifeOf(r.log, k)
             == (if k in r.core.done then Done else if k in r.core.inFlight then Busy else Idle)
        ensures !(k in r.core.done && k in r.core.inFlight)
      {
        LifeAfter(s.log, ev, k);
        if step.Deliver? && k in s.core.done { DoneIsNotClaimable(s.core, k); }
      }
    }
  }

  lemma {:induction false} RunTruthful(shape: Shape, steps: seq<Step>)
    requires shape.numBits > 0 && WithoutReset(steps) && RunFrom(Initial(shape), steps).Some?
    ensures Truthful(RunFrom(Initial(shape), steps).value)
  {
    if steps == [] {
    } else {
      RunTruthful(shape, steps[..|steps| - 1]);
      RunExclusive(Initial(shape), steps[..|steps| - 1]);
      StepTruthful(RunFrom(Initial(shape), steps[..|steps| - 1]).value, steps[|steps| - 1]);
    }
  }

  /** In every run without Reset, however deliveries interleave: two handlers of one key never overlap,
      and no key's history ever breaks the rule run, fail, run again, succeed, never again. */
  lemma AtMostOnce(shape: Shape, steps: seq<Step>, k: Key)
    requires shape.numBits > 0 && WithoutReset(steps) && RunFrom(Initial(shape), steps).Some?
    ensures var s := RunFrom(Initial(shape), steps).value;
            !Overlap(s) && LifeOf(s.log, k) != Broken
  {
    RunExclusive(Initial(shape), steps);
    RunTruthful(shape, steps);
  }

  /** The keys whose handler has succeeded. */
  ghost function Successes(log: seq<Event>): set<Key> {
    set ev | ev in log && ev.Succeeded? :: ev.key
  }

  lemma SuccessesAppend(log: seq<Event>, ev: Event)
    ensures Successes(log + [ev]) == if ev.Succeeded? then Successes(log) + {ev.key} else Successes(log)
  {
    assert forall x :: x in log + [ev] <==> x in log || x == ev;
  }

  lemma {:induction false} DoneIsSuccesses(shape: Shape, steps: seq<Step>)
    requires shape.numBits > 0 && WithoutReset(steps) && RunFrom(Initial(shape), steps).Some?
    ensures var s := RunFrom(Initial(shape), steps).value;
            s.core.shape == shape && s.core.done == Successes(s.log)
  {
    if steps == [] {
    } else {
      DoneIsSuccesses(shape, steps[..|steps| - 1]);
      var s := RunFrom(Initial(shape), steps[..|steps| - 1]).value;
      var r := Apply(s, steps[|steps| - 1]);
      if |r.log| > |s.log| { SuccessesAppend(s.log, r.log[|s.log|]); }
    }
  }

  /** In every run without Reset, judging by the history alone: a delivery starts a handler if and only if
      its key is idle and the filter of the keys that succeeded does not claim to have it. Whatever other
      keys are running does not matter. A delivery that is turned away changes nothing. */
  lemma StartsIff(shape: Shape, steps: seq<Step>, k: Key)
    requires shape.numBits > 0 && WithoutReset(steps) && RunFrom(Initial(shape), steps).Some?
    ensures var s := RunFrom(Initial(shape), steps).value;
            var starts := LifeOf(s.log, k) == Idle && !MayContain(shape, Successes(s.log), k);
            && Enabled(s, Deliver(k)) && s.core.shape == shape
            && (Claimable(s.core, k) <==> starts)
            && (!starts ==> Apply(s, Deliver(k)) == s)
            && (starts ==>
                  && Apply(s, Deliver(k)).log == s.log + [Started(k)]
                  && Apply(s, Deliver(k)).deliveries == s.deliveries + [Running(k)])
  {
    var s := RunFrom(Initial(shape), steps).value;
    RunTruthful(shape, steps);
    DoneIsSuccesses(shape, steps);
    if k in s.core.done { DoneIsNotClaimable(s.core, k); }
  }

  /** In every run without Reset, when a handler ends: a success is recorded and its key is never admitted
      again; a failure is recorded and its key may be retried, unless the filter mistakes it for a success. */
  lemma RetriedIff(shape: Shape, steps: seq<Step>, id: nat, ok: bool)
    requires shape.numBits > 0 && WithoutReset(steps) && RunFrom(Initial(shape), steps).Some?
    requires Enabled(RunFrom(Initial(shape), steps).value, Finish(id, ok))
    ensures var s := RunFrom(Initial(shape), steps).value;
            var k, r := s.deliveries[id].key, Apply(s, Finish(id, ok));
            && s.core.shape == shape
            && r.log == s.log + [if ok then Succeeded(k) else Failed(k)]
            && r.deliveries == s.deliveries[id := Over(k)]
            && LifeOf(r.log, k) == (if ok then Done else Idle)
            && (Claimable(r.core, k) <==> !ok && !MayContain(shape, Successes(s.log), k))
  {
    var s := RunFrom(Initial(shape), steps).value;
    var k, r := s.deliveries[id].key, Apply(s, Finish(id, ok));
    RunTruthful(shape, steps);
    RunExclusive(Initial(shape), steps);
    DoneIsSuccesses(shape, steps);
    LifeAfter(s.log, r.log[|s.log|], k);
    if ok { DoneIsNotClaimable(r.core, k); }
  }

  lemma {:induction false} BrokenPrefix(log: seq<Event>, n: nat, k: Key)
    requires n <= |log| && LifeOf(log[..n], k) == Broken
    ensures LifeOf(log, k) == Broken
    decreases |log|
  {
    if n < |log| {
      assert log[..|log| - 1][..n] == log[..n];
      BrokenPrefix(log[..|log| - 1], n, k);
    } else {
      assert log[..n] == log;
    }
  }

  /** After a success no further event of that key appears in the history. */
  lemma {:induction false} NothingAfterSuccess(log: seq<Event>, i: nat, j: nat)
    requires i < j < |log| && log[i].Succeeded? && LifeOf(log, log[i].key) != Broken
    ensures log[j].key != log[i].key
    decreases j
  {
    var k := log[i].key;
    if LifeOf(log[..i + 1], k) == Broken { BrokenPrefix(log, i + 1, k); }
    if LifeOf(log[..j + 1], k) == Broken { BrokenPrefix(log, j + 1, k); }
    assert log[..i + 1][..i] == log[..i];
    StaysDone(log, i, j, k);
    assert log[..j + 1][..j] == log[..j];
  }

  lemma {:induction false} StaysDone(log: seq<Event>, i: nat, j: nat, k: Key)
    requires i < j <= |log| && LifeOf(log[..i + 1], k) == Done && LifeOf(log, k) != Broken
    ensures LifeOf(log[..j], k) == Done
  {
    if j == i + 1 {
    } else {
      StaysDone(log, i, j - 1, k);
      assert log[..j][..j - 1] == log[..j - 1];
      if LifeOf(log[..j], k) == Broken { BrokenPrefix(log, j, k); }
    }
  }

  // ----- Reset -----

  ghost predicate Quiet(s: System) {
    forall i :: 0 <= i < |s.deliveries| ==> !s.deliveries[i].Running?
  }

  lemma EmptyFilterSaysNo(shape: Shape, k: Key)
    requires shape.numBits > 0 && shape.numHash > 0
    ensures !MayContain(shape, {}, k)
  {
    assert Position(shape, k, 0) in Positions(shape, k);
  }

  lemma RedeliveryOverlaps(s: System, i: nat)
    requires s.core.shape.numBits > 0 && s.core.shape.numHash > 0
    requires i < |s.deliveries| && s.deliveries[i].Running?
    ensures var t := RunFrom(Apply(s, Reset), [Deliver(s.deliveries[i].key)]);
            t.Some? && Overlap(t.value)
  {
    var r, k := Apply(s, Reset), s.deliveries[i].key;
    EmptyFilterSaysNo(s.core.shape, k);
    assert [Deliver(k)][..0] == [];
    var t := Apply(r, Deliver(k));
    assert RunFrom(r, [Deliver(k)]) == Some(t);
    assert t.deliveries[i].key == t.deliveries[|s.deliveries|].key;
  }

  /** Resetting is safe exactly when no handler is running: then no continuation without a further
      Reset ever overlaps, and otherwise redelivering a running key overlaps at once. */
  lemma ResetSafeIffQuiet(s: System)
    requires Exclusive(s) && s.core.shape.numHash > 0
    ensures Quiet(s) <==>
            forall steps :: WithoutReset(steps) && RunFrom(Apply(s, Reset), steps).Some?
                            ==> !Overlap(RunFrom(Apply(s, Reset), steps).value)
  {
    var r := Apply(s, Reset);
    if Quiet(s) {
      forall steps | WithoutReset(steps) && RunFrom(r, steps).Some? ensures !Overlap(RunFrom(r, steps).value) {
        RunExclusive(r, steps);
      }
    } else {
      var i :| 0 <= i < |s.deliveries| && s.deliveries[i].Running?;
      RedeliveryOverlaps(s, i);
      assert WithoutReset([Deliver(s.deliveries[i].key)]);
    }
  }
}
