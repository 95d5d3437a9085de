/** The weighted FIFO semaphore with cancellation. Each region that holds the mutex is one step; a
    waiter is named by a number, and closing its channel puts that number into `ready`. */
module Semaphore {
  import opened Lists

  datatype Waiter = Waiter(id: nat, n: nat)

  datatype Core = Core(size: int, cur: int, waiters: seq<Waiter>, ready: set<nat>) {
    predicate Fits(n: nat) {
      size - cur >= n
    }
  }

  // ----- The mutex-held regions as functions -----

  function GrantHead(c: Core): Core
    requires c.waiters != []
  {
    var w := c.waiters[0];
    c.(cur := c.cur + w.n, waiters := c.waiters[1..], ready := c.ready + {w.id})
  }

  /** Grants from the front of the queue for as long as the head fits. */
  function Notify(c: Core): (r: Core)
    ensures r.waiters == [] || !r.Fits(r.waiters[0].n)
    decreases |c.waiters|
  {
    if c.waiters == [] || !c.Fits(c.waiters[0].n) then c else Notify(GrantHead(c))
  }

  predicate Admits(c: Core, n: nat) {
    c.Fits(n) && c.waiters == []
  }

  function Enter(c: Core, id: nat, n: nat): Core {
    if Admits(c, n) then c.(cur := c.cur + n) else c.(waiters := c.waiters + [Waiter(id, n)])
  }

  function TryEnter(c: Core, n: nat): Core {
    if Admits(c, n) then c.(cur := c.cur + n) else c
  }

  function Leave(c: Core, n: nat): Core {
    Notify(c.(cur := c.cur - n))
  }

  /** The cleanup after ctx.Done: leave the queue, and give back a grant that raced the cancellation. */
  function Withdraw(c: Core, id: nat, n: nat): Core {
    var d := c.(waiters := Without(c.waiters, Waiter(id, n)));
    if id in c.ready then Leave(d, n) else d
  }

  function Weights(ws: seq<Waiter>): nat {
    if ws == [] then 0 else ws[0].n + Weights(ws[1..])
  }

  /** From c to r exactly the first m waiters were granted, each because it fitted when its turn came, and
      the next one, if any, does not fit. */
  ghost predicate GrantsFirst(c: Core, m: nat, r: Core)
    requires m <= |c.waiters|
  {
    && r.size == c.size && r.cur == c.cur + Weights(c.waiters[..m]) && r.waiters == c.waiters[m..]
    && r.ready == c.ready + (set i | 0 <= i < m :: c.waiters[i].id)
    && (forall i :: 0 <= i < m ==> c.size - c.cur - Weights(c.waiters[..i]) >= c.waiters[i].n)
    && (m < |c.waiters| ==> c.size - r.cur < c.waiters[m].n)
  }

  ghost predicate WokenFrom(c: Core, r: Core) {
    exists m :: 0 <= m <= |c.waiters| && GrantsFirst(c, m, r)
  }

  lemma GrantOneMore(c: Core, m: nat, r: Core)
    requires c.waiters != [] && c.Fits(c.waiters[0].n) && m < |c.waiters|
    requires GrantsFirst(GrantHead(c), m, r)
    ensures GrantsFirst(c, m + 1, r)
  {
    var ws, d := c.waiters, GrantHead(c);
    assert ws[..m + 1][1..] == ws[1..][..m] && ws[1..][m..] == ws[m + 1..];
    forall i | 0 <= i <= m ensures c.size - c.cur - Weights(ws[..i]) >= ws[i].n {
      if i > 0 {
        assert ws[..i][1..] == ws[1..][..i - 1];
        assert d.waiters[i - 1] == ws[i];
      }
    }
    assert (set i | 0 <= i < m + 1 :: ws[i].id) == {ws[0].id} + set i | 0 <= i < m :: ws[1..][i].id by {
      forall i | 0 < i < m + 1 ensures ws[i].id == ws[1..][i - 1].id {}
    }
  }

  /** What waking does, told without its loop; Release and a withdrawn grant end in it. */
  lemma {:induction false} NotifyGrantsFirst(c: Core)
    ensures WokenFrom(c, Notify(c))
    decreases |c.waiters|
  {
    if c.waiters == [] || !c.Fits(c.waiters[0].n) {
      assert c.waiters[0..] == c.waiters && c.waiters[..0] == [];
      assert GrantsFirst(c, 0, Notify(c));
    } else {
      NotifyGrantsFirst(GrantHead(c));
      var m :| 0 <= m <= |GrantHead(c).waiters| && GrantsFirst(GrantHead(c), m, Notify(GrantHead(c)));
      GrantOneMore(c, m, Notify(c));
    }
  }

  class Sem {
    var size: int
    var cur: int
    var waiters: seq<Waiter>
    var ready: set<nat>

    ghost function View(): Core
      reads this
    {
      Core(size, cur, waiters, ready)
    }

    constructor (limit: int)
      ensures View() == Core(limit, 0, [], {})
    {
      size, cur, waiters, ready := limit, 0, [], {};
    }

    /** Acquire up to the select: either the units are taken, or a waiter is queued. */
    method Acquire(id: nat, n: nat) returns (taken: bool)
      modifies this`cur, this`waiters
      ensures View() == Enter(old(View()), id, n) && taken == Admits(old(View()), n)
      ensures taken <==> old(size - cur >= n && waiters == [])
      ensures taken ==> cur == old(cur) + n && waiters == old(waiters)
      ensures !taken ==> cur == old(cur) && waiters == old(waiters) + [Waiter(id, n)]
    {
      if size - cur >= n && |waiters| == 0 {
        cur := cur + n;
        return true;
      }
      waiters := waiters + [Waiter(id, n)];
      return false;
    }

    /** The ctx.Done branch of Acquire. */
    method Cancel(id: nat, n: nat)
      modifies this`cur, this`waiters, this`ready
      ensures View() == Withdraw(old(View()), id, n)
      ensures old(id !in ready) ==>
                cur == old(cur) && waiters == Without(old(waiters), Waiter(id, n)) && ready == old(ready)
    {
      RemoveWaiter(id, n);
      if id in ready {
        cur := cur - n;
        NotifyWaiters();
      }
    }

    method RemoveWaiter(id: nat, n: nat)
      modifies this`waiters
      ensures waiters == Without(old(waiters), Waiter(id, n))
    {
      var w := Waiter(id, n);
      for i := 0 to |waiters|
        invariant waiters == old(waiters) && w !in waiters[..i]
      {
        if waiters[i] == w {
          WithoutConcat(waiters[..i], waiters[i..], w);
          assert waiters == waiters[..i] + waiters[i..];
          waiters := waiters[..i] + waiters[i + 1..];
          return;
        }
      }
      WithoutAbsent(waiters, w);
    }

    method TryAcquire(n: nat) returns (ok: bool)
      modifies this`cur
      ensures View() == TryEnter(old(View()), n) && ok == Admits(old(View()), n)
      ensures ok <==> old(size - cur >= n && waiters == [])
      ensures cur == if ok then old(cur) + n else old(cur)
    {
      if size - cur >= n && |waiters| == 0 {
        cur := cur + n;
        return true;
      }
      return false;
    }

    /** Releasing more than is held is a programming error on which the original panics. */
    method Release(n: nat)
      requires n <= cur
      modifies this`cur, this`waiters, this`ready
      ensures View() == Leave(old(View()), n)
    {
      cur := cur - n;
      NotifyWaiters();
    }

    method NotifyWaiters()
      modifies this`cur, this`waiters, this`ready
      ensures View() == Notify(old(View()))
    {
      while |waiters| > 0 && size - cur >= waiters[0].n
        invariant Notify(View()) == Notify(old(View()))
        decreases |waiters|
      {
        var w := waiters[0];
        cur := cur + w.n;
        waiters := waiters[1..];
        ready := ready + {w.id};
      }
    }
  }

  // ----- Many callers -----

  /** Queued: waiting in the select. Ready: granted, the select not yet taken. Held: Acquire returned.
      Withdrawn: Acquire returned ctx.Err(). Refused: TryAcquire returned false. */
  datatype Phase = Queued | Ready | Held | Withdrawn | Released | Refused

  datatype Call = Call(n: nat, phase: Phase) {
    function Weight(): nat {
      if phase.Ready? || phase.Held? then n else 0
    }

    predicate Granted() {
      phase.Ready? || phase.Held? || phase.Released?
    }
  }

  /** Calls are numbered in order of arrival; grants lists the calls in the order they were granted. */
  datatype System = System(core: Core, calls: seq<Call>, grants: seq<nat>)

  datatype Step = Acquire(n: nat) | Try(n: nat) | Return(id: nat) | Cancel(id: nat) | Release(id: nat)

  /** Return is the select taking the ready channel, Cancel the select taking ctx.Done; when both are
      possible either may happen. A caller releases what it holds, once. */
  predicate Enabled(s: System, step: Step) {
    match step
    case Acquire(_) => true
    case Try(_) => true
    case Return(id) => id < |s.calls| && s.calls[id].phase == Ready
    case Cancel(id) => id < |s.calls| && (s.calls[id].phase == Queued || s.calls[id].phase == Ready)
    case Release(id) => id < |s.calls| && s.calls[id].phase == Held
  }

  function SetPhase(s: System, id: nat, phase: Phase): System
    requires id < |s.calls|
  {
    s.(calls := s.calls[id := s.calls[id].(phase := phase)])
  }

  /** Notify, carried out on the whole system one grant at a time. */
  function Wake(s: System): System
    requires forall w :: w in s.core.waiters ==> w.id < |s.calls|
    decreases |s.core.waiters|
  {
    if s.core.waiters == [] || !s.core.Fits(s.core.waiters[0].n) then s
    else
      assert s.core.waiters[0] in s.core.waiters;
      Wake(Granted(s))
  }

  /** A new call that takes its units at once. */
  function Admitted(s: System, n: nat): System {
    System(s.core.(cur := s.core.cur + n), s.calls + [Call(n, Held)], s.grants + [|s.calls|])
  }

  /** A new call that is refused. */
  function Rejected(s: System, n: nat): System {
    s.(calls := s.calls + [Call(n, Refused)])
  }

  /** A new call that is queued. */
  function Enqueued(s: System, n: nat): System {
    s.(core := s.core.(waiters := s.core.waiters + [Waiter(|s.calls|, n)]), calls := s.calls + [Call(n, Queued)])
  }

  /** A queued call leaves the queue. */
  function Unqueued(s: System, id: nat): System
    requires id < |s.calls|
  {
    SetPhase(s, id, Withdrawn).(core := s.core.(waiters := Without(s.core.waiters, Waiter(id, s.calls[id].n))))
  }

  /** A granted call gives its units back. */
  function Refunded(s: System, id: nat, phase: Phase): System
    requires id < |s.calls|
  {
    SetPhase(s, id, phase).(core := s.core.(cur := s.core.cur - s.calls[id].n))
  }

  function Apply(s: System, step: Step): System
    requires QueueInv(s) && Enabled(s, step)
  {
    match step
    case Acquire(n) =>
      if Admits(s.core, n) then Admitted(s, n) else Enqueued(s, n)
    case Try(n) =>
      if Admits(s.core, n) then Admitted(s, n) else Rejected(s, n)
    case Return(id) => SetPhase(s, id, Held)
    case Cancel(id) =>
      if s.calls[id].phase == Queued then Unqueued(s, id) else Wake(Refunded(s, id, Withdrawn))
    case Release(id) => Wake(Refunded(s, id, Released))
  }

  function Total(calls: seq<Call>): nat {
    if calls == [] then 0 else Total(calls[..|calls| - 1]) + calls[|calls| - 1].Weight()
  }

  ghost predicate Increasing(s: seq<nat>) {
    forall i, j :: 0 <= i < j < |s| ==> s[i] < s[j]
  }

  ghost predicate InOrder(ws: seq<Waiter>) {
    forall i, j :: 0 <= i < j < |ws| ==> ws[i].id < ws[j].id
  }

  /** The queue is exactly the queued calls in arrival order. */
  ghost predicate QueueInv(s: System) {
    && InOrder(s.core.waiters)
    && (forall w :: w in s.core.waiters ==> w.id < |s.calls| && s.calls[w.id] == Call(w.n, Queued))
    && (forall id :: 0 <= id < |s.calls| && s.calls[id].phase == Queued ==> Waiter(id, s.calls[id].n) in s.core.waiters)
  }

  /** Grants are in arrival order, all before anything still queued, and a call that holds or held
      units is among them. */
  ghost predicate GrantInv(s: System) {
    && Increasing(s.grants)
    && (forall g :: g in s.grants ==> g < |s.calls|)
    && (forall g, w :: g in s.grants && w in s.core.waiters ==> g < w.id)
    && (forall id :: 0 <= id < |s.calls| && s.calls[id].Granted() ==> id in s.grants)
    && (forall id :: 0 <= id < |s.calls| && s.calls[id].phase == Ready ==> id in s.core.ready)
    && (forall id :: id in s.core.ready ==> id in s.grants)
  }

  /** The units in use are exactly those of granted calls that have neither released nor withdrawn. */
  ghost predicate Inv(s: System) {
    && s.core.cur == Total(s.calls)
    && 0 <= s.core.cur <= s.core.size
    && QueueInv(s)
    && GrantInv(s)
  }

  lemma {:induction false} TotalUpdate(calls: seq<Call>, id: nat, c: Call)
    requires id < |calls|
    ensures Total(calls[id := c]) == Total(calls) - calls[id].Weight() + c.Weight()
  {
    var l := |calls| - 1;
    if id == l {
      assert calls[id := c][..l] == calls[..l];
    } else {
      assert calls[id := c][..l] == calls[..l][id := c];
      TotalUpdate(calls[..l], id, c);
    }
  }

  lemma TotalAppend(calls: seq<Call>, c: Call)
    ensures Total(calls + [c]) == Total(calls) + c.Weight()
  {
    assert (calls + [c])[..|calls|] == calls;
  }

  /** The system after its head waiter is granted. */
  function Granted(s: System): System
    requires s.core.waiters != [] && s.core.waiters[0].id < |s.calls|
  {
    var id := s.core.waiters[0].id;
    SetPhase(s, id, Ready).(core := GrantHead(s.core), grants := s.grants + [id])
  }

  lemma HeadAndRest(ws: seq<Waiter>)
    requires ws != [] && InOrder(ws)
    ensures InOrder(ws[1..])
    ensures forall v :: v in ws <==> v == ws[0] || v in ws[1..]
    ensures forall v :: v in ws[1..] ==> ws[0].id < v.id
  {
    assert ws == [ws[0]] + ws[1..];
  }

  lemma GrantKeepsQueue(s: System)
    requires QueueInv(s) && s.core.waiters != []
    ensures s.core.waiters[0].id < |s.calls| && QueueInv(Granted(s))
  {
    HeadAndRest(s.core.waiters);
  }

  lemma GrantKeepsOrder(s: System)
    requires QueueInv(s) && GrantInv(s) && s.core.waiters != [] && s.core.waiters[0].id < |s.calls|
    ensures GrantInv(Granted(s))
  {
    var w, g := s.core.waiters[0], s.grants;
    assert w in s.core.waiters;
    assert forall i :: 0 <= i < |g| ==> g[i] in g;
    assert forall i :: 0 <= i < |g| ==> (g + [w.id])[i] < w.id;
    assert forall v :: v in s.core.waiters[1..] ==> v in s.core.waiters && w.id < v.id;
    assert forall x :: x in g + [w.id] <==> x in g || x == w.id;
  }

  lemma GrantKeeps(s: System)
    requires Inv(s) && s.core.waiters != [] && s.core.Fits(s.core.waiters[0].n)
    ensures s.core.waiters[0].id < |s.calls| && Inv(Granted(s))
  {
    GrantKeepsQueue(s);
    GrantKeepsOrder(s);
    var w := s.core.waiters[0];
    assert w in s.core.waiters;
    TotalUpdate(s.calls, w.id, Call(w.n, Ready));
  }

  lemma {:induction false} WakeKeeps(s: System)
    requires Inv(s)
    ensures Inv(Wake(s)) && Wake(s).core == Notify(s.core)
    ensures |Wake(s).calls| == |s.calls|
    decreases |s.core.waiters|
  {
    if s.core.waiters == [] || !s.core.Fits(s.core.waiters[0].n) {
    } else {
      GrantKeeps(s);
      WakeKeeps(Granted(s));
    }
  }

  lemma CutOrder(ws: seq<Waiter>, i: nat)
    requires InOrder(ws) && i < |ws|
    ensures InOrder(ws[..i] + ws[i + 1..])
  {}

  lemma WaiterLeaves(ws: seq<Waiter>, w: Waiter)
    requires InOrder(ws)
    ensures InOrder(Without(ws, w))
    ensures forall v :: v in Without(ws, w) <==> v in ws && v != w
  {
    WithoutIs(ws, w);
    var i := WithoutCuts(ws, w);
    if i < |ws| { CutOrder(ws, i); }
  }

  /** Nothing that is still queued was ever granted. */
  lemma QueuedIsUngranted(s: System, id: nat)
    requires QueueInv(s) && GrantInv(s) && id < |s.calls| && s.calls[id].phase == Queued
    ensures id !in s.grants && id !in s.core.ready
  {
    assert Waiter(id, s.calls[id].n) in s.core.waiters;
  }

  lemma UnqueuedKeeps(s: System, id: nat)
    requires Inv(s) && id < |s.calls| && s.calls[id].phase == Queued
    ensures Inv(Unqueued(s, id))
  {
    WaiterLeaves(s.core.waiters, Waiter(id, s.calls[id].n));
    TotalUpdate(s.calls, id, s.calls[id].(phase := Withdrawn));
  }

  lemma RefundedKeeps(s: System, id: nat, phase: Phase)
    requires Inv(s) && id < |s.calls| && s.calls[id].phase in {Ready, Held} && phase in {Withdrawn, Released}
    ensures Inv(Refunded(s, id, phase))
  {
    TotalUpdate(s.calls, id, s.calls[id].(phase := phase));
  }

  lemma AdmittedOrder(s: System, n: nat)
    requires GrantInv(s) && s.core.waiters == []
    ensures GrantInv(Admitted(s, n))
  {
    var g, r := s.grants, Admitted(s, n);
    assert forall i :: 0 <= i < |g| ==> g[i] in g;
    assert forall x :: x in r.grants <==> x in g || x == |s.calls|;
    assert forall i :: 0 <= i < |s.calls| ==> r.calls[i] == s.calls[i];
  }

  lemma AdmittedKeeps(s: System, n: nat)
    requires Inv(s) && Admits(s.core, n)
    ensures Inv(Admitted(s, n))
  {
    TotalAppend(s.calls, Call(n, Held));
    AdmittedOrder(s, n);
    var r := Admitted(s, n);
    assert forall i :: 0 <= i < |s.calls| ==> r.calls[i] == s.calls[i];
  }

  lemma RejectedKeeps(s: System, n: nat)
    requires Inv(s)
    ensures Inv(Rejected(s, n))
  {
    TotalAppend(s.calls, Call(n, Refused));
    assert forall i :: 0 <= i < |s.calls| ==> Rejected(s, n).calls[i] == s.calls[i];
  }

  lemma EnqueuedQueue(s: System, n: nat)
    requires QueueInv(s)
    ensures QueueInv(Enqueued(s, n))
  {
    var r, ws := Enqueued(s, n), s.core.waiters;
    assert forall i :: 0 <= i < |ws| ==> ws[i] in ws;
    assert forall w :: w in r.core.waiters <==> w in ws || w == Waiter(|s.calls|, n);
    assert forall i :: 0 <= i < |s.calls| ==> r.calls[i] == s.calls[i];
  }

  lemma EnqueuedGrants(s: System, n: nat)
    requires GrantInv(s)
    ensures GrantInv(Enqueued(s, n))
  {
    var r := Enqueued(s, n);
    assert forall i :: 0 <= i < |s.calls| ==> r.calls[i] == s.calls[i];
    assert forall w :: w in r.core.waiters ==> w in s.core.waiters || w == Waiter(|s.calls|, n);
  }

  lemma EnqueuedKeeps(s: System, n: nat)
    requires Inv(s)
    ensures Inv(Enqueued(s, n))
  {
    TotalAppend(s.calls, Call(n, Queued));
    EnqueuedQueue(s, n);
    EnqueuedGrants(s, n);
  }

  /** Every step of every caller keeps the invariant. */
  lemma StepKeeps(s: System, step: Step)
    requires Inv(s) && Enabled(s, step)
    ensures Inv(Apply(s, step))
  {
    match step
    case Acquire(n) => if Admits(s.core, n) { AdmittedKeeps(s, n); } else { EnqueuedKeeps(s, n); }
    case Try(n) => if Admits(s.core, n) { AdmittedKeeps(s, n); } else { RejectedKeeps(s, n); }
    case Return(id) => TotalUpdate(s.calls, id, s.calls[id].(phase := Held));
    case Cancel(id) =>
      if s.calls[id].phase == Queued {
        UnqueuedKeeps(s, id);
      } else {
        RefundedKeeps(s, id, Withdrawn);
        WakeKeeps(Refunded(s, id, Withdrawn));
      }
    case Release(id) =>
      RefundedKeeps(s, id, Released);
      WakeKeeps(Refunded(s, id, Released));
  }

  /** The semaphore part of every step is the corresponding region of the code, even when a
      cancellation races a grant. */
  lemma StepIsRegion(s: System, step: Step)
    requires Inv(s) && Enabled(s, step)
    ensures Apply(s, step).core == match step
              case Acquire(n) => Enter(s.core, |s.calls|, n)
              case Try(n) => TryEnter(s.core, n)
              case Return(_) => s.core
              case Cancel(id) => Withdraw(s.core, id, s.calls[id].n)
              case Release(id) => Leave(s.core, s.calls[id].n)
  {
    match step
    case Acquire(_) =>
    case Try(_) =>
    case Return(_) =>
    case Cancel(id) => CancelIsRegion(s, id);
    case Release(id) => ReleaseIsRegion(s, id);
  }

  lemma RefundIsLeave(s: System, id: nat, phase: Phase)
    requires Inv(s) && id < |s.calls| && s.calls[id].phase in {Ready, Held} && phase in {Withdrawn, Released}
    ensures QueueInv(Refunded(s, id, phase))
    ensures Wake(Refunded(s, id, phase)).core == Leave(s.core, s.calls[id].n)
  {
    var r := Refunded(s, id, phase);
    assert Inv(r) by { RefundedKeeps(s, id, phase); }
    assert Wake(r).core == Notify(r.core) by { WakeKeeps(r); }
  }

  lemma ReleaseIsRegion(s: System, id: nat)
    requires Inv(s) && Enabled(s, Release(id))
    ensures Apply(s, Release(id)).core == Leave(s.core, s.calls[id].n)
  {
    RefundIsLeave(s, id, Released);
  }

  lemma CancelIsRegion(s: System, id: nat)
    requires Inv(s) && Enabled(s, Cancel(id))
    ensures Apply(s, Cancel(id)).core == Withdraw(s.core, id, s.calls[id].n)
  {
    if s.calls[id].phase == Queued {
      QueuedIsUngranted(s, id);
    } else {
      GrantedIsUnqueued(s, id);
      RefundIsLeave(s, id, Withdrawn);
    }
  }

  lemma GrantedIsUnqueued(s: System, id: nat)
    requires QueueInv(s) && GrantInv(s) && id < |s.calls| && s.calls[id].phase == Ready
    ensures Without(s.core.waiters, Waiter(id, s.calls[id].n)) == s.core.waiters && id in s.core.ready
  {
    WithoutAbsent(s.core.waiters, Waiter(id, s.calls[id].n));
  }

  // ----- Runs -----

  ghost function Initial(size: nat): System {
    System(Core(size, 0, [], {}), [], [])
  }

  /** The state after a run, or None if some step was not possible when it was taken. (That the queue
      is well formed is no restriction: RunMore shows that every enabled step can be taken.) */
  ghost function Run(size: nat, steps: seq<Step>): Option<System> {
    if steps == [] then Some(Initial(size))
    else
      var before, step := Run(size, steps[..|steps| - 1]), steps[|steps| - 1];
      if before.Some? && QueueInv(before.value) && Enabled(before.value, step)
      then Some(Apply(before.value, step)) else None
  }

  lemma {:induction false} RunInv(size: nat, steps: seq<Step>)
    requires Run(size, steps).Some?
    ensures Inv(Run(size, steps).value) && Run(size, steps).value.core.size == size
  {
    if steps == [] {
    } else {
      RunInv(size, steps[..|steps| - 1]);
      var s, step := Run(size, steps[..|steps| - 1]).value, steps[|steps| - 1];
      StepKeeps(s, step);
      SizeFixed(s, step);
    }
  }

  lemma RunMore(size: nat, steps: seq<Step>, step: Step)
    requires Run(size, steps).Some? && Enabled(Run(size, steps).value, step)
    ensures QueueInv(Run(size, steps).value)
    ensures Run(size, steps + [step]) == Some(Apply(Run(size, steps).value, step))
  {
    RunInv(size, steps);
    assert (steps + [step])[..|steps|] == steps;
  }

  lemma SizeFixed(s: System, step: Step)
    requires Inv(s) && Enabled(s, step)
    ensures Apply(s, step).core.size == s.core.size
  {
    StepIsRegion(s, step);
    match step
    case Acquire(_) =>
    case Try(_) =>
    case Return(_) =>
    case Cancel(id) =>
      var n := s.calls[id].n;
      NotifySize(s.core.(waiters := Without(s.core.waiters, Waiter(id, n)), cur := s.core.cur - n));
    case Release(id) => NotifySize(s.core.(cur := s.core.cur - s.calls[id].n));
  }

  lemma {:induction false} NotifySize(c: Core)
    ensures Notify(c).size == c.size
    decreases |c.waiters|
  {
    if c.waiters == [] || !c.Fits(c.waiters[0].n) {
    } else {
      NotifySize(GrantHead(c));
    }
  }

  /** Safety over every run, whatever the interleaving of cancellations with grants: the units in use
      are those of the granted and unreleased calls and never exceed the limit, the queue is exactly
      the calls still waiting in arrival order, and grants happen in arrival order. */
  lemma RunIsSafe(size: nat, steps: seq<Step>)
    requires Run(size, steps).Some?
    ensures var s := Run(size, steps).value;
            && s.core.cur == Total(s.calls) <= size
            && Increasing(s.grants)
            && InOrder(s.core.waiters)
            && (forall id :: 0 <= id < |s.calls| ==>
                  (s.calls[id].phase == Queued <==> Waiter(id, s.calls[id].n) in s.core.waiters))
            && (forall id :: 0 <= id < |s.calls| && s.calls[id].phase == Queued ==> id !in s.grants)
            && (forall id :: 0 <= id < |s.calls| && s.calls[id].Granted() ==> id in s.grants)
  {
    var s := Run(size, steps).value;
    RunInv(size, steps);
    forall id | 0 <= id < |s.calls| && s.calls[id].phase == Queued
      ensures id !in s.grants
    {
      QueuedIsUngranted(s, id);
    }
  }

  /** Room for n, judging by the calls alone: nobody is queued, and what is granted leaves n. */
  ghost predicate HasRoom(size: nat, calls: seq<Call>, n: nat) {
    size - Total(calls) >= n && forall c :: c in calls ==> c.phase != Queued
  }

  lemma QueueEmptyIff(s: System)
    requires QueueInv(s)
    ensures s.core.waiters == [] <==> forall c :: c in s.calls ==> c.phase != Queued
  {
    if s.core.waiters != [] {
      assert s.core.waiters[0] in s.core.waiters;
      assert s.calls[s.core.waiters[0].id] in s.calls;
    }
  }

  /** In every run a TryAcquire holds its units if there is room and is refused if not, an Acquire holds or
      queues, nothing else changes, and Admits, the reply of both methods, tells which. */
  lemma NewCallIff(size: nat, steps: seq<Step>, n: nat)
    requires Run(size, steps).Some?
    ensures QueueInv(Run(size, steps).value)
    ensures var s := Run(size, steps).value;
            var room := HasRoom(size, s.calls, n);
            && Apply(s, Try(n)).calls == s.calls + [Call(n, if room then Held else Refused)]
            && Apply(s, Acquire(n)).calls == s.calls + [Call(n, if room then Held else Queued)]
            && Apply(s, Try(n)).grants == (if room then s.grants + [|s.calls|] else s.grants)
            && Apply(s, Acquire(n)).grants == Apply(s, Try(n)).grants
            && (Admits(s.core, n) <==> room)
  {
    RunInv(size, steps);
    QueueEmptyIff(Run(size, steps).value);
  }

  /** A call that is done with its units, and beyond it nothing but grants to queued calls. */
  ghost predicate OnlyGrants(s: System, id: nat, phase: Phase, r: System) {
    && id < |s.calls| == |r.calls| && r.calls[id] == s.calls[id].(phase := phase)
    && forall j :: 0 <= j < |s.calls| && j != id ==>
         r.calls[j] == s.calls[j]
         || (s.calls[j].phase == Queued && r.calls[j] == s.calls[j].(phase := Ready))
  }

  lemma {:induction false} WakeOnlyGrants(s: System)
    requires Inv(s)
    ensures |Wake(s).calls| == |s.calls|
    ensures forall j :: 0 <= j < |s.calls| ==>
              Wake(s).calls[j] == s.calls[j]
              || (s.calls[j].phase == Queued && Wake(s).calls[j] == s.calls[j].(phase := Ready))
    decreases |s.core.waiters|
  {
    if s.core.waiters == [] || !s.core.Fits(s.core.waiters[0].n) {
    } else {
      GrantKeeps(s);
      assert s.core.waiters[0] in s.core.waiters;
      WakeOnlyGrants(Granted(s));
    }
  }

  /** In every run the other steps end or confirm exactly the call they name. */
  lemma StepEffects(size: nat, steps: seq<Step>, step: Step)
    requires Run(size, steps).Some? && Enabled(Run(size, steps).value, step)
    ensures QueueInv(Run(size, steps).value)
    ensures var s := Run(size, steps).value;
            var r := Apply(s, step);
            match step
            case Return(id) => r.calls == s.calls[id := s.calls[id].(phase := Held)] && r.core == s.core
            case Cancel(id) => OnlyGrants(s, id, Withdrawn, r)
            case Release(id) => OnlyGrants(s, id, Released, r)
            case _ => true
  {
    RunInv(size, steps);
    var s := Run(size, steps).value;
    match step
    case Cancel(id) =>
      if s.calls[id].phase == Ready {
        RefundedKeeps(s, id, Withdrawn);
        WakeOnlyGrants(Refunded(s, id, Withdrawn));
      }
    case Release(id) =>
      RefundedKeeps(s, id, Released);
      WakeOnlyGrants(Refunded(s, id, Released));
    case _ =>
  }

  lemma {:induction false} NobodyHolds(calls: seq<Call>)
    requires forall c :: c in calls ==> !c.phase.Ready? && !c.phase.Held?
    ensures Total(calls) == 0
  {
    if calls == [] {
    } else {
      NobodyHolds(calls[..|calls| - 1]);
      assert calls[|calls| - 1] in calls;
    }
  }

  /** Once every call of a run has released, withdrawn or been refused, no unit is in use. */
  lemma NothingLeaks(size: nat, steps: seq<Step>)
    requires Run(size, steps).Some?
    requires forall c :: c in Run(size, steps).value.calls ==> !c.phase.Ready? && !c.phase.Held?
    ensures Run(size, steps).value.core.cur == 0
  {
    RunIsSafe(size, steps);
    NobodyHolds(Run(size, steps).value.calls);
  }

  // ----- Wake-ups -----

  /** No waiter at the head of the queue could be served right now. */
  ghost predicate NoIdleUnits(c: Core) {
    c.waiters == [] || !c.Fits(c.waiters[0].n)
  }

  /** The one way to miss a wake-up: the cancelled call heads the queue ungranted, and the waiter
      behind it would fit. */
  predicate UnblocksNext(s: System, step: Step) {
    && step.Cancel?
    && |s.core.waiters| >= 2
    && s.core.waiters[0].id == step.id
    && s.core.Fits(s.core.waiters[1].n)
  }

  /** From a state without idle units, every step leads to one without idle units except exactly the
      cancellation of a queued head whose successor fits. */
  lemma IdleUnitsExactly(s: System, step: Step)
    requires Inv(s) && Enabled(s, step) && NoIdleUnits(s.core)
    ensures NoIdleUnits(Apply(s, step).core) <==> !UnblocksNext(s, step)
  {
    match step
    case Acquire(_) =>
    case Try(_) =>
    case Return(_) =>
    case Release(id) => StepIsRegion(s, step);
    case Cancel(id) =>
      if s.calls[id].phase == Queued {
        var ws := s.core.waiters;
        assert Waiter(id, s.calls[id].n) in ws;
        if ws[0].id != id {
          assert Without(ws, Waiter(id, s.calls[id].n))[0] == ws[0];
        }
      } else {
        StepIsRegion(s, step);
        assert forall j :: 0 <= j < |s.core.waiters| ==> s.core.waiters[j] in s.core.waiters;
      }
  }

  ghost predicate NotIdleAfter(size: nat, steps: seq<Step>) {
    Run(size, steps).Some? && NoIdleUnits(Run(size, steps).value.core)
  }

  /** No state along the run has a waiter at the head of the queue that could be served. */
  ghost predicate NeverIdle(size: nat, steps: seq<Step>) {
    forall k :: 0 <= k <= |steps| ==> NotIdleAfter(size, steps[..k])
  }

  ghost predicate HarmlessAfter(size: nat, steps: seq<Step>, step: Step) {
    Run(size, steps).Some? && !UnblocksNext(Run(size, steps).value, step)
  }

  ghost predicate NeverUnblocks(size: nat, steps: seq<Step>) {
    forall k :: 0 <= k < |steps| ==> HarmlessAfter(size, steps[..k], steps[k])
  }

  lemma NeverIdleSnoc(size: nat, steps: seq<Step>, step: Step)
    ensures NeverIdle(size, steps + [step]) <==> NeverIdle(size, steps) && NotIdleAfter(size, steps + [step])
  {
    var all := steps + [step];
    assert all[..|all|] == all;
    assert forall k :: 0 <= k <= |steps| ==> all[..k] == steps[..k];
  }

  lemma NeverUnblocksSnoc(size: nat, steps: seq<Step>, step: Step)
    ensures NeverUnblocks(size, steps + [step]) <==> NeverUnblocks(size, steps) && HarmlessAfter(size, steps, step)
  {
    var all := steps + [step];
    assert all[..|steps|] == steps;
    assert forall k :: 0 <= k < |steps| ==> all[..k] == steps[..k] && all[k] == steps[k];
  }

  /** Over whole runs: units never lie idle before a servable head if and only if the run never cancels
      an ungranted head whose successor fits. */
  lemma {:induction false} NeverIdleIff(size: nat, steps: seq<Step>)
    requires Run(size, steps).Some?
    ensures NeverIdle(size, steps) <==> NeverUnblocks(size, steps)
  {
    if steps == [] {
      assert steps[..0] == [];
    } else {
      var init, step := steps[..|steps| - 1], steps[|steps| - 1];
      assert steps == init + [step];
      NeverIdleIff(size, init);
      NeverIdleSnoc(size, init, step);
      NeverUnblocksSnoc(size, init, step);
      if NeverIdle(size, init) {
        assert init[..|init|] == init && NotIdleAfter(size, init);
        RunInv(size, init);
        IdleUnitsExactly(Run(size, init).value, step);
      }
    }
  }

  // ----- Getting stuck for good -----

  /** Somebody waits, and nobody is left who could release anything. */
  ghost predicate Stuck(s: System) {
    s.core.waiters != [] && forall c :: c in s.calls ==> !c.phase.Ready? && !c.phase.Held?
  }

  ghost predicate AtMost(s: System, n: nat) {
    forall c :: c in s.calls ==> c.n <= n
  }

  lemma BusyStays(s: System, step: Step)
    requires Inv(s) && Enabled(s, step) && AtMost(Apply(s, step), s.core.size)
    requires s.core.waiters != [] ==> s.core.cur > 0
    ensures Apply(s, step).core.waiters != [] ==> Apply(s, step).core.cur > 0
  {
    var r := Apply(s, step);
    StepIsRegion(s, step);
    StepKeeps(s, step);
    SizeFixed(s, step);
    if r.core.waiters != [] {
      assert r.core.waiters[0] in r.core.waiters;
      assert r.calls[r.core.waiters[0].id] in r.calls;
      match step
      case Acquire(n) => assert r.calls[|s.calls|] in r.calls;
      case _ =>
    }
  }

  lemma AtMostBefore(s: System, step: Step, n: nat)
    requires Inv(s) && Enabled(s, step) && AtMost(Apply(s, step), n)
    ensures AtMost(s, n)
  {
    var r := Apply(s, step);
    WeightsKept(s, step);
    forall c | c in s.calls ensures c.n <= n {
      var i :| 0 <= i < |s.calls| && s.calls[i] == c;
      assert r.calls[i] in r.calls;
    }
  }

  lemma {:induction false} WaitersMeanBusy(size: nat, steps: seq<Step>)
    requires Run(size, steps).Some? && AtMost(Run(size, steps).value, size)
    ensures var c := Run(size, steps).value.core; c.waiters != [] ==> c.cur > 0
  {
    if steps == [] {
    } else {
      var init := steps[..|steps| - 1];
      var s, step := Run(size, init).value, steps[|steps| - 1];
      RunInv(size, init);
      AtMostBefore(s, step, size);
      WaitersMeanBusy(size, init);
      BusyStays(s, step);
    }
  }

  /** As long as no call asks for more than the limit, somebody waiting means somebody holding units or
      granted them, in every run: even after a missed wake-up a release is still to come. */
  lemma NeverStuck(size: nat, steps: seq<Step>)
    requires Run(size, steps).Some? && AtMost(Run(size, steps).value, size)
    ensures var s := Run(size, steps).value; (s.core.waiters != [] ==> s.core.cur > 0) && !Stuck(s)
  {
    var s := Run(size, steps).value;
    WaitersMeanBusy(size, steps);
    if Stuck(s) {
      RunInv(size, steps);
      NobodyHolds(s.calls);
    }
  }

  /** A stuck semaphore grants nothing, queues every Acquire and refuses every TryAcquire, and stays stuck
      until its last waiter has given up. */
  lemma StuckStays(s: System, step: Step)
    requires Inv(s) && Enabled(s, step) && Stuck(s)
    ensures var r := Apply(s, step);
            && r.grants == s.grants
            && (r.core.waiters != [] ==> Stuck(r))
            && (step.Acquire? ==> r.calls == s.calls + [Call(step.n, Queued)])
            && (step.Try? ==> r.calls == s.calls + [Call(step.n, Refused)])
  {
    assert forall i :: 0 <= i < |s.calls| ==> s.calls[i] in s.calls;
  }

  /** Over whole runs: from a stuck state on, for as long as the queue never empties, nothing is granted. */
  lemma {:induction false} StuckForGood(size: nat, steps: seq<Step>, more: seq<Step>)
    requires Run(size, steps).Some? && Stuck(Run(size, steps).value) && Run(size, steps + more).Some?
    requires forall k :: 0 <= k <= |more| && Run(size, steps + more[..k]).Some? ==>
               Run(size, steps + more[..k]).value.core.waiters != []
    ensures Stuck(Run(size, steps + more).value)
    ensures Run(size, steps + more).value.grants == Run(size, steps).value.grants
  {
    if more == [] {
      assert steps + more == steps;
    } else {
      var init := more[..|more| - 1];
      assert (steps + more)[..|steps + more| - 1] == steps + init;
      assert forall k :: 0 <= k <= |init| ==> init[..k] == more[..k];
      StuckForGood(size, steps, init);
      RunInv(size, steps + init);
      StuckStays(Run(size, steps + init).value, more[|more| - 1]);
      assert more[..|more|] == more;
    }
  }

  ghost function GiantFirst(size: nat, w: nat): System {
    System(Core(size, 0, [Waiter(0, w)], {}), [Call(w, Queued)], [])
  }

  ghost function BehindGiant(size: nat, w: nat, n: nat): System {
    System(Core(size, 0, [Waiter(0, w), Waiter(1, n)], {}), [Call(w, Queued), Call(n, Queued)], [])
  }

  lemma GiantQueues(size: nat, w: nat, n: nat)
    requires size < w
    ensures Run(size, [Acquire(w), Acquire(n)]) == Some(BehindGiant(size, w, n))
  {
    var one := GiantFirst(size, w);
    assert Run(size, [Acquire(w)]) == Some(one) by {
      RunAcquire(size, [], w);
      assert [] + [Acquire(w)] == [Acquire(w)];
      assert Enqueued(Initial(size), w) == one;
    }
    RunAcquire(size, [Acquire(w)], n);
    assert [Acquire(w)] + [Acquire(n)] == [Acquire(w), Acquire(n)];
    assert Enqueued(one, n) == BehindGiant(size, w, n);
  }

  lemma GiantLeaves(size: nat, w: nat, n: nat)
    ensures var r := Unqueued(BehindGiant(size, w, n), 0);
            && r.core == Core(size, 0, [Waiter(1, n)], {})
            && r.calls == [Call(w, Withdrawn), Call(n, Queued)]
  {}

  /** One cancelled call for more than the limit is enough: a later call that would fit an unused
      semaphore stays queued behind nobody. */
  lemma GiantGetsStuck(size: nat, w: nat, n: nat)
    requires n <= size < w
    ensures var r := Run(size, [Acquire(w), Acquire(n), Cancel(0)]);
            && r.Some? && Stuck(r.value) && AtMost(r.value, w)
            && r.value.core == Core(size, 0, [Waiter(1, n)], {})
  {
    GiantQueues(size, w, n);
    GiantLeaves(size, w, n);
    RunMore(size, [Acquire(w), Acquire(n)], Cancel(0));
    assert [Acquire(w), Acquire(n)] + [Cancel(0)] == [Acquire(w), Acquire(n), Cancel(0)];
  }

  /** Calls of weight up to m can never leave a servable call stuck if and only if m is within the limit. */
  lemma NeverStuckIff(size: nat, m: nat)
    ensures m <= size <==>
            forall steps :: Run(size, steps).Some? && AtMost(Run(size, steps).value, m) ==>
              var s := Run(size, steps).value; !(Stuck(s) && s.core.Fits(s.core.waiters[0].n))
  {
    if m <= size {
      forall steps | Run(size, steps).Some? && AtMost(Run(size, steps).value, m)
        ensures !Stuck(Run(size, steps).value)
      {
        NeverStuck(size, steps);
      }
    } else {
      GiantGetsStuck(size, m, size);
    }
  }

  /** Every release, and every withdrawal of a call that was granted, makes up for wake-ups missed before. */
  lemma ReleaseServes(s: System, step: Step)
    requires Inv(s) && Enabled(s, step)
    requires step.Release? || (step.Cancel? && s.calls[step.id].phase == Ready)
    ensures NoIdleUnits(Apply(s, step).core)
  {
    StepIsRegion(s, step);
    if step.Cancel? { GrantedIsUnqueued(s, step.id); }
  }

  /** A missed wake-up with weights within the limit: a unit stays idle while a waiter that needs only it
      stays queued. */
  lemma MissedWakeup()
    ensures var steps := [Acquire(1), Acquire(2), Acquire(1), Cancel(1)];
            && Run(2, steps).Some?
            && var c := Run(2, steps).value.core;
               c.waiters == [Waiter(2, 1)] && c.Fits(1)
  {
    QueuedPair();
    RunMore(2, [Acquire(1), Acquire(2), Acquire(1)], Cancel(1));
    assert [Acquire(1), Acquire(2), Acquire(1)] + [Cancel(1)] == [Acquire(1), Acquire(2), Acquire(1), Cancel(1)];
  }

  ghost const HELD_ONE := System(Core(2, 1, [], {}), [Call(1, Held)], [0])
  ghost const QUEUED_ONE := System(Core(2, 1, [Waiter(1, 2)], {}), [Call(1, Held), Call(2, Queued)], [0])
  ghost const QUEUED_TWO :=
    System(Core(2, 1, [Waiter(1, 2), Waiter(2, 1)], {}), [Call(1, Held), Call(2, Queued), Call(1, Queued)], [0])

  lemma QueueFills()
    ensures Admitted(Initial(2), 1) == HELD_ONE
    ensures Enqueued(HELD_ONE, 2) == QUEUED_ONE
    ensures Enqueued(QUEUED_ONE, 1) == QUEUED_TWO
  {
    assert Admitted(Initial(2), 1).calls == HELD_ONE.calls;
    assert Admitted(Initial(2), 1).grants == HELD_ONE.grants;
    assert Enqueued(HELD_ONE, 2).calls == QUEUED_ONE.calls;
    assert Enqueued(HELD_ONE, 2).core.waiters == QUEUED_ONE.core.waiters;
    assert Enqueued(QUEUED_ONE, 1).calls == QUEUED_TWO.calls;
    assert Enqueued(QUEUED_ONE, 1).core.waiters == QUEUED_TWO.core.waiters;
  }

  lemma HeldFirst()
    ensures Run(2, [Acquire(1)]) == Some(HELD_ONE)
  {
    QueueFills();
    assert Run(2, []) == Some(Initial(2));
    RunAcquire(2, [], 1);
    assert [] + [Acquire(1)] == [Acquire(1)];
  }

  lemma QueuedFirst()
    ensures Run(2, [Acquire(1), Acquire(2)]) == Some(QUEUED_ONE)
  {
    HeldFirst();
    QueueFills();
    RunAcquire(2, [Acquire(1)], 2);
    assert [Acquire(1)] + [Acquire(2)] == [Acquire(1), Acquire(2)];
  }

  /** One unit of two is held; a waiter for two heads a waiter for one. */
  lemma QueuedPair()
    ensures Run(2, [Acquire(1), Acquire(2), Acquire(1)]) == Some(QUEUED_TWO)
  {
    QueuedFirst();
    QueueFills();
    RunAcquire(2, [Acquire(1), Acquire(2)], 1);
    assert [Acquire(1), Acquire(2)] + [Acquire(1)] == [Acquire(1), Acquire(2), Acquire(1)];
  }

  lemma RunAcquire(size: nat, steps: seq<Step>, n: nat)
    requires Run(size, steps).Some?
    ensures var s := Run(size, steps).value;
            Run(size, steps + [Acquire(n)]) == Some(if Admits(s.core, n) then Admitted(s, n) else Enqueued(s, n))
  {
    RunMore(size, steps, Acquire(n));
  }

  ghost predicate Uniform(s: System, n: nat) {
    forall c :: c in s.calls ==> c.n == n
  }

  lemma UniformBefore(size: nat, steps: seq<Step>, n: nat)
    requires steps != [] && Run(size, steps).Some? && Uniform(Run(size, steps).value, n)
    ensures Run(size, steps[..|steps| - 1]).Some? && Uniform(Run(size, steps[..|steps| - 1]).value, n)
  {
    var s, step := Run(size, steps[..|steps| - 1]).value, steps[|steps| - 1];
    RunInv(size, steps[..|steps| - 1]);
    var r := Apply(s, step);
    WeightsKept(s, step);
    forall c | c in s.calls ensures c.n == n {
      var i :| 0 <= i < |s.calls| && s.calls[i] == c;
      assert r.calls[i] in r.calls;
    }
  }

  lemma WeightsKept(s: System, step: Step)
    requires Inv(s) && Enabled(s, step)
    ensures |s.calls| <= |Apply(s, step).calls|
    ensures forall i :: 0 <= i < |s.calls| ==> Apply(s, step).calls[i].n == s.calls[i].n
  {
    match step
    case Acquire(_) =>
    case Try(_) =>
    case Return(_) =>
    case Cancel(id) =>
      if s.calls[id].phase != Queued {
        RefundedKeeps(s, id, Withdrawn);
        WakeWeights(Refunded(s, id, Withdrawn));
      }
    case Release(id) =>
      RefundedKeeps(s, id, Released);
      WakeWeights(Refunded(s, id, Released));
  }

  lemma {:induction false} WakeWeights(s: System)
    requires Inv(s)
    ensures |Wake(s).calls| == |s.calls|
    ensures forall i :: 0 <= i < |s.calls| ==> Wake(s).calls[i].n == s.calls[i].n
    decreases |s.core.waiters|
  {
    if s.core.waiters == [] || !s.core.Fits(s.core.waiters[0].n) {
    } else {
      GrantKeeps(s);
      WakeWeights(Granted(s));
    }
  }

  /** When all calls ask for the same weight, no run ever leaves usable units idle while someone
      waits, cancellations included. */
  lemma {:induction false} UniformNeverIdle(size: nat, steps: seq<Step>, n: nat)
    requires Run(size, steps).Some? && Uniform(Run(size, steps).value, n)
    ensures NoIdleUnits(Run(size, steps).value.core)
  {
    if steps == [] {
    } else {
      UniformBefore(size, steps, n);
      UniformNeverIdle(size, steps[..|steps| - 1], n);
      RunInv(size, steps[..|steps| - 1]);
      var s, step := Run(size, steps[..|steps| - 1]).value, steps[|steps| - 1];
      assert !UnblocksNext(s, step) by {
        forall i | 0 <= i < |s.core.waiters| ensures s.core.waiters[i].n == n {
          assert s.core.waiters[i] in s.core.waiters;
          assert s.calls[s.core.waiters[i].id] in s.calls;
        }
      }
      IdleUnitsExactly(s, step);
    }
  }

  // ----- Bulkhead: the unit-weight client -----

  function Running(calls: seq<Call>): nat {
    if calls == [] then 0
    else Running(calls[..|calls| - 1]) + (if calls[|calls| - 1].phase == Held then 1 else 0)
  }

  lemma {:induction false} RunningWithin(calls: seq<Call>)
    requires forall c :: c in calls ==> c.n == 1
    ensures Running(calls) <= Total(calls)
  {
    if calls == [] {
    } else {
      RunningWithin(calls[..|calls| - 1]);
      assert calls[|calls| - 1] in calls;
    }
  }

  /** Executions inside a bulkhead never exceed its limit, and while any caller waits for a slot all
      slots are taken. */
  lemma BulkheadBound(maxConcurrent: int, steps: seq<Step>)
    requires var limit := if maxConcurrent <= 0 then 1 else maxConcurrent;
             Run(limit, steps).Some? && Uniform(Run(limit, steps).value, 1)
    ensures var limit := if maxConcurrent <= 0 then 1 else maxConcurrent;
            var s := Run(limit, steps).value;
            && Running(s.calls) <= limit
            && (s.core.waiters != [] ==> s.core.cur == limit)
  {
    var limit := if maxConcurrent <= 0 then 1 else maxConcurrent;
    var s := Run(limit, steps).value;
    RunInv(limit, steps);
    RunningWithin(s.calls);
    UniformNeverIdle(limit, steps, 1);
    if s.core.waiters != [] {
      assert s.core.waiters[0] in s.core.waiters;
      assert s.calls[s.core.waiters[0].id] in s.calls;
    }
  }
}
