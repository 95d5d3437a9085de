/** FanOutFanIn: workers that share one input channel, a forwarder behind each worker, and a closer.
    All channels are unbuffered, so a value moves from worker to forwarder in one rendezvous. */
module FanOut {
  import opened Lists

  /** Idle: at the top of the range loop. Got: a value was received. Sending: blocked in the final
      select. Stopped: the goroutine returned and, for a worker, closed its channel. */
  datatype Worker<In, Out> = Idle | Got(x: In) | Sending(y: Out) | Stopped

  datatype Forwarder<Out> = Waiting | Holding(y: Out) | Gone

  /** What the sender delivers on the input channel, and whether it closes the channel afterwards. */
  datatype Input<In> = Input(values: seq<In>, closes: bool)

  /** input is what the input channel will still deliver; lost is what cancelled goroutines dropped. */
  datatype Net<In, Out(==)> = Net(
    input: seq<In>,
    closes: bool,
    workers: seq<Worker<In, Out>>,
    forwarders: seq<Forwarder<Out>>,
    out: seq<Out>,
    closed: bool,
    cancelled: bool,
    lost: multiset<Out>)

  datatype Step =
    | Receive(w: nat)        // worker takes the next input value
    | Process(w: nat)        // worker runs process on it, after checking ctx without blocking
    | Handover(w: nat)       // worker sends to its forwarder
    | Abandon(w: nat)        // worker's final select takes ctx.Done
    | InputEnd(w: nat)       // worker's range loop ends
    | Emit(w: nat)           // forwarder sends to the merged channel
    | Drop(w: nat)           // forwarder's select takes ctx.Done
    | ChannelEnd(w: nat)     // forwarder's range loop ends
    | CloseOut               // wg.Wait returns and the merged channel is closed
    | CancelCtx

  predicate Enabled<In, Out>(s: Net<In, Out>, step: Step) {
    && (!step.CloseOut? && !step.CancelCtx? ==> step.w < |s.workers| && step.w < |s.forwarders|)
    && match step
       case Receive(w) => s.workers[w].Idle? && s.input != []
       case Process(w) => s.workers[w].Got?
       case Handover(w) => s.workers[w].Sending? && s.forwarders[w].Waiting?
       case Abandon(w) => s.workers[w].Sending? && s.cancelled
       case InputEnd(w) => s.workers[w].Idle? && s.input == [] && s.closes
       case Emit(w) => s.forwarders[w].Holding?
       case Drop(w) => s.forwarders[w].Holding? && s.cancelled
       case ChannelEnd(w) => s.forwarders[w].Waiting? && s.workers[w].Stopped?
       case CloseOut => !s.closed && forall i :: 0 <= i < |s.forwarders| ==> s.forwarders[i].Gone?
       case CancelCtx => true
  }

  function Single<Out>(y: Option<Out>): multiset<Out> {
    if y.Some? then multiset{y.value} else multiset{}
  }

  function Processed<In, Out>(process: In -> Option<Out>, s: Net<In, Out>, w: nat): Net<In, Out>
    requires w < |s.workers| && s.workers[w].Got?
  {
    var y := process(s.workers[w].x);
    if s.cancelled then s.(workers := s.workers[w := Stopped], lost := s.lost + Single(y))
    else s.(workers := s.workers[w := if y.Some? then Sending(y.value) else Idle])
  }

  function Apply<In, Out>(process: In -> Option<Out>, s: Net<In, Out>, step: Step): Net<In, Out>
    requires Enabled(s, step)
  {
    match step
    case Receive(w) => s.(input := s.input[1..], workers := s.workers[w := Got(s.input[0])])
    case Process(w) => Processed(process, s, w)
    case Handover(w) =>
      s.(workers := s.workers[w := Idle], forwarders := s.forwarders[w := Holding(s.workers[w].y)])
    case Abandon(w) => s.(workers := s.workers[w := Stopped], lost := s.lost + multiset{s.workers[w].y})
    case InputEnd(w) => s.(workers := s.workers[w := Stopped])
    case Emit(w) => s.(forwarders := s.forwarders[w := Waiting], out := s.out + [s.forwarders[w].y])
    case Drop(w) => s.(forwarders := s.forwarders[w := Gone], lost := s.lost + multiset{s.forwarders[w].y})
    case ChannelEnd(w) => s.(forwarders := s.forwarders[w := Gone])
    case CloseOut => s.(closed := true)
    case CancelCtx => s.(cancelled := true)
  }

  function Initial<In, Out>(input: Input<In>, workers: nat): Net<In, Out> {
    Net(input.values, input.closes, seq(workers, _ => Idle), seq(workers, _ => Waiting), [], false, false, multiset{})
  }

  // ----- Where results are -----

  /** The results of the values that process accepts, in input order. */
  function Results<In, Out>(process: In -> Option<Out>, xs: seq<In>): seq<Out> {
    if xs == [] then [] else One(process(xs[0])) + Results(process, xs[1..])
  }

  function One<Out>(y: Option<Out>): seq<Out> {
    if y.Some? then [y.value] else []
  }

  function AtWorker<In, Out(==)>(process: In -> Option<Out>, w: Worker<In, Out>, y: Out): nat {
    match w
    case Got(x) => if process(x) == Some(y) then 1 else 0
    case Sending(z) => if z == y then 1 else 0
    case _ => 0
  }

  function AtForwarder<Out(==)>(f: Forwarder<Out>, y: Out): nat {
    if f.Holding? && f.y == y then 1 else 0
  }

  function AtWorkers<In, Out(==)>(process: In -> Option<Out>, ws: seq<Worker<In, Out>>, y: Out): nat {
    if ws == [] then 0
    else AtWorkers(process, ws[..|ws| - 1], y) + AtWorker(process, ws[|ws| - 1], y)
  }

  function AtForwarders<Out(==)>(fs: seq<Forwarder<Out>>, y: Out): nat {
    if fs == [] then 0 else AtForwarders(fs[..|fs| - 1], y) + AtForwarder(fs[|fs| - 1], y)
  }

  /** Copies of result y, wherever they are: still to come, at a worker, at a forwarder, emitted or
      lost. */
  ghost function Copies<In, Out>(process: In -> Option<Out>, s: Net<In, Out>, y: Out): nat {
    multiset(Results(process, s.input))[y] + AtWorkers(process, s.workers, y)
    + AtForwarders(s.forwarders, y) + multiset(s.out)[y] + s.lost[y]
  }

  lemma {:induction false} WorkerUpdate<In, Out>(
    process: In -> Option<Out>, ws: seq<Worker<In, Out>>, i: nat, w: Worker<In, Out>, y: Out)
    requires i < |ws|
    ensures AtWorkers(process, ws[i := w], y)
         == AtWorkers(process, ws, y) - AtWorker(process, ws[i], y) + AtWorker(process, w, y)
  {
    var l := |ws| - 1;
    if i == l {
      assert ws[i := w][..l] == ws[..l];
    } else {
      assert ws[i := w][..l] == ws[..l][i := w];
      WorkerUpdate(process, ws[..l], i, w, y);
    }
  }

  lemma {:induction false} ForwarderUpdate<Out>(fs: seq<Forwarder<Out>>, i: nat, f: Forwarder<Out>, y: Out)
    requires i < |fs|
    ensures AtForwarders(fs[i := f], y) == AtForwarders(fs, y) - AtForwarder(fs[i], y) + AtForwarder(f, y)
  {
    var l := |fs| - 1;
    if i == l {
      assert fs[i := f][..l] == fs[..l];
    } else {
      assert fs[i := f][..l] == fs[..l][i := f];
      ForwarderUpdate(fs[..l], i, f, y);
    }
  }

  lemma ResultsHead<In, Out>(process: In -> Option<Out>, xs: seq<In>, y: Out)
    requires xs != []
    ensures multiset(Results(process, xs))[y]
         == multiset(Results(process, xs[1..]))[y] + (if process(xs[0]) == Some(y) then 1 else 0)
  {}

  lemma ProcessConserves<In, Out>(process: In -> Option<Out>, s: Net<In, Out>, w: nat, y: Out)
    requires w < |s.workers| && s.workers[w].Got?
    ensures Copies(process, Processed(process, s, w), y) == Copies(process, s, y)
  {
    WorkerUpdate(process, s.workers, w, Processed(process, s, w).workers[w], y);
  }

  lemma ReceiveConserves<In, Out>(process: In -> Option<Out>, s: Net<In, Out>, w: nat, y: Out)
    requires w < |s.workers| && s.workers[w].Idle? && s.input != []
    ensures Copies(process, s.(input := s.input[1..], workers := s.workers[w := Got(s.input[0])]), y)
         == Copies(process, s, y)
  {
    ResultsHead(process, s.input, y);
    WorkerUpdate(process, s.workers, w, Got(s.input[0]), y);
  }

  lemma ForwardingConserves<In, Out>(process: In -> Option<Out>, s: Net<In, Out>, step: Step, y: Out)
    requires Enabled(s, step) && (step.Emit? || step.Drop? || step.ChannelEnd?)
    ensures Copies(process, Apply(process, s, step), y) == Copies(process, s, y)
  {
    match step
    case Emit(w) => ForwarderUpdate(s.forwarders, w, Waiting, y);
    case Drop(w) => ForwarderUpdate(s.forwarders, w, Gone, y);
    case ChannelEnd(w) => ForwarderUpdate(s.forwarders, w, Gone, y);
  }

  /** No step creates, duplicates or forgets a result. */
  lemma Conserved<In, Out>(process: In -> Option<Out>, s: Net<In, Out>, step: Step, y: Out)
    requires Enabled(s, step)
    ensures Copies(process, Apply(process, s, step), y) == Copies(process, s, y)
  {
    match step
    case Receive(w) => ReceiveConserves(process, s, w, y);
    case Process(w) => ProcessConserves(process, s, w, y);
    case Handover(w) =>
      WorkerUpdate(process, s.workers, w, Idle, y);
      ForwarderUpdate(s.forwarders, w, Holding(s.workers[w].y), y);
    case Abandon(w) => WorkerUpdate(process, s.workers, w, Stopped, y);
    case InputEnd(w) => WorkerUpdate(process, s.workers, w, Stopped, y);
    case CloseOut =>
    case CancelCtx =>
    case _ => ForwardingConserves(process, s, step, y);
  }

  // ----- Runs -----

  /** The state after a run, or None if some step was not possible when it was taken. */
  ghost function Run<In, Out>(process: In -> Option<Out>, input: Input<In>, workers: nat, steps: seq<Step>)
    : Option<Net<In, Out>>
  {
    if steps == [] then Some(Initial(input, workers))
    else
      var before, step := Run(process, input, workers, steps[..|steps| - 1]), steps[|steps| - 1];
      if before.Some? && Enabled(before.value, step) then Some(Apply(process, before.value, step)) else None
  }

  /** Goroutines end in order: without cancellation a forwarder outlives its worker and a worker the
      input, which the sender must have closed; the merged channel closes after all forwarders, cancelled or not. */
  ghost predicate Orderly<In, Out>(s: Net<In, Out>) {
    && |s.workers| == |s.forwarders|
    && (s.closed ==> forall i :: 0 <= i < |s.forwarders| ==> s.forwarders[i].Gone?)
    && (!s.cancelled ==>
          && s.lost == multiset{}
          && (forall i :: 0 <= i < |s.workers| && s.workers[i].Stopped? ==> s.input == [] && s.closes)
          && (forall i :: 0 <= i < |s.workers| && s.forwarders[i].Gone? ==> s.workers[i].Stopped?))
  }

  lemma StepOrderly<In, Out>(process: In -> Option<Out>, s: Net<In, Out>, step: Step)
    requires Orderly(s) && Enabled(s, step)
    ensures Orderly(Apply(process, s, step))
    ensures |Apply(process, s, step).workers| == |s.workers| && Apply(process, s, step).closes == s.closes
  {}

  lemma {:induction false} RunOrderly<In, Out>(
    process: In -> Option<Out>, input: Input<In>, workers: nat, steps: seq<Step>)
    requires Run(process, input, workers, steps).Some?
    ensures var s := Run(process, input, workers, steps).value;
            Orderly(s) && |s.workers| == workers && s.closes == input.closes
  {
    if steps == [] {
    } else {
      RunOrderly(process, input, workers, steps[..|steps| - 1]);
      StepOrderly(process, Run(process, input, workers, steps[..|steps| - 1]).value, steps[|steps| - 1]);
    }
  }

  lemma {:induction false} NothingAtRest<In, Out>(process: In -> Option<Out>, n: nat, y: Out)
    ensures AtWorkers(process, seq(n, _ => Worker<In, Out>.Idle), y) == 0
    ensures AtForwarders(seq(n, _ => Forwarder<Out>.Waiting), y) == 0
  {
    if n == 0 {
    } else {
      NothingAtRest(process, n - 1, y);
      var ws, fs := seq(n, _ => Worker<In, Out>.Idle), seq(n, _ => Forwarder<Out>.Waiting);
      assert ws[..n - 1] == seq(n - 1, _ => Worker<In, Out>.Idle);
      assert fs[..n - 1] == seq(n - 1, _ => Forwarder<Out>.Waiting);
    }
  }

  lemma {:induction false} RunConserves<In, Out>(
    process: In -> Option<Out>, input: Input<In>, workers: nat, steps: seq<Step>, y: Out)
    requires Run(process, input, workers, steps).Some?
    ensures Copies(process, Run(process, input, workers, steps).value, y) == multiset(Results(process, input.values))[y]
  {
    if steps == [] {
      NothingAtRest(process, workers, y);
    } else {
      RunConserves(process, input, workers, steps[..|steps| - 1], y);
      Conserved(process, Run(process, input, workers, steps[..|steps| - 1]).value, steps[|steps| - 1], y);
    }
  }

  /** In every state of every run, cancelled or not, what was emitted is a sub-multiset of the results
      of the whole input. */
  lemma EmittedWithin<In, Out(!new)>(
    process: In -> Option<Out>, input: Input<In>, workers: nat, steps: seq<Step>)
    requires Run(process, input, workers, steps).Some?
    ensures multiset(Run(process, input, workers, steps).value.out) <= multiset(Results(process, input.values))
  {
    forall y: Out
      ensures multiset(Run(process, input, workers, steps).value.out)[y] <= multiset(Results(process, input.values))[y]
    {
      RunConserves(process, input, workers, steps, y);
    }
  }

  lemma {:induction false} NothingHeld<In, Out>(
    process: In -> Option<Out>, ws: seq<Worker<In, Out>>, fs: seq<Forwarder<Out>>, y: Out)
    requires |ws| == |fs|
    requires forall i :: 0 <= i < |ws| ==> ws[i].Stopped? && fs[i].Gone?
    ensures AtWorkers(process, ws, y) == 0 && AtForwarders(fs, y) == 0
  {
    if ws == [] {
    } else {
      NothingHeld(process, ws[..|ws| - 1], fs[..|fs| - 1], y);
    }
  }

  /** When the merged channel closes without a cancellation, exactly the results of the whole input
      have been emitted if and only if there was a worker to produce them (or there was nothing to
      produce). */
  lemma ClosedMeansComplete<In, Out(!new)>(
    process: In -> Option<Out>, input: Input<In>, workers: nat, steps: seq<Step>)
    requires Run(process, input, workers, steps).Some?
    requires var s := Run(process, input, workers, steps).value; s.closed && !s.cancelled
    ensures multiset(Run(process, input, workers, steps).value.out) == multiset(Results(process, input.values))
            <==> (workers > 0 || Results(process, input.values) == [])
  {
    var s := Run(process, input, workers, steps).value;
    RunOrderly(process, input, workers, steps);
    if workers > 0 {
      assert s.workers[0].Stopped?;
      forall y: Out
        ensures multiset(s.out)[y] == multiset(Results(process, input.values))[y]
      {
        RunConserves(process, input, workers, steps, y);
        NothingHeld(process, s.workers, s.forwarders, y);
      }
    } else {
      NoWorkersNoOutput(process, input, steps);
      if Results(process, input.values) != [] {
        assert Results(process, input.values)[0] in multiset(Results(process, input.values));
      }
    }
  }

  lemma {:induction false} NoWorkersNoOutput<In, Out>(process: In -> Option<Out>, input: Input<In>, steps: seq<Step>)
    requires Run(process, input, 0, steps).Some?
    ensures Run(process, input, 0, steps).value.out == []
  {
    if steps == [] {
    } else {
      NoWorkersNoOutput(process, input, steps[..|steps| - 1]);
      RunOrderly(process, input, 0, steps[..|steps| - 1]);
    }
  }

  /** Nothing is ever sent on the merged channel once it is closed. */
  lemma NoSendAfterClose<In, Out>(
    process: In -> Option<Out>, input: Input<In>, workers: nat, steps: seq<Step>, w: nat)
    requires Run(process, input, workers, steps).Some? && Run(process, input, workers, steps).value.closed
    ensures !Enabled(Run(process, input, workers, steps).value, Emit(w))
  {
    RunOrderly(process, input, workers, steps);
  }

  // ----- Every run can be finished, and no run goes on for ever -----

  function WorkerRank<In, Out>(w: Worker<In, Out>): nat {
    match w case Idle => 1 case Got(_) => 5 case Sending(_) => 4 case Stopped => 0
  }

  function ForwarderRank<Out>(f: Forwarder<Out>): nat {
    match f case Waiting => 1 case Holding(_) => 2 case Gone => 0
  }

  function WorkerRanks<In, Out>(ws: seq<Worker<In, Out>>): nat {
    if ws == [] then 0 else WorkerRanks(ws[..|ws| - 1]) + WorkerRank(ws[|ws| - 1])
  }

  function ForwarderRanks<Out>(fs: seq<Forwarder<Out>>): nat {
    if fs == [] then 0 else ForwarderRanks(fs[..|fs| - 1]) + ForwarderRank(fs[|fs| - 1])
  }

  /** A bound on the steps still to be taken. */
  function Rank<In, Out>(s: Net<In, Out>): nat {
    5 * |s.input| + WorkerRanks(s.workers) + ForwarderRanks(s.forwarders) + (if s.closed then 0 else 1)
  }

  lemma {:induction false} WorkerRankUpdate<In, Out>(ws: seq<Worker<In, Out>>, i: nat, w: Worker<In, Out>)
    requires i < |ws|
    ensures WorkerRanks(ws[i := w]) == WorkerRanks(ws) - WorkerRank(ws[i]) + WorkerRank(w)
  {
    var l := |ws| - 1;
    if i == l {
      assert ws[i := w][..l] == ws[..l];
    } else {
      assert ws[i := w][..l] == ws[..l][i := w];
      WorkerRankUpdate(ws[..l], i, w);
    }
  }

  lemma {:induction false} ForwarderRankUpdate<Out>(fs: seq<Forwarder<Out>>, i: nat, f: Forwarder<Out>)
    requires i < |fs|
    ensures ForwarderRanks(fs[i := f]) == ForwarderRanks(fs) - ForwarderRank(fs[i]) + ForwarderRank(f)
  {
    var l := |fs| - 1;
    if i == l {
      assert fs[i := f][..l] == fs[..l];
    } else {
      assert fs[i := f][..l] == fs[..l][i := f];
      ForwarderRankUpdate(fs[..l], i, f);
    }
  }

  lemma StepsRunOut<In, Out>(process: In -> Option<Out>, s: Net<In, Out>, step: Step)
    requires Enabled(s, step) && !step.CancelCtx?
    ensures Rank(Apply(process, s, step)) < Rank(s)
  {
    if !step.CloseOut? {
      var r := Apply(process, s, step);
      WorkerRankUpdate(s.workers, step.w, r.workers[step.w]);
      ForwarderRankUpdate(s.forwarders, step.w, r.forwarders[step.w]);
      assert r.workers == s.workers[step.w := r.workers[step.w]];
      assert r.forwarders == s.forwarders[step.w := r.forwarders[step.w]];
    }
  }

  /** The state of a pipeline whose sender stopped without closing: some forwarder waits for a worker that
      waits for input, and everybody else waits or is done. */
  ghost predicate Starved<In, Out>(s: Net<In, Out>) {
    && s.input == [] && !s.closes && !s.closed && |s.workers| == |s.forwarders|
    && (exists i :: 0 <= i < |s.forwarders| && s.forwarders[i].Waiting?)
    && (forall i :: 0 <= i < |s.forwarders| ==>
          || (s.forwarders[i].Waiting? && s.workers[i].Idle?)
          || (s.forwarders[i].Gone? && (s.workers[i].Idle? || s.workers[i].Stopped?)))
  }

  /** A step that some goroutine can take, unless the pipeline is starved. */
  function Move<In, Out>(s: Net<In, Out>, i: nat): Step
    requires i < |s.workers| && i < |s.forwarders|
  {
    if s.forwarders[i].Holding? then if s.cancelled then Drop(i) else Emit(i)
    else match s.workers[i]
      case Idle => if s.input == [] then InputEnd(i) else Receive(i)
      case Got(_) => Process(i)
      case Sending(_) => if s.forwarders[i].Waiting? then Handover(i) else Abandon(i)
      case Stopped => ChannelEnd(i)
  }

  lemma MoveOrStarved<In, Out>(s: Net<In, Out>) returns (next: Step)
    requires Orderly(s) && !s.closed && !Starved(s)
    ensures Enabled(s, next) && !next.CancelCtx? && (s.cancelled ==> !next.Emit?)
  {
    if i :| 0 <= i < |s.forwarders| && !s.forwarders[i].Gone? && Enabled(s, Move(s, i)) {
      next := Move(s, i);
    } else if forall i :: 0 <= i < |s.forwarders| ==> s.forwarders[i].Gone? {
      next := CloseOut;
    } else {
      var i :| 0 <= i < |s.forwarders| && !s.forwarders[i].Gone?;
      assert s.forwarders[i].Waiting? && s.workers[i].Idle? && s.input == [] && !s.closes;
      var j :| 0 <= j < |s.forwarders| && s.forwarders[j].Gone? && !s.workers[j].Idle? && !s.workers[j].Stopped?;
      next := Move(s, j);
    }
  }

  /** In every run, as long as the merged channel is open: no goroutine can move if and only if the
      pipeline is starved by a sender that has delivered everything and not closed its channel. */
  lemma DeadlockIff<In, Out>(process: In -> Option<Out>, input: Input<In>, workers: nat, steps: seq<Step>)
    requires Run(process, input, workers, steps).Some? && !Run(process, input, workers, steps).value.closed
    ensures var s := Run(process, input, workers, steps).value;
            (forall step :: Enabled(s, step) ==> step.CancelCtx?) <==> Starved(s)
  {
    var s := Run(process, input, workers, steps).value;
    RunOrderly(process, input, workers, steps);
    if !Starved(s) {
      var next := MoveOrStarved(s);
    }
  }

  /** Cancelling does not help: a starved pipeline stays starved, with its channel open, for ever. */
  lemma StarvedStays<In, Out>(process: In -> Option<Out>, s: Net<In, Out>, step: Step)
    requires Starved(s) && Enabled(s, step)
    ensures step.CancelCtx? && Starved(Apply(process, s, step))
  {}

  /** How a run goes on from a state. */
  ghost function RunFrom<In, Out>(process: In -> Option<Out>, s: Net<In, Out>, more: seq<Step>): Option<Net<In, Out>>
    decreases |more|
  {
    if more == [] then Some(s)
    else if Enabled(s, more[0]) then RunFrom(process, Apply(process, s, more[0]), more[1..])
    else None
  }

  lemma {:induction false} RunContinues<In, Out>(
    process: In -> Option<Out>, input: Input<In>, workers: nat, steps: seq<Step>, more: seq<Step>)
    requires Run(process, input, workers, steps).Some?
    ensures Run(process, input, workers, steps + more)
         == RunFrom(process, Run(process, input, workers, steps).value, more)
    decreases |more|
  {
    if more == [] {
      assert steps + more == steps;
    } else {
      var next := steps + [more[0]];
      assert next[..|steps|] == steps && steps + more == next + more[1..];
      if Enabled(Run(process, input, workers, steps).value, more[0]) {
        RunContinues(process, input, workers, next, more[1..]);
      } else {
        NoWayOn(process, input, workers, next, more[1..]);
      }
    }
  }

  lemma {:induction false} NoWayOn<In, Out>(
    process: In -> Option<Out>, input: Input<In>, workers: nat, steps: seq<Step>, more: seq<Step>)
    requires Run(process, input, workers, steps).None?
    ensures Run(process, input, workers, steps + more).None?
    decreases |more|
  {
    if more == [] {
      assert steps + more == steps;
    } else {
      var init := more[..|more| - 1];
      assert (steps + more)[..|steps + more| - 1] == steps + init;
      NoWayOn(process, input, workers, steps, init);
    }
  }

  /** Steps other than the cancellation itself. */
  function Moves(steps: seq<Step>): nat {
    if steps == [] then 0
    else Moves(steps[..|steps| - 1]) + (if steps[|steps| - 1].CancelCtx? then 0 else 1)
  }

  /** Nobody reads the merged channel. */
  ghost predicate Unread(steps: seq<Step>) {
    forall i :: 0 <= i < |steps| ==> !steps[i].Emit?
  }

  /** Left to itself, every pipeline reaches a state in which its channel is closed or it is starved. */
  lemma {:induction false} RunOn<In, Out>(process: In -> Option<Out>, s: Net<In, Out>) returns (more: seq<Step>)
    requires Orderly(s)
    ensures var r := RunFrom(process, s, more);
            && r.Some? && Orderly(r.value) && (r.value.closed || Starved(r.value))
            && r.value.cancelled == s.cancelled && r.value.closes == s.closes && |r.value.workers| == |s.workers|
            && (s.cancelled ==> Unread(more))
    decreases Rank(s)
  {
    if s.closed || Starved(s) {
      more := [];
    } else {
      var next := MoveOrStarved(s);
      StepsRunOut(process, s, next);
      StepOrderly(process, s, next);
      var rest := RunOn(process, Apply(process, s, next));
      more := [next] + rest;
      assert more[1..] == rest;
    }
  }

  lemma {:induction false} StarvedForEver<In, Out>(process: In -> Option<Out>, s: Net<In, Out>, more: seq<Step>)
    requires Starved(s) && RunFrom(process, s, more).Some?
    ensures Starved(RunFrom(process, s, more).value)
    decreases |more|
  {
    if more == [] {
    } else {
      StarvedStays(process, s, more[0]);
      StarvedForEver(process, Apply(process, s, more[0]), more[1..]);
    }
  }

  /** The run can go on until the merged channel is closed. */
  ghost predicate Finishes<In, Out>(process: In -> Option<Out>, input: Input<In>, workers: nat, steps: seq<Step>) {
    exists more :: ClosedAfter(process, input, workers, steps + more)
  }

  ghost predicate ClosedAfter<In, Out>(
    process: In -> Option<Out>, input: Input<In>, workers: nat, steps: seq<Step>)
  {
    Run(process, input, workers, steps).Some? && Run(process, input, workers, steps).value.closed
  }

  lemma CanFinish<In, Out>(process: In -> Option<Out>, input: Input<In>, workers: nat, steps: seq<Step>)
    requires Run(process, input, workers, steps).Some? && (input.closes || workers == 0)
    ensures Finishes(process, input, workers, steps)
  {
    RunOrderly(process, input, workers, steps);
    var more := RunOn(process, Run(process, input, workers, steps).value);
    RunContinues(process, input, workers, steps, more);
    assert ClosedAfter(process, input, workers, steps + more);
  }

  lemma OpenUntilInputCloses<In, Out>(s: Net<In, Out>)
    requires Orderly(s) && !s.cancelled && !s.closes && s.workers != []
    ensures !s.closed
  {
    assert !s.workers[0].Stopped? && !s.forwarders[0].Gone?;
  }

  /** A cancelled run can be finished although nobody reads the merged channel any more. */
  lemma CancelledNeedsNoReader<In, Out>(
    process: In -> Option<Out>, input: Input<In>, workers: nat, steps: seq<Step>) returns (more: seq<Step>)
    requires Run(process, input, workers, steps).Some? && (input.closes || workers == 0)
    requires Run(process, input, workers, steps).value.cancelled
    ensures Unread(more) && ClosedAfter(process, input, workers, steps + more)
  {
    RunOrderly(process, input, workers, steps);
    more := RunOn(process, Run(process, input, workers, steps).value);
    RunContinues(process, input, workers, steps, more);
  }

  /** Without a close, a pipeline with workers starves once it has handled everything. */
  lemma CanStarve<In, Out>(process: In -> Option<Out>, input: Input<In>, workers: nat) returns (steps: seq<Step>)
    requires !input.closes && workers > 0
    ensures Run(process, input, workers, steps).Some? && Starved(Run(process, input, workers, steps).value)
  {
    RunOrderly(process, input, workers, []);
    steps := RunOn(process, Initial(input, workers));
    RunContinues(process, input, workers, [], steps);
    assert [] + steps == steps;
    OpenUntilInputCloses(Run(process, input, workers, steps).value);
  }

  lemma NeverFinishes<In, Out>(process: In -> Option<Out>, input: Input<In>, workers: nat, steps: seq<Step>)
    requires Run(process, input, workers, steps).Some? && Starved(Run(process, input, workers, steps).value)
    ensures !Finishes(process, input, workers, steps)
  {
    forall more ensures !ClosedAfter(process, input, workers, steps + more) {
      RunContinues(process, input, workers, steps, more);
      var r := RunFrom(process, Run(process, input, workers, steps).value, more);
      if r.Some? { StarvedForEver(process, Run(process, input, workers, steps).value, more); }
    }
  }

  /** Every run can be finished if and only if the sender closes its channel or there is no worker. */
  lemma AlwaysFinishesIff<In, Out>(process: In -> Option<Out>, input: Input<In>, workers: nat)
    ensures (forall steps :: Run(process, input, workers, steps).Some? ==> Finishes(process, input, workers, steps))
            <==> (input.closes || workers == 0)
  {
    if input.closes || workers == 0 {
      forall steps | Run(process, input, workers, steps).Some? ensures Finishes(process, input, workers, steps) {
        CanFinish(process, input, workers, steps);
      }
    } else {
      var steps := CanStarve(process, input, workers);
      NeverFinishes(process, input, workers, steps);
    }
  }

  // ----- After a cancellation -----

  /** Results already handed to a send: held by a forwarder or offered by a worker. */
  function Underway<In, Out>(ws: seq<Worker<In, Out>>, fs: seq<Forwarder<Out>>): nat
    requires |ws| == |fs|
  {
    if ws == [] then 0
    else
      var l := |ws| - 1;
      Underway(ws[..l], fs[..l]) + (if ws[l].Sending? then 1 else 0) + (if fs[l].Holding? then 1 else 0)
  }

  lemma {:induction false} UnderwayUpdate<In, Out>(
    ws: seq<Worker<In, Out>>, fs: seq<Forwarder<Out>>, i: nat, w: Worker<In, Out>, f: Forwarder<Out>)
    requires |ws| == |fs| && i < |ws|
    ensures Underway(ws[i := w], fs[i := f])
         == Underway(ws, fs) - (if ws[i].Sending? then 1 else 0) - (if fs[i].Holding? then 1 else 0)
                             + (if w.Sending? then 1 else 0) + (if f.Holding? then 1 else 0)
  {
    var l := |ws| - 1;
    if i == l {
      assert ws[i := w][..l] == ws[..l] && fs[i := f][..l] == fs[..l];
    } else {
      assert ws[i := w][..l] == ws[..l][i := w] && fs[i := f][..l] == fs[..l][i := f];
      UnderwayUpdate(ws[..l], fs[..l], i, w, f);
    }
  }

  lemma {:induction false} UnderwayBound<In, Out>(ws: seq<Worker<In, Out>>, fs: seq<Forwarder<Out>>)
    requires |ws| == |fs|
    ensures Underway(ws, fs) <= 2 * |ws|
  {
    if ws == [] {
    } else {
      UnderwayBound(ws[..|ws| - 1], fs[..|fs| - 1]);
    }
  }

  /** Once cancelled, no step brings a worker a new result, and nothing is emitted that was not underway. */
  lemma CancelledStep<In, Out>(process: In -> Option<Out>, s: Net<In, Out>, step: Step)
    requires Orderly(s) && s.cancelled && Enabled(s, step)
    ensures var r := Apply(process, s, step);
            && Orderly(r) && r.cancelled && |r.workers| == |s.workers|
            && (forall i :: 0 <= i < |s.workers| && r.workers[i].Sending? ==> r.workers[i] == s.workers[i])
            && |r.out| + Underway(r.workers, r.forwarders) <= |s.out| + Underway(s.workers, s.forwarders)
  {
    StepOrderly(process, s, step);
    if !step.CloseOut? && !step.CancelCtx? {
      var r := Apply(process, s, step);
      UnderwayUpdate(s.workers, s.forwarders, step.w, r.workers[step.w], r.forwarders[step.w]);
      assert r.workers == s.workers[step.w := r.workers[step.w]];
      assert r.forwarders == s.forwarders[step.w := r.forwarders[step.w]];
    }
  }

  lemma {:induction false} CancelledRun<In, Out>(process: In -> Option<Out>, s: Net<In, Out>, more: seq<Step>)
    requires Orderly(s) && s.cancelled && RunFrom(process, s, more).Some?
    ensures var r := RunFrom(process, s, more).value; |r.out| <= |s.out| + Underway(s.workers, s.forwarders)
    decreases |more|
  {
    if more == [] {
    } else {
      CancelledStep(process, s, more[0]);
      CancelledRun(process, Apply(process, s, more[0]), more[1..]);
    }
  }

  /** Every run can be cancelled at any time. From then on it emits at most what was underway, two results
      per worker. */
  lemma CancelEndsOutput<In, Out>(
    process: In -> Option<Out>, input: Input<In>, workers: nat, steps: seq<Step>, more: seq<Step>)
    requires Run(process, input, workers, steps).Some?
    ensures Run(process, input, workers, steps + [CancelCtx]).Some?
    ensures Run(process, input, workers, steps + [CancelCtx] + more).Some? ==>
              |Run(process, input, workers, steps + [CancelCtx] + more).value.out|
              <= |Run(process, input, workers, steps).value.out| + 2 * workers
  {
    var now := steps + [CancelCtx];
    assert now[..|steps|] == steps;
    var s := Run(process, input, workers, now).value;
    RunOrderly(process, input, workers, now);
    RunContinues(process, input, workers, now, more);
    if RunFrom(process, s, more).Some? { CancelledRun(process, s, more); }
    UnderwayBound(s.workers, s.forwarders);
  }

  lemma {:induction false} RanksAtRest<In, Out>(n: nat)
    ensures WorkerRanks(seq(n, _ => Worker<In, Out>.Idle)) == n
    ensures ForwarderRanks(seq(n, _ => Forwarder<Out>.Waiting)) == n
  {
    if n == 0 {
    } else {
      RanksAtRest<In, Out>(n - 1);
      var ws, fs := seq(n, _ => Worker<In, Out>.Idle), seq(n, _ => Forwarder<Out>.Waiting);
      assert ws[..n - 1] == seq(n - 1, _ => Worker<In, Out>.Idle);
      assert fs[..n - 1] == seq(n - 1, _ => Forwarder<Out>.Waiting);
    }
  }

  lemma {:induction false} MovesUseRank<In, Out>(
    process: In -> Option<Out>, input: Input<In>, workers: nat, steps: seq<Step>)
    requires Run(process, input, workers, steps).Some?
    ensures Moves(steps) + Rank(Run(process, input, workers, steps).value) <= 5 * |input.values| + 2 * workers + 1
  {
    if steps == [] {
      RanksAtRest<In, Out>(workers);
    } else {
      var init, step := steps[..|steps| - 1], steps[|steps| - 1];
      MovesUseRank(process, input, workers, init);
      if !step.CancelCtx? { StepsRunOut(process, Run(process, input, workers, init).value, step); }
    }
  }

  /** No run goes on for ever: besides cancelling, the goroutines of a run take at most five steps per
      value, two per worker, and one to close. */
  lemma RunsAreFinite<In, Out>(process: In -> Option<Out>, input: Input<In>, workers: nat, steps: seq<Step>)
    requires Run(process, input, workers, steps).Some?
    ensures Moves(steps) <= 5 * |input.values| + 2 * workers + 1
  {
    MovesUseRank(process, input, workers, steps);
  }

  // ----- One worker keeps the order -----

  function Held<Out>(f: Forwarder<Out>): seq<Out> {
    if f.Holding? then [f.y] else []
  }

  function Pending<In, Out>(process: In -> Option<Out>, w: Worker<In, Out>): seq<Out> {
    match w
    case Got(x) => One(process(x))
    case Sending(y) => [y]
    case _ => []
  }

  /** With a single worker, what is out, held and still to come is the result sequence in order, until
      a cancellation cuts it short. */
  ghost predicate InOrder<In, Out>(process: In -> Option<Out>, all: seq<Out>, s: Net<In, Out>) {
    && |s.workers| == |s.forwarders| == 1
    && s.out + Held(s.forwarders[0]) <= all
    && (!s.workers[0].Stopped? && !s.forwarders[0].Gone? ==>
          s.out + Held(s.forwarders[0]) + Pending(process, s.workers[0]) + Results(process, s.input) == all)
  }

  lemma ReceiveInOrder<In, Out>(process: In -> Option<Out>, all: seq<Out>, s: Net<In, Out>)
    requires InOrder(process, all, s) && Enabled(s, Receive(0))
    ensures InOrder(process, all, Apply(process, s, Receive(0)))
  {
    var o, h := s.out, Held(s.forwarders[0]);
    assert o + h + [] + (One(process(s.input[0])) + Results(process, s.input[1..]))
        == o + h + One(process(s.input[0])) + Results(process, s.input[1..]);
  }

  lemma HandoverInOrder<In, Out>(process: In -> Option<Out>, all: seq<Out>, s: Net<In, Out>)
    requires InOrder(process, all, s) && Enabled(s, Handover(0))
    ensures InOrder(process, all, Apply(process, s, Handover(0)))
  {
    var o, y := s.out, s.workers[0].y;
    assert o + [] + [y] + Results(process, s.input) == o + [y] + [] + Results(process, s.input);
    assert o + [y] <= all;
  }

  lemma StepInOrder<In, Out>(process: In -> Option<Out>, all: seq<Out>, s: Net<In, Out>, step: Step)
    requires InOrder(process, all, s) && Enabled(s, step)
    ensures InOrder(process, all, Apply(process, s, step))
  {
    match step
    case Receive(_) => ReceiveInOrder(process, all, s);
    case Handover(_) => HandoverInOrder(process, all, s);
    case Emit(_) =>
      var y := s.forwarders[0].y;
      assert s.out + [y] + [] == s.out + [y];
    case Drop(_) => assert s.out + [] <= all;
    case _ =>
  }

  /** A single worker emits results in input order, and nothing but a prefix of them if cancelled. */
  lemma {:induction false} OneWorkerKeepsOrder<In, Out>(process: In -> Option<Out>, input: Input<In>, steps: seq<Step>)
    requires Run(process, input, 1, steps).Some?
    ensures InOrder(process, Results(process, input.values), Run(process, input, 1, steps).value)
    ensures Run(process, input, 1, steps).value.out <= Results(process, input.values)
  {
    if steps == [] {
      assert [] + [] + [] + Results(process, input.values) == Results(process, input.values);
    } else {
      OneWorkerKeepsOrder(process, input, steps[..|steps| - 1]);
      var before := Run(process, input, 1, steps[..|steps| - 1]).value;
      StepInOrder(process, Results(process, input.values), before, steps[|steps| - 1]);
    }
    var s := Run(process, input, 1, steps).value;
    assert s.out <= s.out + Held(s.forwarders[0]);
  }
}
