/** The scan's worker pool as a step system: a feeder, workers on an unbuffered
    job channel, a buffered result channel and a collector. The recheck pass
    uses the same pool and is never cancelled. */
module ScanPool {
  import opened PoolSums

  datatype Worker = Idle | Got(i: nat) | Probing(i: nat) | Probed(i: nat) | Sending(i: nat) | Exited

  datatype Phase = Feeding | Waiting | Closed

  /** `probed` and `dropped` log what happened to each target. */
  datatype Pool = Pool(
    targets: nat, capacity: nat, next: nat, phase: Phase, workers: seq<Worker>,
    results: seq<nat>, collected: seq<nat>, done: nat, cancelled: bool,
    probed: multiset<nat>, dropped: multiset<nat>)

  function Start(targets: nat, workers: nat, capacity: nat): Pool {
    Pool(targets, capacity, 0, Feeding, seq(workers, _ => Idle), [], [], 0, false, multiset{}, multiset{})
  }

  datatype Move =
    | Cancel | Hand(w: nat) | FeedEnd | FeedStop | Check(w: nat) | Probe(w: nat) | Count(w: nat)
    | Send(w: nat) | Leave(w: nat) | CloseResults | Collect

  predicate Enabled(p: Pool, mv: Move) {
    match mv
    case Cancel => !p.cancelled
    case Hand(w) => p.phase == Feeding && p.next < p.targets && w < |p.workers| && p.workers[w] == Idle
    case FeedEnd => p.phase == Feeding && p.next == p.targets
    case FeedStop => p.phase == Feeding && p.next < p.targets && p.cancelled
    case Check(w) => w < |p.workers| && p.workers[w].Got?
    case Probe(w) => w < |p.workers| && p.workers[w].Probing?
    case Count(w) => w < |p.workers| && p.workers[w].Probed?
    case Send(w) => w < |p.workers| && p.workers[w].Sending? && |p.results| < p.capacity
    case Leave(w) => w < |p.workers| && p.workers[w] == Idle && p.phase != Feeding
    case CloseResults => p.phase == Waiting && forall w :: 0 <= w < |p.workers| ==> p.workers[w] == Exited
    case Collect => p.results != []
  }

  function Become(p: Pool, w: nat, x: Worker): Pool
    requires w < |p.workers|
  {
    p.(workers := p.workers[w := x])
  }

  function Apply(p: Pool, mv: Move): Pool
    requires Enabled(p, mv)
  {
    match mv
    case Cancel => p.(cancelled := true)
    case Hand(w) => Become(p, w, Got(p.next)).(next := p.next + 1)
    case FeedEnd => p.(phase := Waiting)
    case FeedStop => p.(phase := Waiting)
    case Check(w) =>
      if p.cancelled then Become(p, w, Exited).(dropped := p.dropped + multiset{p.workers[w].i})
      else Become(p, w, Probing(p.workers[w].i))
    case Probe(w) => Become(p, w, Probed(p.workers[w].i)).(probed := p.probed + multiset{p.workers[w].i})
    case Count(w) => Become(p, w, Sending(p.workers[w].i)).(done := p.done + 1)
    case Send(w) => Become(p, w, Idle).(results := p.results + [p.workers[w].i])
    case Leave(w) => Become(p, w, Exited)
    case CloseResults => p.(phase := Closed)
    case Collect => p.(collected := p.collected + [p.results[0]], results := p.results[1..])
  }

  // ---- What every step keeps ----

  function Holds(i: nat): Worker -> nat {
    (w: Worker) => if !w.Idle? && !w.Exited? && w.i == i then 1 else 0
  }

  function HoldsProbed(i: nat): Worker -> nat {
    (w: Worker) => if (w.Probed? || w.Sending?) && w.i == i then 1 else 0
  }

  function IsSending(): Worker -> nat { (w: Worker) => if w.Sending? then 1 else 0 }

  /** In how many places target `i` is: collected, in the channel, with a
      worker, or dropped by a cancelled worker. */
  function Places(p: Pool, i: nat): nat {
    Times(p.collected, i) + Times(p.results, i) + Sum(p.workers, Holds(i)) + p.dropped[i]
  }

  /** How many results of target `i` exist. */
  function Outcomes(p: Pool, i: nat): nat {
    Times(p.collected, i) + Times(p.results, i) + Sum(p.workers, HoldsProbed(i))
  }

  ghost predicate Conserved(p: Pool) {
    && (forall i: nat :: Places(p, i) == if i < p.next then 1 else 0)
    && (forall i: nat :: Outcomes(p, i) == p.probed[i])
    && p.done == |p.collected| + |p.results| + Sum(p.workers, IsSending())
  }

  ghost predicate Inv(p: Pool) {
    && p.next <= p.targets && Conserved(p)
    && (!p.cancelled ==> p.dropped == multiset{})
    && (p.phase != Feeding && p.next < p.targets ==> p.cancelled)
    && (p.phase == Closed ==> forall w :: 0 <= w < |p.workers| ==> p.workers[w] == Exited)
    && (p.phase == Feeding && !p.cancelled ==> forall w :: 0 <= w < |p.workers| ==> p.workers[w] != Exited)
  }

  lemma StartInv(targets: nat, workers: nat, capacity: nat)
    ensures Inv(Start(targets, workers, capacity))
  {
    var p := Start(targets, workers, capacity);
    SumZero(p.workers, IsSending());
    forall i: nat ensures Places(p, i) == 0 && Outcomes(p, i) == 0 {
      SumZero(p.workers, Holds(i));
      SumZero(p.workers, HoldsProbed(i));
    }
  }

  predicate OfWorker(mv: Move) { !mv.Cancel? && !mv.FeedEnd? && !mv.FeedStop? && !mv.CloseResults? && !mv.Collect? }

  /** A step moves targets between places; only Hand adds one. */
  lemma StepPlaces(p: Pool, mv: Move, i: nat)
    requires Enabled(p, mv)
    ensures Places(Apply(p, mv), i) == Places(p, i) + (if mv.Hand? && i == p.next then 1 else 0)
  {
    hide Times, Sum;
    var q := Apply(p, mv);
    if OfWorker(mv) {
      SumUpdate(p.workers, mv.w, q.workers[mv.w], Holds(i));
      if mv.Send? { TimesAppend(p.results, p.workers[mv.w].i, i); }
    } else if mv.Collect? {
      TimesTail(p.results, i);
      TimesAppend(p.collected, p.results[0], i);
    }
  }

  /** Only a probe produces an outcome. */
  lemma StepOutcomes(p: Pool, mv: Move, i: nat)
    requires Enabled(p, mv)
    ensures Outcomes(Apply(p, mv), i) - Apply(p, mv).probed[i] == Outcomes(p, i) - p.probed[i]
  {
    hide Times, Sum;
    var q := Apply(p, mv);
    if OfWorker(mv) {
      SumUpdate(p.workers, mv.w, q.workers[mv.w], HoldsProbed(i));
      if mv.Send? { TimesAppend(p.results, p.workers[mv.w].i, i); }
    } else if mv.Collect? {
      TimesTail(p.results, i);
      TimesAppend(p.collected, p.results[0], i);
    }
  }

  function Counted(p: Pool): nat { |p.collected| + |p.results| + Sum(p.workers, IsSending()) }

  lemma StepCounted(p: Pool, mv: Move)
    requires Enabled(p, mv)
    ensures Apply(p, mv).done - Counted(Apply(p, mv)) == p.done - Counted(p)
  {
    if OfWorker(mv) { SumUpdate(p.workers, mv.w, Apply(p, mv).workers[mv.w], IsSending()); }
  }

  lemma StepConserves(p: Pool, mv: Move)
    requires Enabled(p, mv) && Conserved(p)
    ensures Conserved(Apply(p, mv))
  {
    var q := Apply(p, mv);
    assert q.next == if mv.Hand? then p.next + 1 else p.next;
    StepCounted(p, mv);
    hide Places, Outcomes, Counted, Apply;
    forall i: nat
      ensures Places(q, i) == if i < q.next then 1 else 0
      ensures Outcomes(q, i) == q.probed[i]
    {
      StepPlaces(p, mv, i);
      StepOutcomes(p, mv, i);
    }
  }

  lemma StepInv(p: Pool, mv: Move)
    requires Enabled(p, mv) && Inv(p)
    ensures Inv(Apply(p, mv))
  {
    hide Conserved;
    StepConserves(p, mv);
  }

  // ---- Whole runs ----

  ghost predicate Reaches(p: Pool, mvs: seq<Move>, q: Pool)
    decreases |mvs|
  {
    if mvs == [] then p == q
    else Enabled(p, mvs[0]) && Reaches(Apply(p, mvs[0]), mvs[1..], q)
  }

  lemma StepKeeps(p: Pool, mv: Move)
    requires Enabled(p, mv)
    ensures var q := Apply(p, mv);
            && q.targets == p.targets && q.capacity == p.capacity && |q.workers| == |p.workers|
            && (q.cancelled <==> p.cancelled || mv == Cancel)
  {}

  lemma {:induction false} RunInv(p: Pool, mvs: seq<Move>, q: Pool)
    requires Inv(p) && Reaches(p, mvs, q)
    ensures Inv(q) && q.targets == p.targets && q.capacity == p.capacity && |q.workers| == |p.workers|
    ensures p.cancelled ==> q.cancelled
    ensures q.cancelled && !p.cancelled ==> Cancel in mvs
    decreases |mvs|
  {
    hide Inv, Apply, Enabled;
    if mvs != [] {
      StepInv(p, mvs[0]);
      StepKeeps(p, mvs[0]);
      RunInv(Apply(p, mvs[0]), mvs[1..], q);
    }
  }

  predicate Finished(p: Pool) { p.phase == Closed && p.results == [] }

  /** No target is ever probed twice, in any interleaving. */
  lemma ProbedAtMostOnce(targets: nat, workers: nat, capacity: nat, mvs: seq<Move>, p: Pool, i: nat)
    requires Reaches(Start(targets, workers, capacity), mvs, p)
    ensures p.probed[i] <= if i < targets then 1 else 0
  {
    StartInv(targets, workers, capacity);
    RunInv(Start(targets, workers, capacity), mvs, p);
    assert Places(p, i) == (if i < p.next then 1 else 0) && Outcomes(p, i) == p.probed[i];
    SumMono(p.workers, HoldsProbed(i), Holds(i));
  }

  /** Once the pool is finished, every target handed out was collected or dropped. */
  lemma FinishedCounts(p: Pool)
    requires Inv(p) && Finished(p)
    ensures p.done == |p.collected| && p.next <= p.targets
    ensures !p.cancelled ==> p.dropped == multiset{} && p.next == p.targets
    ensures forall i: nat :: multiset(p.collected)[i] + p.dropped[i] == if i < p.next then 1 else 0
    ensures forall i: nat :: multiset(p.collected)[i] == p.probed[i]
  {
    SumZero(p.workers, IsSending());
    forall i: nat
      ensures multiset(p.collected)[i] + p.dropped[i] == if i < p.next then 1 else 0
      ensures multiset(p.collected)[i] == p.probed[i]
    {
      SumZero(p.workers, Holds(i));
      SumZero(p.workers, HoldsProbed(i));
      assert Places(p, i) == (if i < p.next then 1 else 0) && Outcomes(p, i) == p.probed[i];
    }
  }

  /** When the result channel has closed and is drained, `done` is the number
      of results; without a cancellation they are a permutation of the
      targets, and with one no target occurs twice. */
  lemma FinishedPool(targets: nat, workers: nat, capacity: nat, mvs: seq<Move>, p: Pool)
    requires Reaches(Start(targets, workers, capacity), mvs, p) && Finished(p)
    ensures p.done == |p.collected|
    ensures multiset(p.collected) <= UpTo(targets) && multiset(p.collected) == p.probed
    ensures Cancel !in mvs ==> multiset(p.collected) == UpTo(targets) && p.done == targets
  {
    hide Inv, Reaches;
    StartInv(targets, workers, capacity);
    RunInv(Start(targets, workers, capacity), mvs, p);
    FinishedCounts(p);
    assert p.targets == targets && !Start(targets, workers, capacity).cancelled;
    forall i: nat ensures UpTo(targets)[i] == if i < targets then 1 else 0 { UpToCounts(targets, i); }
    assert multiset(p.collected) == p.probed;
    if Cancel !in mvs {
      assert multiset(p.collected) == UpTo(targets);
      UpToSize(targets);
    }
  }

  // ---- Progress ----

  function Rank(): Worker -> nat {
    (w: Worker) => match w
                   case Exited => 0
                   case Idle => 1
                   case Sending(_) => 3
                   case Probed(_) => 4
                   case Probing(_) => 5
                   case Got(_) => 6
  }

  function PhaseRank(p: Phase): nat { match p case Feeding => 2 case Waiting => 1 case Closed => 0 }

  /** How many steps a pool can still take at most. */
  function Remaining(p: Pool): nat
    requires p.next <= p.targets
  {
    6 * (p.targets - p.next) + Sum(p.workers, Rank()) + |p.results| + PhaseRank(p.phase)
    + (if p.cancelled then 0 else 1)
  }

  /** A worker's move takes it to a lower rank, or hands it one more target. */
  lemma WorkerProgress(p: Pool, mv: Move)
    requires Enabled(p, mv) && OfWorker(mv) && p.next <= p.targets
    ensures Apply(p, mv).next <= p.targets && Remaining(Apply(p, mv)) < Remaining(p)
  {
    hide Sum;
    SumUpdate(p.workers, mv.w, Apply(p, mv).workers[mv.w], Rank());
    assert Apply(p, mv).workers == p.workers[mv.w := Apply(p, mv).workers[mv.w]];
  }

  /** Every step makes progress, so every run ends. */
  lemma StepProgress(p: Pool, mv: Move)
    requires Enabled(p, mv) && Inv(p)
    ensures Apply(p, mv).next <= p.targets && Remaining(Apply(p, mv)) < Remaining(p)
  {
    hide Conserved, Sum;
    if OfWorker(mv) { WorkerProgress(p, mv); }
  }

  /** Until the pool is finished some step other than a cancellation is enabled. */
  lemma NeverStuck(p: Pool)
    requires Inv(p) && !Finished(p) && |p.workers| > 0 && p.capacity > 0
    ensures exists mv :: mv != Cancel && Enabled(p, mv)
  {
    hide Conserved;
    if p.results != [] {
      assert Enabled(p, Collect);
    } else if w :| 0 <= w < |p.workers| && p.workers[w] != Exited && p.workers[w] != Idle {
      assert Enabled(p, Check(w)) || Enabled(p, Probe(w)) || Enabled(p, Count(w)) || Enabled(p, Send(w));
    } else if p.phase == Feeding {
      assert p.workers[0] == Idle || p.workers[0] == Exited;
      assert Enabled(p, FeedEnd) || Enabled(p, FeedStop) || Enabled(p, Hand(0));
    } else if w :| 0 <= w < |p.workers| && p.workers[w] == Idle {
      assert Enabled(p, Leave(w));
    } else {
      assert Enabled(p, CloseResults);
    }
  }

  // ---- Cancellation ----

  function IsProbing(): Worker -> nat { (w: Worker) => if w.Probing? then 1 else 0 }

  /** Once cancelled a pool probes no target but those already being probed. */
  lemma {:induction false} CancelStops(p: Pool, mvs: seq<Move>, q: Pool)
    requires Reaches(p, mvs, q) && p.cancelled
    ensures |q.probed| + Sum(q.workers, IsProbing()) <= |p.probed| + Sum(p.workers, IsProbing())
    decreases |mvs|
  {
    if mvs != [] {
      CancelledStep(p, mvs[0]);
      StepKeeps(p, mvs[0]);
      hide Apply, Enabled;
      CancelStops(Apply(p, mvs[0]), mvs[1..], q);
    }
  }

  lemma CancelledStep(p: Pool, mv: Move)
    requires Enabled(p, mv) && p.cancelled
    ensures |Apply(p, mv).probed| + Sum(Apply(p, mv).workers, IsProbing()) <= |p.probed| + Sum(p.workers, IsProbing())
  {
    hide Sum;
    if OfWorker(mv) { SumUpdate(p.workers, mv.w, Apply(p, mv).workers[mv.w], IsProbing()); }
  }
}
