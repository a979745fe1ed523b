/** The import's worker pool as a step system: a producer on a buffered job
    channel, workers that bump shared counters and fill result slots, and a
    user who may cancel. A conversion's outcome is arbitrary. */
module ImportPool {
  import opened PoolSums

  datatype Outcome = Skips | Converts | Fails

  /** Where a worker stands: the counters are bumped one atomic step at a time,
      then the slot is written, then `done` is bumped. */
  datatype Worker =
    | Idle | Got(i: nat) | Working(i: nat) | Skipping(i: nat)
    | Judged(i: nat, good: bool, skipped: bool) | Written(i: nat) | Exited

  datatype Producer = At(n: nat) | Offer(n: nat) | Delay(n: nat) | Closing | Waiting | Finished

  datatype Slot = Empty | Filled(index: nat, good: bool, skipped: bool)

  datatype Pool = Pool(
    items: nat, capacity: nat, stagger: bool, producer: Producer, workers: seq<Worker>,
    queue: seq<nat>, slots: seq<Slot>, sent: nat, ok: nat, fail: nat, skip: nat, done: nat,
    cancelled: bool, dropped: multiset<nat>)

  /** At least one worker was asked for, and never more than there are items. */
  function PoolSize(items: nat, requested: int): nat {
    var w := if requested < 1 then 1 else requested;
    if w > items then items else w
  }

  function Start(items: nat, requested: int, stagger: bool): Pool {
    var workers := PoolSize(items, requested);
    Pool(items, 2 * workers, stagger, At(0), seq(workers, _ => Idle), [], seq(items, _ => Empty),
         0, 0, 0, 0, 0, false, multiset{})
  }

  datatype Move =
    | Cancel | Look | Put | Quit | Tick | Close | Join
    | Receive(w: nat) | Leave(w: nat) | Check(w: nat) | Judge(w: nat, outcome: Outcome)
    | CountSkip(w: nat) | Write(w: nat) | CountDone(w: nat)

  predicate OfWorker(mv: Move) {
    mv.Receive? || mv.Leave? || mv.Check? || mv.Judge? || mv.CountSkip? || mv.Write? || mv.CountDone?
  }

  predicate ChannelClosed(p: Pool) { p.producer.Waiting? || p.producer.Finished? }

  predicate Enabled(p: Pool, mv: Move) {
    match mv
    case Cancel => !p.cancelled
    case Look => p.producer.At?
    case Put => p.producer.Offer? && |p.queue| < p.capacity
    case Quit => (p.producer.Offer? || p.producer.Delay?) && p.cancelled
    case Tick => p.producer.Delay?
    case Close => p.producer.Closing?
    case Join => p.producer.Waiting? && forall w :: 0 <= w < |p.workers| ==> p.workers[w] == Exited
    case Receive(w) => w < |p.workers| && p.workers[w] == Idle && p.queue != []
    case Leave(w) => w < |p.workers| && p.workers[w] == Idle && p.queue == [] && ChannelClosed(p)
    case Check(w) => w < |p.workers| && p.workers[w].Got?
    case Judge(w, _) => w < |p.workers| && p.workers[w].Working?
    case CountSkip(w) => w < |p.workers| && p.workers[w].Skipping?
    case Write(w) => w < |p.workers| && p.workers[w].Judged?
    case CountDone(w) => w < |p.workers| && p.workers[w].Written?
  }

  function Become(p: Pool, w: nat, x: Worker): Pool
    requires w < |p.workers|
  {
    p.(workers := p.workers[w := x])
  }

  function Apply(p: Pool, mv: Move): Pool
    requires Enabled(p, mv)
  {
    match mv
    case Cancel => p.(cancelled := true)
    case Look =>
      var n := p.producer.n;
      p.(producer := if n < p.items && !p.cancelled then Offer(n) else Closing)
    case Put =>
      var n := p.producer.n;
      p.(queue := p.queue + [n], sent := p.sent + 1,
         producer := if p.stagger && n + 1 < p.items then Delay(n) else At(n + 1))
    case Quit => p.(producer := Closing)
    case Tick => p.(producer := At(p.producer.n + 1))
    case Close => p.(producer := Waiting)
    case Join => p.(producer := Finished)
    case Receive(w) => Become(p, w, Got(p.queue[0])).(queue := p.queue[1..])
    case Leave(w) => Become(p, w, Exited)
    case Check(w) =>
      if p.cancelled then Become(p, w, Exited).(dropped := p.dropped + multiset{p.workers[w].i})
      else Become(p, w, Working(p.workers[w].i))
    case Judge(w, Skips) => Become(p, w, Skipping(p.workers[w].i)).(ok := p.ok + 1)
    case Judge(w, Converts) => Become(p, w, Judged(p.workers[w].i, true, false)).(ok := p.ok + 1)
    case Judge(w, Fails) => Become(p, w, Judged(p.workers[w].i, false, false)).(fail := p.fail + 1)
    case CountSkip(w) => Become(p, w, Judged(p.workers[w].i, true, true)).(skip := p.skip + 1)
    case Write(w) =>
      var j := p.workers[w];
      Become(p, w, Written(j.i)).(
        slots := if j.i < |p.slots| then p.slots[j.i := Filled(j.i + 1, j.good, j.skipped)] else p.slots)
    case CountDone(w) => Become(p, w, Idle).(done := p.done + 1)
  }

  // ---- What every step keeps ----

  function Holds(i: nat): Worker -> nat {
    (w: Worker) => if (w.Got? || w.Working? || w.Skipping? || w.Judged?) && w.i == i then 1 else 0
  }

  function OkPending(): Worker -> nat { (w: Worker) => if w.Skipping? || (w.Judged? && w.good) then 1 else 0 }
  function FailPending(): Worker -> nat { (w: Worker) => if w.Judged? && !w.good then 1 else 0 }
  function SkipPending(): Worker -> nat { (w: Worker) => if w.Judged? && w.good && w.skipped then 1 else 0 }
  function DonePending(): Worker -> nat { (w: Worker) => if w.Written? then 1 else 0 }

  function SlotOk(): Slot -> nat { (s: Slot) => if s.Filled? && s.good then 1 else 0 }
  function SlotFail(): Slot -> nat { (s: Slot) => if s.Filled? && !s.good then 1 else 0 }
  function SlotSkip(): Slot -> nat { (s: Slot) => if s.Filled? && s.good && s.skipped then 1 else 0 }
  function SlotFull(): Slot -> nat { (s: Slot) => if s.Filled? then 1 else 0 }

  /** In how many places item `i` is: queued, with a worker, in its slot, or dropped. */
  function Places(p: Pool, i: nat): nat {
    Times(p.queue, i) + Sum(p.workers, Holds(i))
    + (if i < |p.slots| && p.slots[i].Filled? then 1 else 0) + p.dropped[i]
  }

  ghost predicate Conserved(p: Pool) {
    forall i: nat :: Places(p, i) == if i < p.sent then 1 else 0
  }

  function OkTotal(p: Pool): nat { Sum(p.slots, SlotOk()) + Sum(p.workers, OkPending()) }
  function FailTotal(p: Pool): nat { Sum(p.slots, SlotFail()) + Sum(p.workers, FailPending()) }
  function SkipTotal(p: Pool): nat { Sum(p.slots, SlotSkip()) + Sum(p.workers, SkipPending()) }
  function DoneTotal(p: Pool): int { Sum(p.slots, SlotFull()) - Sum(p.workers, DonePending()) }

  /** Each counter is what the slots show plus what workers have yet to write;
      `done` lags behind the slots. */
  ghost predicate Balanced(p: Pool) {
    p.ok == OkTotal(p) && p.fail == FailTotal(p) && p.skip == SkipTotal(p) && p.done == DoneTotal(p)
  }

  ghost predicate Placed(p: Pool) {
    && |p.slots| == p.items && p.sent <= p.items
    && (forall i :: 0 <= i < |p.slots| && p.slots[i].Filled? ==> p.slots[i].index == i + 1)
    && match p.producer
       case At(n) => n == p.sent
       case Offer(n) => n == p.sent < p.items
       case Delay(n) => n + 1 == p.sent < p.items && p.stagger
       case _ => p.sent < p.items ==> p.cancelled
  }

  ghost predicate Drained(p: Pool) {
    && (!p.cancelled ==> p.dropped == multiset{})
    && (forall w :: 0 <= w < |p.workers| && p.workers[w] == Exited && !p.cancelled ==>
          ChannelClosed(p) && p.queue == [])
    && (p.producer.Finished? ==> forall w :: 0 <= w < |p.workers| ==> p.workers[w] == Exited)
  }

  ghost predicate Inv(p: Pool) { Conserved(p) && Balanced(p) && Placed(p) && Drained(p) }

  lemma StartInv(items: nat, requested: int, stagger: bool)
    ensures Inv(Start(items, requested, stagger))
  {
    var p := Start(items, requested, stagger);
    forall i: nat ensures Places(p, i) == 0 { SumZero(p.workers, Holds(i)); }
    SumZero(p.workers, OkPending());
    SumZero(p.workers, FailPending());
    SumZero(p.workers, SkipPending());
    SumZero(p.workers, DonePending());
    SumZero(p.slots, SlotOk());
    SumZero(p.slots, SlotFail());
    SumZero(p.slots, SlotSkip());
    SumZero(p.slots, SlotFull());
  }

  /** A worker about to write finds its slot inside the table and empty. */
  lemma SlotIsFree(p: Pool, w: nat)
    requires Conserved(p) && Placed(p) && w < |p.workers| && p.workers[w].Judged?
    ensures p.workers[w].i < |p.slots| && p.slots[p.workers[w].i] == Empty
  {
    var i := p.workers[w].i;
    SumAt(p.workers, w, Holds(i));
    assert Places(p, i) == if i < p.sent then 1 else 0;
  }

  lemma WorkerPlaces(p: Pool, mv: Move, i: nat)
    requires Enabled(p, mv) && OfWorker(mv) && Conserved(p) && Placed(p)
    ensures Places(Apply(p, mv), i) == Places(p, i)
  {
    hide Times, Sum, Conserved;
    var q := Apply(p, mv);
    SumUpdate(p.workers, mv.w, q.workers[mv.w], Holds(i));
    if mv.Receive? { TimesTail(p.queue, i); }
    if mv.Write? { SlotIsFree(p, mv.w); }
  }

  /** A step moves items between places; only Put adds one. */
  lemma StepPlaces(p: Pool, mv: Move, i: nat)
    requires Enabled(p, mv) && Conserved(p) && Placed(p)
    ensures Places(Apply(p, mv), i) == Places(p, i) + (if mv.Put? && i == p.sent then 1 else 0)
  {
    hide Times, Sum, Conserved;
    var q := Apply(p, mv);
    if OfWorker(mv) {
      WorkerPlaces(p, mv, i);
    } else if mv.Put? {
      TimesAppend(p.queue, p.producer.n, i);
    }
  }

  lemma StepConserves(p: Pool, mv: Move)
    requires Enabled(p, mv) && Conserved(p) && Placed(p)
    ensures Conserved(Apply(p, mv))
  {
    var q := Apply(p, mv);
    assert q.sent == if mv.Put? then p.sent + 1 else p.sent;
    hide Places, Apply, Placed;
    forall i: nat ensures Places(q, i) == if i < q.sent then 1 else 0 { StepPlaces(p, mv, i); }
  }

  /** A write goes to an empty slot of the table. */
  predicate WritesFree(p: Pool, mv: Move)
    requires Enabled(p, mv)
  {
    mv.Write? ==> p.workers[mv.w].i < |p.slots| && p.slots[p.workers[mv.w].i] == Empty
  }

  lemma StepOk(p: Pool, mv: Move)
    requires Enabled(p, mv) && WritesFree(p, mv)
    ensures Apply(p, mv).ok - OkTotal(Apply(p, mv)) == p.ok - OkTotal(p)
  {
    hide Sum;
    var q := Apply(p, mv);
    if OfWorker(mv) { SumUpdate(p.workers, mv.w, q.workers[mv.w], OkPending()); }
    if mv.Write? { SumUpdate(p.slots, p.workers[mv.w].i, q.slots[p.workers[mv.w].i], SlotOk()); }
  }

  lemma StepFail(p: Pool, mv: Move)
    requires Enabled(p, mv) && WritesFree(p, mv)
    ensures Apply(p, mv).fail - FailTotal(Apply(p, mv)) == p.fail - FailTotal(p)
  {
    hide Sum;
    var q := Apply(p, mv);
    if OfWorker(mv) { SumUpdate(p.workers, mv.w, q.workers[mv.w], FailPending()); }
    if mv.Write? { SumUpdate(p.slots, p.workers[mv.w].i, q.slots[p.workers[mv.w].i], SlotFail()); }
  }

  lemma StepSkip(p: Pool, mv: Move)
    requires Enabled(p, mv) && WritesFree(p, mv)
    ensures Apply(p, mv).skip - SkipTotal(Apply(p, mv)) == p.skip - SkipTotal(p)
  {
    hide Sum;
    var q := Apply(p, mv);
    if OfWorker(mv) { SumUpdate(p.workers, mv.w, q.workers[mv.w], SkipPending()); }
    if mv.Write? { SumUpdate(p.slots, p.workers[mv.w].i, q.slots[p.workers[mv.w].i], SlotSkip()); }
  }

  lemma StepDone(p: Pool, mv: Move)
    requires Enabled(p, mv) && WritesFree(p, mv)
    ensures Apply(p, mv).done - DoneTotal(Apply(p, mv)) == p.done - DoneTotal(p)
  {
    hide Sum;
    var q := Apply(p, mv);
    if OfWorker(mv) { SumUpdate(p.workers, mv.w, q.workers[mv.w], DonePending()); }
    if mv.Write? { SumUpdate(p.slots, p.workers[mv.w].i, q.slots[p.workers[mv.w].i], SlotFull()); }
  }

  lemma StepBalances(p: Pool, mv: Move)
    requires Enabled(p, mv) && Conserved(p) && Placed(p) && Balanced(p)
    ensures Balanced(Apply(p, mv))
  {
    if mv.Write? { SlotIsFree(p, mv.w); }
    hide Apply, OkTotal, FailTotal, SkipTotal, DoneTotal, Conserved, Placed;
    StepOk(p, mv);
    StepFail(p, mv);
    StepSkip(p, mv);
    StepDone(p, mv);
  }

  lemma StepPlaced(p: Pool, mv: Move)
    requires Enabled(p, mv) && Placed(p)
    ensures Placed(Apply(p, mv))
  {}

  lemma StepDrained(p: Pool, mv: Move)
    requires Enabled(p, mv) && Drained(p)
    ensures Drained(Apply(p, mv))
  {}

  lemma StepInv(p: Pool, mv: Move)
    requires Enabled(p, mv) && Inv(p)
    ensures Inv(Apply(p, mv))
  {
    hide Conserved, Balanced, Placed, Drained, Apply, Enabled;
    StepConserves(p, mv);
    StepBalances(p, mv);
    StepPlaced(p, mv);
    StepDrained(p, mv);
  }

  // ---- Whole runs ----

  ghost predicate Reaches(p: Pool, mvs: seq<Move>, q: Pool)
    decreases |mvs|
  {
    if mvs == [] then p == q
    else Enabled(p, mvs[0]) && Reaches(Apply(p, mvs[0]), mvs[1..], q)
  }

  lemma StepKeeps(p: Pool, mv: Move)
    requires Enabled(p, mv)
    ensures var q := Apply(p, mv);
            && q.items == p.items && q.capacity == p.capacity && |q.workers| == |p.workers|
            && |q.slots| == |p.slots| && (q.cancelled <==> p.cancelled || mv == Cancel)
  {}

  lemma {:induction false} RunInv(p: Pool, mvs: seq<Move>, q: Pool)
    requires Inv(p) && Reaches(p, mvs, q)
    ensures Inv(q) && q.items == p.items && q.capacity == p.capacity && |q.workers| == |p.workers|
    ensures q.cancelled && !p.cancelled ==> Cancel in mvs
    decreases |mvs|
  {
    hide Inv, Apply, Enabled;
    if mvs != [] {
      StepInv(p, mvs[0]);
      StepKeeps(p, mvs[0]);
      RunInv(Apply(p, mvs[0]), mvs[1..], q);
    }
  }

  function FilledSlots(p: Pool): nat { Sum(p.slots, SlotFull()) }

  /** At every moment of every interleaving the counters are within one item
      per worker of each other. */
  lemma CountersTrack(p: Pool)
    requires Inv(p)
    ensures p.done <= FilledSlots(p) <= p.ok + p.fail <= p.done + |p.workers|
    ensures p.skip <= p.ok
  {
    hide Conserved, Placed, Drained;
    var ws := p.workers;
    SumAdd(p.slots, SlotOk(), SlotFail(), SlotFull());
    SumMono(p.slots, SlotSkip(), SlotOk());
    SumMono(ws, SkipPending(), OkPending());
    var busy: Worker -> nat := (w: Worker) => OkPending()(w) + FailPending()(w);
    var all: Worker -> nat := (w: Worker) => busy(w) + DonePending()(w);
    SumAdd(ws, OkPending(), FailPending(), busy);
    SumAdd(ws, busy, DonePending(), all);
    SumBound(ws, all, 1);
  }

  /** A filled slot is never written again. */
  lemma SlotWrittenOnce(p: Pool, mv: Move, i: nat)
    requires Enabled(p, mv) && Inv(p) && i < |p.slots| && p.slots[i].Filled?
    ensures Apply(p, mv).slots[i] == p.slots[i] && p.slots[i].index == i + 1
  {
    hide Conserved, Balanced;
    if mv.Write? { SlotIsFree(p, mv.w); }
  }

  lemma AllOut(p: Pool)
    requires Inv(p) && forall w :: 0 <= w < |p.workers| ==> p.workers[w] == Exited
    ensures p.done == FilledSlots(p) == p.ok + p.fail
    ensures p.ok == Sum(p.slots, SlotOk()) && p.fail == Sum(p.slots, SlotFail()) && p.skip == Sum(p.slots, SlotSkip())
  {
    hide Conserved, Placed, Drained;
    SumZero(p.workers, OkPending());
    SumZero(p.workers, FailPending());
    SumZero(p.workers, SkipPending());
    SumZero(p.workers, DonePending());
    SumAdd(p.slots, SlotOk(), SlotFail(), SlotFull());
  }

  /** Uncancelled and with all workers gone, item `i` can only be in its slot. */
  lemma ItemLanded(p: Pool, i: nat)
    requires Inv(p) && p.producer.Finished? && !p.cancelled && |p.workers| > 0 && i < p.items
    ensures p.slots[i].Filled? && p.slots[i].index == i + 1
  {
    hide Balanced;
    assert p.workers[0] == Exited && p.queue == [];
    SumZero(p.workers, Holds(i));
    assert Places(p, i) == if i < p.sent then 1 else 0;
  }

  /** After the final wait every counter equals what the slots show; without a
      cancellation every slot is filled, with its own index. */
  lemma FinishedImport(items: nat, requested: int, stagger: bool, mvs: seq<Move>, p: Pool)
    requires Reaches(Start(items, requested, stagger), mvs, p) && p.producer.Finished?
    ensures p.done == FilledSlots(p) == p.ok + p.fail
    ensures p.ok == Sum(p.slots, SlotOk()) && p.fail == Sum(p.slots, SlotFail()) && p.skip == Sum(p.slots, SlotSkip())
    ensures Cancel !in mvs ==>
              && p.done == items == |p.slots|
              && forall i :: 0 <= i < items ==> p.slots[i].Filled? && p.slots[i].index == i + 1
  {
    StartInv(items, requested, stagger);
    RunInv(Start(items, requested, stagger), mvs, p);
    AllOut(p);
    hide Reaches, Conserved, Balanced;
    if Cancel !in mvs {
      forall i | 0 <= i < items ensures p.slots[i].Filled? && p.slots[i].index == i + 1 { ItemLanded(p, i); }
      SumOnes(p.slots, SlotFull());
    }
  }

  // ---- Progress ----

  function Rank(): Worker -> nat {
    (w: Worker) => match w
                   case Exited => 0
                   case Idle => 1
                   case Written(_) => 2
                   case Judged(_, _, _) => 3
                   case Skipping(_) => 4
                   case Working(_) => 5
                   case Got(_) => 6
  }

  /** Three producer steps and one queue place per unsent item, then three to end. */
  function ProducerRank(p: Pool): nat
    requires Placed(p)
  {
    match p.producer
    case At(n) => 9 * (p.items - n) + 5
    case Offer(n) => 9 * (p.items - n) + 4
    case Delay(n) => 9 * (p.items - n) - 3
    case Closing => 2
    case Waiting => 1
    case Finished => 0
  }

  function Remaining(p: Pool): int
    requires Placed(p)
  {
    ProducerRank(p) + 6 * |p.queue| + Sum(p.workers, Rank()) + (if p.cancelled then 0 else 1)
  }

  /** Every step makes progress, so every run ends, cancelled or not. */
  lemma StepProgress(p: Pool, mv: Move)
    requires Enabled(p, mv) && Placed(p)
    ensures Placed(Apply(p, mv)) && 0 <= Remaining(Apply(p, mv)) < Remaining(p)
  {
    StepPlaced(p, mv);
    if OfWorker(mv) { WorkerProgress(p, mv); } else { ProducerProgress(p, mv); }
  }

  lemma WorkerProgress(p: Pool, mv: Move)
    requires Enabled(p, mv) && Placed(p) && OfWorker(mv) && Placed(Apply(p, mv))
    ensures 0 <= Remaining(Apply(p, mv)) < Remaining(p)
  {
    hide Placed, Sum;
    var q := Apply(p, mv);
    assert q.producer == p.producer && q.items == p.items && ProducerRank(q) == ProducerRank(p);
    hide ProducerRank;
    SumUpdate(p.workers, mv.w, q.workers[mv.w], Rank());
  }

  lemma ProducerProgress(p: Pool, mv: Move)
    requires Enabled(p, mv) && Placed(p) && !OfWorker(mv) && Placed(Apply(p, mv))
    ensures 0 <= Remaining(Apply(p, mv)) < Remaining(p)
  {}

  /** What a worker that holds an item does next. */
  function NextOf(p: Pool, w: nat): Move
    requires w < |p.workers|
  {
    match p.workers[w]
    case Got(_) => Check(w)
    case Working(_) => Judge(w, Fails)
    case Skipping(_) => CountSkip(w)
    case Judged(_, _, _) => Write(w)
    case _ => CountDone(w)
  }

  /** Some move of an idle worker, the producer or the final wait is possible
      once no worker holds an item. */
  lemma RestingMove(p: Pool) returns (mv: Move)
    requires !p.producer.Finished? && (p.producer.Offer? ==> |p.workers| > 0 && p.capacity > 0)
    requires forall w :: 0 <= w < |p.workers| ==> p.workers[w] == Exited || p.workers[w] == Idle
    requires forall w :: 0 <= w < |p.workers| && p.workers[w] == Exited && !p.cancelled ==> ChannelClosed(p)
    ensures mv != Cancel && (p.cancelled ==> mv != Tick) && Enabled(p, mv)
  {
    if p.producer.At? {
      mv := Look;
    } else if p.producer.Delay? {
      mv := if p.cancelled then Quit else Tick;
    } else if p.producer.Closing? {
      mv := Close;
    } else if w :| 0 <= w < |p.workers| && p.workers[w] == Idle {
      mv := if p.queue != [] then Receive(w) else if p.producer.Offer? then Put else Leave(w);
    } else if p.producer.Waiting? {
      mv := Join;
    } else {
      assert p.workers[0] == Exited;
      mv := Quit;
    }
  }

  /** What every reachable pool shares with its start. */
  lemma ReachedShape(items: nat, requested: int, stagger: bool, mvs: seq<Move>, p: Pool)
    requires Reaches(Start(items, requested, stagger), mvs, p)
    ensures Inv(p) && p.items == items && (items > 0 ==> |p.workers| > 0 && p.capacity > 0)
  {
    StartInv(items, requested, stagger);
    RunInv(Start(items, requested, stagger), mvs, p);
    hide Reaches, Inv;
  }

  /** Until the import has finished some step other than a cancellation is enabled,
      and after one some step that does not wait for the clock: a cancellation never
      leaves it waiting. */
  lemma NeverStuck(items: nat, requested: int, stagger: bool, mvs: seq<Move>, p: Pool)
    requires Reaches(Start(items, requested, stagger), mvs, p) && !p.producer.Finished?
    ensures exists mv :: mv != Cancel && (p.cancelled ==> mv != Tick) && Enabled(p, mv)
  {
    ReachedShape(items, requested, stagger, mvs, p);
    hide Conserved, Balanced, Reaches, Enabled, Start;
    if w :| 0 <= w < |p.workers| && p.workers[w] != Exited && p.workers[w] != Idle {
      BusyMove(p, w);
    } else {
      var mv := RestingMove(p);
    }
  }

  lemma BusyMove(p: Pool, w: nat)
    requires w < |p.workers| && p.workers[w] != Exited && p.workers[w] != Idle
    ensures Enabled(p, NextOf(p, w)) && NextOf(p, w) != Cancel
  {}
}
