/** What the import's counters and result slots say of the outcomes of its items. */
module ImportOutcomes {
  import opened PoolSums
  import opened ImportPool

  // ---- Counters ----

  function CountMoves(c: Move -> bool, mvs: seq<Move>): nat {
    if mvs == [] then 0 else (if c(mvs[0]) then 1 else 0) + CountMoves(c, mvs[1..])
  }

  /** An item that converts or is skipped is counted as ok and one that fails as
      failed; a skip is counted once more, and each item once when it is done. */
  lemma {:induction false} CountersTell(p: Pool, mvs: seq<Move>, q: Pool)
    requires Reaches(p, mvs, q)
    ensures q.ok == p.ok + CountMoves((mv: Move) => mv.Judge? && mv.outcome in {Converts, Skips}, mvs)
    ensures q.fail == p.fail + CountMoves((mv: Move) => mv.Judge? && mv.outcome == Fails, mvs)
    ensures q.skip == p.skip + CountMoves((mv: Move) => mv.CountSkip?, mvs)
    ensures q.done == p.done + CountMoves((mv: Move) => mv.CountDone?, mvs)
    decreases |mvs|
  {
    if mvs != [] {
      StepTells(p, mvs[0]);
      hide Apply, Enabled;
      CountersTell(Apply(p, mvs[0]), mvs[1..], q);
    }
  }

  lemma StepTells(p: Pool, mv: Move)
    requires Enabled(p, mv)
    ensures var q := Apply(p, mv);
            && q.ok == p.ok + (if mv.Judge? && mv.outcome in {Converts, Skips} then 1 else 0)
            && q.fail == p.fail + (if mv.Judge? && mv.outcome == Fails then 1 else 0)
            && q.skip == p.skip + (if mv.CountSkip? then 1 else 0)
            && q.done == p.done + (if mv.CountDone? then 1 else 0)
  {}

  // ---- Slots ----

  /** The outcomes so far, by item. */
  function Noted(p: Pool, mv: Move, v: map<nat, Outcome>): map<nat, Outcome>
    requires Enabled(p, mv)
  {
    if mv.Judge? then v[p.workers[mv.w].i := mv.outcome] else v
  }

  /** The outcome of item `i` is kept as it was: a failure is not good, and a skip is
      good and marked. */
  predicate Says(v: map<nat, Outcome>, i: nat, good: bool, skipped: bool) {
    i in v && (good <==> v[i] in {Converts, Skips}) && (skipped <==> v[i] == Skips)
  }

  /** Workers that have judged, and slots that are filled, keep the outcomes. */
  ghost predicate Tells(p: Pool, v: map<nat, Outcome>) {
    && (forall w :: 0 <= w < |p.workers| && p.workers[w].Skipping? ==>
          p.workers[w].i in v && v[p.workers[w].i] == Skips)
    && (forall w :: 0 <= w < |p.workers| && p.workers[w].Judged? ==>
          Says(v, p.workers[w].i, p.workers[w].good, p.workers[w].skipped))
    && (forall i :: 0 <= i < |p.slots| && p.slots[i].Filled? ==> Says(v, i, p.slots[i].good, p.slots[i].skipped))
  }

  /** An item with a worker is with no other worker and not in its slot. */
  lemma HeldAlone(p: Pool, w: nat)
    requires Inv(p) && w < |p.workers| && p.workers[w].Working?
    ensures var i := p.workers[w].i;
            && (forall x :: 0 <= x < |p.workers| && x != w && (p.workers[x].Skipping? || p.workers[x].Judged?) ==>
                  p.workers[x].i != i)
            && (i < |p.slots| ==> p.slots[i] == Empty)
  {
    hide Balanced, Placed, Drained;
    var i := p.workers[w].i;
    assert Places(p, i) == if i < p.sent then 1 else 0;
    SumAt(p.workers, w, Holds(i));
    forall x | 0 <= x < |p.workers| && x != w && (p.workers[x].Skipping? || p.workers[x].Judged?)
      ensures p.workers[x].i != i
    {
      SumTwo(p.workers, w, x, Holds(i));
    }
  }

  lemma JudgedPool(p: Pool, mv: Move)
    requires Enabled(p, mv) && mv.Judge?
    ensures mv.w < |p.workers| && p.workers[mv.w].Working?
    ensures var i, q := p.workers[mv.w].i, Apply(p, mv);
            && q.slots == p.slots
            && q.workers == p.workers[mv.w := match mv.outcome
                                             case Skips => Skipping(i)
                                             case Converts => Judged(i, true, false)
                                             case Fails => Judged(i, false, false)]
  {}

  lemma JudgeTells(p: Pool, mv: Move, v: map<nat, Outcome>)
    requires Enabled(p, mv) && mv.Judge? && Inv(p) && Tells(p, v)
    ensures Tells(Apply(p, mv), Noted(p, mv, v))
  {
    hide Inv, Apply, Enabled;
    JudgedPool(p, mv);
    HeldAlone(p, mv.w);
  }

  lemma StepKeepsTelling(p: Pool, mv: Move, v: map<nat, Outcome>)
    requires Enabled(p, mv) && Inv(p) && Tells(p, v)
    ensures Tells(Apply(p, mv), Noted(p, mv, v))
  {
    hide Inv;
    if mv.Judge? {
      JudgeTells(p, mv, v);
    } else if OfWorker(mv) {
      WorkerTells(p, mv, v);
    }
  }

  lemma WorkerTells(p: Pool, mv: Move, v: map<nat, Outcome>)
    requires Enabled(p, mv) && OfWorker(mv) && !mv.Judge? && Tells(p, v)
    ensures Tells(Apply(p, mv), v)
  {}

  /** The outcomes a run notes, after `v`. */
  ghost function Outcomes(p: Pool, mvs: seq<Move>, v: map<nat, Outcome>): map<nat, Outcome>
    decreases |mvs|
  {
    if mvs == [] || !Enabled(p, mvs[0]) then v else Outcomes(Apply(p, mvs[0]), mvs[1..], Noted(p, mvs[0], v))
  }

  lemma {:induction false} RunTells(p: Pool, mvs: seq<Move>, q: Pool, v: map<nat, Outcome>)
    requires Inv(p) && Tells(p, v) && Reaches(p, mvs, q)
    ensures Tells(q, Outcomes(p, mvs, v))
    decreases |mvs|
  {
    hide Inv, Apply, Tells, Enabled, Noted;
    if mvs != [] {
      StepInv(p, mvs[0]);
      StepKeepsTelling(p, mvs[0], v);
      RunTells(Apply(p, mvs[0]), mvs[1..], q, Noted(p, mvs[0], v));
    }
  }

  /** In every reachable state a filled slot tells the outcome of its own item: good
      unless it failed, and marked exactly when it was skipped. */
  lemma SlotsTell(items: nat, requested: int, stagger: bool, mvs: seq<Move>, p: Pool, i: nat)
    requires Reaches(Start(items, requested, stagger), mvs, p) && i < |p.slots| && p.slots[i].Filled?
    ensures var v := Outcomes(Start(items, requested, stagger), mvs, map[]);
            && i in v && (p.slots[i].good <==> v[i] in {Converts, Skips}) && (p.slots[i].skipped <==> v[i] == Skips)
  {
    StartInv(items, requested, stagger);
    StartTells(items, requested, stagger);
    RunTells(Start(items, requested, stagger), mvs, p, map[]);
    hide Start, Outcomes, Reaches, Inv;
  }

  lemma StartTells(items: nat, requested: int, stagger: bool)
    ensures Tells(Start(items, requested, stagger), map[])
  {}

  // ---- Size and cancellation ----

  /** An import has as many workers as asked for, at least one and no more than items. */
  lemma WorkersAsked(items: nat, requested: int, stagger: bool)
    ensures var n := |Start(items, requested, stagger).workers|;
            && n <= items && (items > 0 ==> n > 0)
            && (1 <= requested <= items ==> n == requested) && (requested > items ==> n == items)
            && (requested < 1 <= items ==> n == 1)
            && Start(items, requested, stagger).capacity == n + n
  {}

  function IsWorking(): Worker -> nat { (w: Worker) => if w.Working? then 1 else 0 }

  /** Once cancelled an import judges no item but those already being worked on. */
  lemma {:induction false} CancelStops(p: Pool, mvs: seq<Move>, q: Pool)
    requires Reaches(p, mvs, q) && p.cancelled
    ensures CountMoves((mv: Move) => mv.Judge?, mvs) + Sum(q.workers, IsWorking()) <= Sum(p.workers, IsWorking())
    decreases |mvs|
  {
    if mvs != [] {
      CancelledStep(p, mvs[0]);
      StepKeeps(p, mvs[0]);
      hide Apply, Enabled;
      CancelStops(Apply(p, mvs[0]), mvs[1..], q);
    }
  }

  lemma CancelledStep(p: Pool, mv: Move)
    requires Enabled(p, mv) && p.cancelled
    ensures (if mv.Judge? then 1 else 0) + Sum(Apply(p, mv).workers, IsWorking()) <= Sum(p.workers, IsWorking())
  {
    hide Sum;
    if OfWorker(mv) { SumUpdate(p.workers, mv.w, Apply(p, mv).workers[mv.w], IsWorking()); }
  }

  /** Once cancelled an import launches no item but the one it is offering. */
  lemma {:induction false} CancelStopsLaunching(p: Pool, mvs: seq<Move>, q: Pool)
    requires Reaches(p, mvs, q) && p.cancelled
    ensures q.sent <= p.sent + if p.producer.Offer? then 1 else 0
    decreases |mvs|
  {
    if mvs != [] {
      CancelledLaunch(p, mvs[0]);
      StepKeeps(p, mvs[0]);
      hide Apply, Enabled;
      CancelStopsLaunching(Apply(p, mvs[0]), mvs[1..], q);
    }
  }

  lemma CancelledLaunch(p: Pool, mv: Move)
    requires Enabled(p, mv) && p.cancelled
    ensures var q := Apply(p, mv);
            q.sent + (if q.producer.Offer? then 1 else 0) <= p.sent + if p.producer.Offer? then 1 else 0
  {}

  // ---- Staggered launches ----

  /** The delays before the next launch, or before the last one when there is none. */
  function Due(p: Pool): nat {
    if !p.stagger then 0
    else match p.producer
      case At(n) => if n < p.items then n else if n > 0 then n - 1 else 0
      case Offer(n) => n
      case Delay(n) => n
      case _ => if p.sent > 0 then p.sent - 1 else 0
  }

  lemma StepDue(p: Pool, mv: Move)
    requires Enabled(p, mv) && Placed(p)
    ensures Due(Apply(p, mv)) <= Due(p) + if mv == Tick then 1 else 0
    ensures !Apply(p, mv).cancelled ==> Due(Apply(p, mv)) == Due(p) + if mv == Tick then 1 else 0
  {}

  lemma StepStaggers(p: Pool, mv: Move)
    requires Enabled(p, mv)
    ensures Apply(p, mv).stagger == p.stagger
  {}

  lemma {:induction false} RunDue(p: Pool, mvs: seq<Move>, q: Pool)
    requires Inv(p) && Reaches(p, mvs, q)
    ensures q.stagger == p.stagger
    ensures var ticks := CountMoves((mv: Move) => mv == Tick, mvs);
            Due(q) <= Due(p) + ticks && (!q.cancelled ==> Due(q) == Due(p) + ticks)
    decreases |mvs|
  {
    if mvs != [] {
      StepInv(p, mvs[0]);
      StepDue(p, mvs[0]);
      StepStaggers(p, mvs[0]);
      hide Inv, Due, Enabled, Apply;
      if Apply(p, mvs[0]).cancelled { CancelStays(Apply(p, mvs[0]), mvs[1..], q); }
      RunDue(Apply(p, mvs[0]), mvs[1..], q);
    }
  }

  lemma {:induction false} CancelStays(p: Pool, mvs: seq<Move>, q: Pool)
    requires Reaches(p, mvs, q) && p.cancelled
    ensures q.cancelled
    decreases |mvs|
  {
    if mvs != [] {
      StepKeeps(p, mvs[0]);
      hide Apply, Enabled;
      CancelStays(Apply(p, mvs[0]), mvs[1..], q);
    }
  }

  lemma StartDue(items: nat, requested: int, stagger: bool)
    ensures var p := Start(items, requested, stagger); Due(p) == 0 && p.stagger == stagger && p.items == items
  {}

  lemma DueBounds(p: Pool)
    requires Placed(p)
    ensures if p.stagger then p.sent <= Due(p) + 1 && (p.items > 0 ==> Due(p) < p.items) else Due(p) == 0
    ensures p.stagger && p.items > 0 && p.producer.Finished? && !p.cancelled ==> Due(p) == p.items - 1
  {}

  /** A staggered import waits between any two launches and, unless cancelled, neither
      before the first nor after the last; any other does not wait. */
  lemma LaunchesAreSpaced(items: nat, requested: int, stagger: bool, mvs: seq<Move>, p: Pool)
    requires Reaches(Start(items, requested, stagger), mvs, p)
    ensures var delays := CountMoves((mv: Move) => mv == Tick, mvs);
            && (stagger ==> p.sent <= delays + 1)
            && (stagger && items > 0 && !p.cancelled ==> delays < items)
            && (stagger && items > 0 && !p.cancelled && p.producer.Finished? ==> delays == items - 1)
            && (!stagger && !p.cancelled ==> delays == 0)
  {
    StartInv(items, requested, stagger);
    StartDue(items, requested, stagger);
    hide Start, Due, Reaches, Conserved, Balanced, Drained, CountMoves;
    RunInv(Start(items, requested, stagger), mvs, p);
    RunDue(Start(items, requested, stagger), mvs, p);
    DueBounds(p);
  }
}
