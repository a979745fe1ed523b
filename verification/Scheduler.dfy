/** The scheduler hook: isolated credentials are skipped before a pick. */
module Scheduler {
  import opened Text
  import opened BanTable
  import opened BanLedger
  import opened BanRuns
  import opened Wrappers

  datatype Candidate = Candidate(id: string, provider: string, priority: int, email: string)

  predicate IsXai(c: Candidate) { EqualFold(c.provider, "xai") }

  /** Candidate `i` is an xai credential of the account `m`: it names `m`, or names no
      e-mail and `looked`, what the host's e-mail cache answers for its id, is `m`. */
  predicate StandsFor(cands: seq<Candidate>, looked: seq<string>, i: int, m: string) {
    && 0 <= i < |cands| && i < |looked| && ToLower(cands[i].provider) == "xai"
    && (Norm(cands[i].email) == m || (Norm(cands[i].email) == "" && Norm(looked[i]) == m))
  }

  /** The candidate resolves to the account `m`. */
  predicate Resolves(c: Candidate, looked: string, m: string) {
    IsXai(c) && m == if Norm(c.email) != "" then Norm(c.email) else Norm(looked)
  }

  lemma StandsAsResolved(cands: seq<Candidate>, looked: seq<string>, i: int, m: string)
    requires m != ""
    ensures StandsFor(cands, looked, i, m) <==> 0 <= i < |cands| && i < |looked| && Resolves(cands[i], looked[i], m)
  {
    LowerAt("xai");
    assert ToLower("xai") == "xai";
    hide Norm;
  }

  /** The account `m` has a row of its own that has not ended or is a 429. */
  predicate HeldAt(t: Table, m: string, now: Clock) {
    m != "" && m in t && (now < t[m].resetAt || t[m].status == 429)
  }

  lemma HeldIsFiltered(before: Table, after: Table, cands: seq<Candidate>, looked: seq<string>, i: int, m: string,
                       now: Clock, out: bool)
    requires HeldAt(before, m, now) && StandsFor(cands, looked, i, m)
    requires FilteredRightly(before, after, cands[i], looked[i], now, out)
    ensures out
  {
    hide StandsFor, AnswersTo, Resolves;
    StandsAsResolved(cands, looked, i, m);
    assert Resolves(cands[i], looked[i], m);
  }

  /** A pick that filters rightly keeps away from every account held before it. */
  lemma RightlyKeepsAway(before: Table, after: Table, cands: seq<Candidate>, looked: seq<string>, now: Clock,
                         filtered: seq<bool>, m: string, handled: bool, authID: string)
    requires |filtered| == |cands| == |looked| && AllRightly(before, after, cands, looked, now, filtered)
    requires HeldAt(before, m, now) && IsPick(cands, filtered, handled, authID)
    ensures KeepsAway(cands, looked, filtered, m, handled, authID)
  {
    hide IsPick, KeepsAway, FilteredRightly, HeldAt;
    forall i | StandsFor(cands, looked, i, m) ensures filtered[i] {
      HeldIsFiltered(before, after, cands, looked, i, m, now, filtered[i]);
    }
    FilteredKeepsAway(cands, looked, filtered, m, handled, authID);
  }

  /** The row `k` answers to the query `q`. */
  predicate AnswersTo(t: Table, k: string, q: string) {
    k in t && (k == q || k == ToLower(q) || Mailbox(t[k]) == ToLower(q) || Trim(t[k].authRef) == q)
  }

  /** Between two tables only rows no longer in force were dropped. */
  ghost predicate OnlyExpiredDropped(t: Table, u: Table, now: Clock) {
    && u.Keys <= t.Keys
    && (forall k :: k in u ==> u[k] == t[k])
    && (forall k :: k in t && k !in u ==> !InForce(t[k], now))
  }

  /** The row `k` answers to `q` and is in force. */
  predicate BackedBy(t: Table, k: string, q: string, now: Clock) {
    q != "" && AnswersTo(t, k, q) && (now < t[k].resetAt || t[k].status == 429)
  }

  /** What one question about `q` does and answers. */
  ghost predicate Asked(t: Table, u: Table, q: string, now: Clock, banned: bool) {
    && OnlyExpiredDropped(t, u, now)
    && (!banned ==> q !in u)
    && (HeldAt(t, q, now) ==> banned)
    && (banned ==> exists k :: BackedBy(u, k, q, now))
  }

  lemma AskDropsExpired(t: Table, q: string, hit: Option<string>, now: Clock)
    requires MayAnswer(t, q, hit) && q != "" && Trim(q) == q
    ensures Asked(t, AskTable(t, hit, now), q, now, AskAnswer(t, hit, now))
  {
    if q in t { assert MayFind(t, q, q); }
    if AskAnswer(t, hit, now) { assert BackedBy(t, hit.value, q, now); }
  }

  /** A held account is filtered; a kept xai candidate has no row left under
      its e-mail or its id; only xai candidates are filtered. */
  ghost predicate FilteredRightly(before: Table, after: Table, c: Candidate, looked: string, now: Clock, out: bool) {
    && (forall m :: Resolves(c, looked, m) && HeldAt(before, m, now) ==> out)
    && (IsXai(c) && !out ==> Trim(c.id) !in after.Keys - {""})
    && (forall m :: Resolves(c, looked, m) && !out ==> m !in after.Keys - {""})
    && (out ==> IsXai(c) && exists k, q :: (q == Trim(c.id) || Resolves(c, looked, q)) && BackedBy(after, k, q, now))
  }

  /** The account is asked about first, then, unless it is isolated, the id. */
  lemma Decided(t: Table, v: Table, u: Table, c: Candidate, looked: string, now: Clock, m: string, first: bool,
                second: bool)
    requires m == if Norm(c.email) != "" then Norm(c.email) else Norm(looked)
    requires if m == "" then v == t && !first else Asked(t, v, m, now, first)
    requires if first || Trim(c.id) == "" then u == v && !second else Asked(v, u, Trim(c.id), now, second)
    ensures OnlyExpiredDropped(t, u, now)
    ensures IsXai(c) ==> FilteredRightly(t, u, c, looked, now, first || second)
    ensures forall n :: HeldAt(t, n, now) && StandsFor([c], [looked], 0, n) ==> first || second
  {
    hide Norm, Trim, IsXai, AnswersTo, StandsFor;
    forall n | HeldAt(t, n, now) && StandsFor([c], [looked], 0, n) ensures first || second {
      StandsAsResolved([c], [looked], 0, n);
      assert Resolves([c][0], [looked][0], n);
    }
    if first {
      var k :| BackedBy(v, k, m, now);
      assert IsXai(c) ==> Resolves(c, looked, m);
    } else if second {
      var k :| BackedBy(u, k, Trim(c.id), now);
    }
  }

  // ---- The questions a pick asks ----

  /** A pick whose questions are spread over a run: the account of each xai
      candidate that resolves to one was asked about at event `asked[i]`, and the
      candidate was filtered if the answer was "isolated". */
  ghost predicate AskedInRun(s: Ledger, evs: seq<Event>, from: nat, cands: seq<Candidate>,
                             looked: seq<string>, asked: seq<nat>, filtered: seq<bool>) {
    && |looked| == |asked| == |filtered| == |cands|
    && forall i, m :: 0 <= i < |cands| && Resolves(cands[i], looked[i], m) && m != "" ==>
         && from <= asked[i] < |evs| && evs[asked[i]].Ask? && evs[asked[i]].id == m
         && (Answer(s, evs, asked[i]) ==> filtered[i])
  }

  /** The questions `asks`, asked in this order of `l`, leave the rows `u`. */
  ghost predicate Asks(l: Ledger, asks: seq<Event>, now: Clock, u: Table) {
    && (forall i :: 0 <= i < |asks| ==> asks[i].Ask? && asks[i].now == now)
    && LegalRun(l, asks) && Run(l, asks) == l.(bans := u)
  }

  lemma AskOne(l: Ledger, id: string, hit: Option<string>, now: Clock)
    requires MayAnswer(l.bans, id, hit)
    ensures Asks(l, [Ask(now, id, hit)], now, AskTable(l.bans, hit, now))
    ensures Answer(l, [Ask(now, id, hit)], 0) <==> AskAnswer(l.bans, hit, now)
  {
    hide AskTable, AskAnswer, MayAnswer;
    var evs := [Ask(now, id, hit)];
    assert evs[..0] == [] && Run(l, []) == l && LegalRun(l, []);
    assert Run(l, evs) == Step(l, evs[0]);
  }

  /** A question's answer depends only on what went before it. */
  lemma AnswersJoin(l: Ledger, a: seq<Event>, b: seq<Event>)
    ensures forall i :: 0 <= i < |a| && a[i].Ask? ==> Answer(l, a + b, i) == Answer(l, a, i)
    ensures forall i :: 0 <= i < |b| && b[i].Ask? ==> Answer(l, a + b, |a| + i) == Answer(Run(l, a), b, i)
  {
    hide Run, AskAnswer;
    forall i | 0 <= i < |a| && a[i].Ask? ensures Answer(l, a + b, i) == Answer(l, a, i) {
      assert (a + b)[..i] == a[..i];
    }
    forall i | 0 <= i < |b| && b[i].Ask? ensures Answer(l, a + b, |a| + i) == Answer(Run(l, a), b, i) {
      assert (a + b)[..|a| + i] == a + b[..i];
      RunConcat(l, a, b[..i]);
    }
  }

  lemma AskMore(l: Ledger, a: seq<Event>, u: Table, b: seq<Event>, w: Table, now: Clock)
    requires Asks(l, a, now, u) && Asks(l.(bans := u), b, now, w)
    ensures Asks(l, a + b, now, w)
    ensures forall i :: 0 <= i < |a| ==> Answer(l, a + b, i) == Answer(l, a, i)
    ensures forall i :: 0 <= i < |b| ==> Answer(l, a + b, |a| + i) == Answer(l.(bans := u), b, i)
  {
    hide Run, LegalRun, Answer;
    RunConcat(l, a, b);
    AnswersJoin(l, a, b);
  }

  lemma NoAsks(l: Ledger, now: Clock)
    ensures Asks(l, [], now, l.bans)
  {}

  /** The first question about a candidate of a known account names that account. */
  ghost predicate AskedFirst(l: Ledger, asks: seq<Event>, c: Candidate, looked: string, out: bool) {
    forall m :: Resolves(c, looked, m) && m != "" ==>
      asks != [] && asks[0].Ask? && asks[0].id == m && (Answer(l, asks, 0) ==> out)
  }

  /** isBannedCandidate. `pending` is what heals have collected meanwhile. */
  method IsBannedCandidate(s: BanState, c: Candidate, looked: string, now: Clock, ghost pending: set<string>)
    returns (banned: bool, ghost asks: seq<Event>)
    requires s.Valid()
    modifies s
    ensures s.Valid() && (old(s.Exact()) ==> s.Exact())
    ensures OnlyExpiredDropped(old(s.bans), s.bans, now)
    ensures IsXai(c) ==> FilteredRightly(old(s.bans), s.bans, c, looked, now, banned)
    ensures forall m :: HeldAt(old(s.bans), m, now) && StandsFor([c], [looked], 0, m) ==> banned
    ensures Asks(Ledger(old(s.bans), pending), asks, now, s.bans)
    ensures AskedFirst(Ledger(old(s.bans), pending), asks, c, looked, banned)
  {
    hide Norm, Trim, IsXai, Spelled, Filed, Listing, ScanIndex, MayAnswer, Asks, Answer, AskTable, AskAnswer, InForce;
    hide Asked, OnlyExpiredDropped, FilteredRightly, StandsFor, HeldAt;
    var m, id := Norm(c.email), Trim(c.id);
    if m == "" { m := Norm(looked); }
    NormFacts(c.email);
    NormFacts(looked);
    ghost var l := Ledger(s.bans, pending);
    asks := [];
    NoAsks(l, now);
    if m != "" {
      banned := s.Active(m, now);
      ghost var hit: Option<string> :| MayAnswer(l.bans, m, hit) && banned == AskAnswer(l.bans, hit, now)
                                 && s.bans == AskTable(l.bans, hit, now);
      AskDropsExpired(l.bans, m, hit, now);
      AskOne(l, m, hit, now);
      asks := [Ask(now, m, hit)];
      if banned {
        Decided(l.bans, s.bans, s.bans, c, looked, now, m, true, false);
        return true, asks;
      }
    }
    ghost var t := s.bans;
    if id != "" {
      banned := s.Active(id, now);
      ghost var hit: Option<string> :| MayAnswer(t, id, hit) && banned == AskAnswer(t, hit, now)
                                 && s.bans == AskTable(t, hit, now);
      AskDropsExpired(t, id, hit, now);
      AskOne(Ledger(t, pending), id, hit, now);
      AskMore(l, asks, t, [Ask(now, id, hit)], s.bans, now);
      asks := asks + [Ask(now, id, hit)];
      if banned {
        Decided(l.bans, t, s.bans, c, looked, now, m, false, true);
        return true, asks;
      }
    }
    Decided(l.bans, t, s.bans, c, looked, now, m, false, false);
    return false, asks;
  }

  /** Candidate `j` is the first of the highest priority among those kept. */
  predicate PickedAt(cands: seq<Candidate>, filtered: seq<bool>, j: int)
    requires |filtered| == |cands|
  {
    && 0 <= j < |cands| && !filtered[j]
    && (forall i :: 0 <= i < |cands| && !filtered[i] ==>
          cands[i].priority <= cands[j].priority && (i < j ==> cands[i].priority < cands[j].priority))
  }

  /** The scheduler's answer, given which candidates were filtered. */
  ghost predicate IsPick(cands: seq<Candidate>, filtered: seq<bool>, handled: bool, authID: string)
    requires |filtered| == |cands|
  {
    && (handled <==> exists i :: 0 <= i < |filtered| && filtered[i])
    && (handled && (forall i :: 0 <= i < |filtered| ==> filtered[i]) ==> authID == "")
    && (handled && (exists i :: 0 <= i < |filtered| && !filtered[i]) ==>
          exists j :: PickedAt(cands, filtered, j) && authID == cands[j].id)
  }

  /** Drop the isolated candidates, in order. */
  method Filter(s: BanState, cands: seq<Candidate>, looked: seq<string>, now: Clock, ghost pending: set<string>)
    returns (available: seq<Candidate>, skipped: nat, ghost filtered: seq<bool>, ghost kept: seq<nat>,
             ghost asks: seq<Event>, ghost asked: seq<nat>)
    requires s.Valid() && |looked| == |cands|
    modifies s
    ensures s.Valid() && (old(s.Exact()) ==> s.Exact())
    ensures OnlyExpiredDropped(old(s.bans), s.bans, now)
    ensures |filtered| == |cands| && KeptBy(cands, filtered, available, kept)
    ensures skipped == 0 <==> forall i :: 0 <= i < |filtered| ==> !filtered[i]
    ensures AllRightly(old(s.bans), s.bans, cands, looked, now, filtered)
    ensures Asks(Ledger(old(s.bans), pending), asks, now, s.bans)
    ensures AskedInRun(Ledger(old(s.bans), pending), asks, 0, cands, looked, asked, filtered)
  {
    hide FilteredRightly, AllRightly, KeptBy, OnlyExpiredDropped, IsXai, Asks, AskedFirst, AskedInRun;
    hide Spelled, Filed, Listing, ScanIndex;
    available, skipped, filtered, kept, asks, asked := [], 0, [], [], [], [];
    ghost var l := Ledger(s.bans, pending);
    FilterStart(s.bans, cands, looked, now);
    AskedStart(l, now, cands, looked);
    for n := 0 to |cands|
      invariant s.Valid() && (old(s.Exact()) ==> s.Exact())
      invariant OnlyExpiredDropped(l.bans, s.bans, now)
      invariant |filtered| == n && KeptBy(cands, filtered, available, kept)
      invariant skipped == 0 <==> forall i :: 0 <= i < n ==> !filtered[i]
      invariant AllRightly(l.bans, s.bans, cands, looked, now, filtered)
      invariant Asks(l, asks, now, s.bans) && AskedInRun(l, asks, 0, cands[..n], looked[..n], asked, filtered)
    {
      ghost var t, was, more := s.bans, filtered, [];
      var banned := false;
      FilterStart(t, cands, looked, now);
      NoAsks(Ledger(t, pending), now);
      if IsXai(cands[n]) {
        banned, more := IsBannedCandidate(s, cands[n], looked[n], now, pending);
      }
      RightStep(l.bans, t, s.bans, cands, looked, now, filtered, banned);
      KeptStep(cands, filtered, available, kept, banned);
      AskedStep(l, asks, t, more, s.bans, now, cands, looked, asked, filtered, banned);
      asks, asked, filtered := asks + more, asked + [|asks|], filtered + [banned];
      assert filtered[n] == banned && forall i :: 0 <= i < n ==> filtered[i] == was[i];
      if banned {
        skipped := skipped + 1;
      } else {
        available, kept := available + [cands[n]], kept + [n];
      }
    }
    assert cands[..|cands|] == cands && looked[..|cands|] == looked;
  }

  /** handleSchedulerPick. The questions it asks are a run of the ledger. */
  method HandleSchedulerPick(s: BanState, cands: seq<Candidate>, looked: seq<string>, now: Clock,
                             ghost pending: set<string>)
    returns (authID: string, handled: bool, ghost filtered: seq<bool>, ghost asks: seq<Event>, ghost asked: seq<nat>)
    requires s.Valid() && |looked| == |cands|
    modifies s
    ensures s.Valid() && (old(s.Exact()) ==> s.Exact())
    ensures OnlyExpiredDropped(old(s.bans), s.bans, now)
    ensures |filtered| == |cands| && IsPick(cands, filtered, handled, authID)
    ensures AllRightly(old(s.bans), s.bans, cands, looked, now, filtered)
    ensures forall m :: HeldAt(old(s.bans), m, now) ==> KeepsAway(cands, looked, filtered, m, handled, authID)
    ensures Asks(Ledger(old(s.bans), pending), asks, now, s.bans)
    ensures AskedInRun(Ledger(old(s.bans), pending), asks, 0, cands, looked, asked, filtered)
  {
    hide *;
    var available, skipped;
    ghost var kept;
    available, skipped, filtered, kept, asks, asked := Filter(s, cands, looked, now, pending);
    authID, handled := Choose(cands, available, skipped, filtered, kept);
    forall m | HeldAt(old(s.bans), m, now) ensures KeepsAway(cands, looked, filtered, m, handled, authID) {
      RightlyKeepsAway(old(s.bans), s.bans, cands, looked, now, filtered, m, handled, authID);
    }
  }

  /** The answer, once the isolated candidates are filtered out. */
  method Choose(cands: seq<Candidate>, available: seq<Candidate>, skipped: nat, ghost filtered: seq<bool>,
                ghost kept: seq<nat>)
    returns (authID: string, handled: bool)
    requires KeptBy(cands, filtered, available, kept) && |filtered| == |cands|
    requires skipped == 0 <==> forall i :: 0 <= i < |filtered| ==> !filtered[i]
    ensures IsPick(cands, filtered, handled, authID)
  {
    hide *;
    if skipped == 0 {
      NothingFiltered(cands, filtered);
      return "", false;
    }
    if |available| == 0 {
      NothingKept(cands, filtered, available, kept);
      return "", true;
    }
    var chosen := available[0];
    ghost var at := 0;
    for n := 1 to |available|
      invariant 0 <= at < n && chosen == available[at]
      invariant forall i :: 0 <= i < n ==> available[i].priority <= chosen.priority
                                           && (i < at ==> available[i].priority < chosen.priority)
    {
      if available[n].priority > chosen.priority {
        chosen, at := available[n], n;
      }
    }
    FirstOfKept(cands, filtered, available, kept, at);
    return chosen.id, true;
  }

  lemma RightlyStays(before: Table, mid: Table, after: Table, c: Candidate, looked: string, now: Clock, out: bool)
    requires FilteredRightly(before, mid, c, looked, now, out) && OnlyExpiredDropped(mid, after, now)
    ensures FilteredRightly(before, after, c, looked, now, out)
  {
    if out {
      var k, q :| (q == Trim(c.id) || Resolves(c, looked, q)) && BackedBy(mid, k, q, now);
      assert BackedBy(after, k, q, now);
    }
  }

  /** The candidates decided so far were all decided rightly. */
  ghost predicate AllRightly(before: Table, after: Table, cands: seq<Candidate>, looked: seq<string>, now: Clock,
                             filtered: seq<bool>)
    requires |filtered| <= |cands| == |looked|
  {
    forall i :: 0 <= i < |filtered| ==> FilteredRightly(before, after, cands[i], looked[i], now, filtered[i])
  }

  lemma FilterStart(t: Table, cands: seq<Candidate>, looked: seq<string>, now: Clock)
    requires |cands| == |looked|
    ensures OnlyExpiredDropped(t, t, now) && AllRightly(t, t, cands, looked, now, [])
    ensures KeptBy(cands, [], [], [])
  {}

  lemma RightStep(before: Table, mid: Table, after: Table, cands: seq<Candidate>, looked: seq<string>, now: Clock,
                  filtered: seq<bool>, out: bool)
    requires |filtered| < |cands| == |looked|
    requires OnlyExpiredDropped(before, mid, now) && OnlyExpiredDropped(mid, after, now)
    requires AllRightly(before, mid, cands, looked, now, filtered)
    requires var c := cands[|filtered|];
             if IsXai(c) then FilteredRightly(mid, after, c, looked[|filtered|], now, out) else !out
    ensures OnlyExpiredDropped(before, after, now)
    ensures AllRightly(before, after, cands, looked, now, filtered + [out])
  {
    forall i | 0 <= i < |filtered| {
      RightlyStays(before, mid, after, cands[i], looked[i], now, filtered[i]);
    }
  }

  /** `available` lists exactly the candidates not filtered so far, in order. */
  ghost predicate KeptBy(cands: seq<Candidate>, filtered: seq<bool>, available: seq<Candidate>, kept: seq<nat>) {
    && |filtered| <= |cands| && |kept| == |available|
    && (forall x :: 0 <= x < |kept| ==> kept[x] < |filtered| && !filtered[kept[x]] && available[x] == cands[kept[x]])
    && (forall x, y :: 0 <= x < y < |kept| ==> kept[x] < kept[y])
    && (forall i :: 0 <= i < |filtered| && !filtered[i] ==> i in kept)
  }

  lemma KeptStep(cands: seq<Candidate>, filtered: seq<bool>, available: seq<Candidate>, kept: seq<nat>, out: bool)
    requires |filtered| < |cands| && KeptBy(cands, filtered, available, kept)
    ensures if out then KeptBy(cands, filtered + [out], available, kept)
            else KeptBy(cands, filtered + [out], available + [cands[|filtered|]], kept + [|filtered|])
  {
    if !out { assert (kept + [|filtered|])[|kept|] == |filtered|; }
  }

  lemma NothingKept(cands: seq<Candidate>, filtered: seq<bool>, available: seq<Candidate>, kept: seq<nat>)
    requires KeptBy(cands, filtered, available, kept) && |filtered| == |cands| && available == []
    requires exists i :: 0 <= i < |filtered| && filtered[i]
    ensures IsPick(cands, filtered, true, "")
  {}

  lemma NothingFiltered(cands: seq<Candidate>, filtered: seq<bool>)
    requires |filtered| == |cands| && forall i :: 0 <= i < |filtered| ==> !filtered[i]
    ensures IsPick(cands, filtered, false, "")
  {}

  lemma FirstOfKept(cands: seq<Candidate>, filtered: seq<bool>, available: seq<Candidate>, kept: seq<nat>, at: nat)
    requires KeptBy(cands, filtered, available, kept) && |filtered| == |cands| && at < |available|
    requires forall x :: 0 <= x < |available| ==> available[x].priority <= available[at].priority
                                                  && (x < at ==> available[x].priority < available[at].priority)
    requires exists i :: 0 <= i < |filtered| && filtered[i]
    ensures IsPick(cands, filtered, true, available[at].id)
  {
    assert available[at] == cands[kept[at]];
    forall i | 0 <= i < |cands| && !filtered[i]
      ensures cands[i].priority <= cands[kept[at]].priority
      ensures i < kept[at] ==> cands[i].priority < cands[kept[at]].priority
    {
      var x :| 0 <= x < |kept| && kept[x] == i;
    }
    assert PickedAt(cands, filtered, kept[at]);
  }

  lemma AskedStart(l: Ledger, now: Clock, cands: seq<Candidate>, looked: seq<string>)
    requires |cands| == |looked|
    ensures Asks(l, [], now, l.bans) && AskedInRun(l, [], 0, cands[..0], looked[..0], [], [])
  {}

  /** One more candidate's questions. */
  lemma AskedStep(l: Ledger, asks: seq<Event>, t: Table, more: seq<Event>, u: Table, now: Clock, cands: seq<Candidate>,
                  looked: seq<string>, asked: seq<nat>, filtered: seq<bool>, out: bool)
    requires |filtered| < |cands| == |looked| && Asks(l, asks, now, t) && Asks(l.(bans := t), more, now, u)
    requires AskedInRun(l, asks, 0, cands[..|filtered|], looked[..|filtered|], asked, filtered)
    requires var n := |filtered|; IsXai(cands[n]) ==> AskedFirst(l.(bans := t), more, cands[n], looked[n], out)
    ensures Asks(l, asks + more, now, u)
    ensures var n := |filtered| + 1;
            AskedInRun(l, asks + more, 0, cands[..n], looked[..n], asked + [|asks|], filtered + [out])
  {
    hide IsXai, Norm, Asks, Answer;
    AskMore(l, asks, t, more, u, now);
    var n := |filtered|;
    assert more != [] && more[0].Ask? ==> Answer(l, asks + more, |asks| + 0) == Answer(l.(bans := t), more, 0);
  }

  // ---- Picks inside a run ----

  /** The pick keeps away from account `m`: the host does not get the choice back
      while a candidate of `m` is on offer, and a non-empty answer is the id of a
      candidate that does not stand for `m`. With distinct ids it is the id of no
      candidate of `m`. */
  ghost predicate KeepsAway(cands: seq<Candidate>, looked: seq<string>, filtered: seq<bool>, m: string,
                            handled: bool, authID: string)
    requires |filtered| == |cands|
  {
    && ((exists i :: StandsFor(cands, looked, i, m)) ==> handled)
    && (handled && authID != "" ==>
          exists j :: PickedAt(cands, filtered, j) && authID == cands[j].id && !StandsFor(cands, looked, j, m))
    && (handled && authID != "" && (forall i, j :: 0 <= i < j < |cands| ==> cands[i].id != cands[j].id) ==>
          forall i :: StandsFor(cands, looked, i, m) ==> cands[i].id != authID)
  }

  lemma FilteredKeepsAway(cands: seq<Candidate>, looked: seq<string>, filtered: seq<bool>, m: string,
                          handled: bool, authID: string)
    requires |filtered| == |cands| && IsPick(cands, filtered, handled, authID)
    requires forall i :: StandsFor(cands, looked, i, m) ==> filtered[i]
    ensures KeepsAway(cands, looked, filtered, m, handled, authID)
  {
    hide StandsFor;
    if i :| StandsFor(cands, looked, i, m) {
      InRange(cands, looked, i, m);
      assert filtered[i];
    }
    if handled && authID != "" {
      var j :| PickedAt(cands, filtered, j) && authID == cands[j].id;
      forall i | StandsFor(cands, looked, i, m) ensures 0 <= i < |cands| && i != j { InRange(cands, looked, i, m); }
    }
  }

  lemma InRange(cands: seq<Candidate>, looked: seq<string>, i: int, m: string)
    requires StandsFor(cands, looked, i, m)
    ensures 0 <= i < |cands|
  {}

  /** Over any run, no pick made while a hold on account `m` lasts returns an xai
      candidate of `m`, nor hands the choice back to the host while one is on
      offer: in the two hours after a failure, for ever after a 429, and for the
      whole window of any other code. */
  lemma NoPickReturnsHeldAccount(
      s: Ledger, evs: seq<Event>, from: nat, m: string, h: Hold, cands: seq<Candidate>,
      looked: seq<string>, asked: seq<nat>, filtered: seq<bool>, handled: bool, authID: string)
    requires Sound(s) && LegalRun(s, evs) && IsAddress(m) && from <= |evs|
    requires Holds(Run(s, evs[..from]).bans, m, h)
    requires forall i :: from <= i < |evs| ==> Sustains(evs[i], m, h)
    requires AskedInRun(s, evs, from, cands, looked, asked, filtered)
    requires IsPick(cands, filtered, handled, authID)
    ensures KeepsAway(cands, looked, filtered, m, handled, authID)
  {
    HoldOverRuns(s, evs, from, m, h);
    AnsweredFilters(s, evs, from, m, cands, looked, asked, filtered);
    FilteredKeepsAway(cands, looked, filtered, m, handled, authID);
  }

  function Later(asked: seq<nat>, first: nat): seq<nat> {
    seq(|asked|, i requires 0 <= i < |asked| => first + asked[i])
  }

  /** The questions of one pick, asked where a run has led, extend that run. */
  lemma PickInRun(s: Ledger, evs: seq<Event>, asks: seq<Event>, now: Clock, u: Table, cands: seq<Candidate>,
                  looked: seq<string>, asked: seq<nat>, filtered: seq<bool>)
    requires LegalRun(s, evs) && Asks(Run(s, evs), asks, now, u)
    requires AskedInRun(Run(s, evs), asks, 0, cands, looked, asked, filtered)
    ensures LegalRun(s, evs + asks) && Run(s, evs + asks).bans == u
    ensures AskedInRun(s, evs + asks, |evs|, cands, looked, Later(asked, |evs|), filtered)
  {
    hide Run, LegalRun, Resolves, Answer;
    RunConcat(s, evs, asks);
    AnswersJoin(s, evs, asks);
  }

  /** What handleSchedulerPick answers at the end of a run keeps away from every
      account held there. */
  lemma PickKeepsAway(s: Ledger, evs: seq<Event>, asks: seq<Event>, now: Clock, u: Table, m: string, h: Hold,
                      cands: seq<Candidate>, looked: seq<string>, asked: seq<nat>, filtered: seq<bool>,
                      handled: bool, authID: string)
    requires Sound(s) && LegalRun(s, evs) && IsAddress(m) && Holds(Run(s, evs).bans, m, h)
    requires Sustains(Ask(now, m, None), m, h)
    requires Asks(Run(s, evs), asks, now, u)
    requires AskedInRun(Run(s, evs), asks, 0, cands, looked, asked, filtered)
    requires IsPick(cands, filtered, handled, authID)
    ensures KeepsAway(cands, looked, filtered, m, handled, authID)
  {
    hide *;
    var all := evs + asks;
    PickInRun(s, evs, asks, now, u, cands, looked, asked, filtered);
    AsksSustain(Run(s, evs), asks, now, u, m, h);
    assert all[..|evs|] == evs && forall i :: |evs| <= i < |all| ==> all[i] == asks[i - |evs|];
    NoPickReturnsHeldAccount(s, all, |evs|, m, h, cands, looked, Later(asked, |evs|), filtered, handled, authID);
  }

  lemma AsksSustain(l: Ledger, asks: seq<Event>, now: Clock, u: Table, m: string, h: Hold)
    requires Asks(l, asks, now, u) && Sustains(Ask(now, m, None), m, h)
    ensures forall i :: 0 <= i < |asks| ==> Sustains(asks[i], m, h)
  {
    hide Run, LegalRun;
  }

  /** Candidates of an account that every question finds isolated are filtered. */
  lemma AnsweredFilters(s: Ledger, evs: seq<Event>, from: nat, m: string, cands: seq<Candidate>,
                        looked: seq<string>, asked: seq<nat>, filtered: seq<bool>)
    requires IsAddress(m) && AskedInRun(s, evs, from, cands, looked, asked, filtered)
    requires forall i :: from <= i < |evs| && evs[i].Ask? && Trim(evs[i].id) == m ==> Answer(s, evs, i)
    ensures forall i :: StandsFor(cands, looked, i, m) ==> filtered[i]
  {
    hide Resolves, StandsFor, Run, Norm, ToLower;
    assert m != "" && Trim(m) == m by { NormFacts(m); }
    forall i | StandsFor(cands, looked, i, m) ensures 0 <= i < |cands| && filtered[i] {
      StandsAsResolved(cands, looked, i, m);
      assert Answer(s, evs, asked[i]);
    }
  }
}
