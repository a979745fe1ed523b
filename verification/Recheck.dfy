/** The recheck pass: every isolated account it is about is probed once, and each
    outcome renews, replaces, releases or keeps its row. */
module Recheck {
  import opened Text
  import opened BanTable
  import opened BanLedger
  import opened BanRuns
  import opened BanAccounts
  import opened BanLaws
  import opened Policy
  import opened Reconcile
  import opened PoolSums
  import ScanPool
  import opened ScanSync
  import opened RecheckWork
  import opened Wrappers

  // ---- One outcome ----

  function MailOf(item: WorkItem, pr: Probe): string { FirstNonEmpty([pr.email, item.email]) }

  /** The action a probe outcome calls for. */
  function ActionOf(pr: Probe): Action {
    if pr.httpStatus == 0 || pr.action == "ERROR" then Action.Skipped
    else if pr.httpStatus == TOO_MANY then Still429
    else if IsolatedCode(pr.httpStatus) then Reclassified
    else Action.Unbanned
  }

  /** The report a classifiable outcome files. */
  function OutcomeEntry(item: WorkItem, pr: Probe, vault: set<string>, now: Clock): Entry {
    var c := ClassifyFailure(pr.httpStatus, now, MailOf(item, pr), vault);
    (if c.Some? then c.value else Entry(0, "", "", "", "", "", now, 0, 0)).(
      source := if pr.httpStatus == TOO_MANY then "recheck429" else "probe",
      email := MailOf(item, pr), labelText := FirstNonEmpty([pr.name, pr.file]), authRef := ReportID(pr))
  }

  /** An outcome classified at `now` and filed at `setAt`. */
  function ActOfOutcome(item: WorkItem, pr: Probe, vault: set<string>, now: Clock, setAt: Clock): Act {
    Act(Norm(MailOf(item, pr)), [item.banID], ReportID(pr),
        match ActionOf(pr)
        case Skipped => Leave
        case Unbanned => Release
        case _ => Write(true, OutcomeEntry(item, pr, vault, now), setAt))
  }

  /** The policy window of account `m`, counted from `now`, in a row of its own. */
  ghost predicate PolicyAccount(a: Account, code: int, vault: set<string>, now: Clock, m: string) {
    var c := ClassifyFailure(code, now, m, vault);
    c.Some? && a == Isolated(code, c.value.reason, c.value.resetAt, 1)
  }

  /** The only row of `m` is a fresh one for `code`, reported at `now`: two hours for
      a 429 and for a 401 whose cookie can be exchanged, a day for any other 401 and
      a 403, seven days for a 402. */
  ghost predicate FreshRow(t: Table, m: string, code: int, vault: set<string>, now: Clock) {
    && m in t && t[m].status == code && t[m].failCount == 1
    && Earns(code, m in vault, t[m].resetAt - now, t[m].reason)
  }

  /** What the fresh row of `m` says of the probe it comes from. */
  ghost predicate SaysOf(t: Table, m: string, item: WorkItem, pr: Probe, now: Clock) {
    && m in t && t[m].bannedAt == now && t[m].source == (if pr.httpStatus == 429 then "recheck429" else "probe")
    && t[m].email == FirstNonEmpty([pr.email, item.email]) && t[m].labelText == FirstNonEmpty([pr.name, pr.file])
    && t[m].authRef == FirstNonEmpty([pr.authID, pr.authIndex, pr.name, pr.file])
  }

  /** The row the item was listed for is gone, unless it is the account's own: under
      its e-mail or, if none is known, under the auth id reported. */
  ghost predicate ListedGone(u: Table, item: WorkItem, pr: Probe) {
    var m, k := Norm(FirstNonEmpty([pr.email, item.email])), Trim(item.banID);
    k in u.Keys - {""} ==> k == if m != "" then m else FirstNonEmpty([pr.authID, pr.authIndex, pr.name, pr.file])
  }

  lemma ListedStaysGone(w: Table, item: WorkItem, pr: Probe, vault: set<string>, now: Clock, setAt: Clock)
    requires Trim(item.banID) !in w.Keys - {""}
    ensures ListedGone(SetTable(w, ReportID(pr), OutcomeEntry(item, pr, vault, now), setAt), item, pr)
  {
    ReportIDTrimmed(pr);
    hide SetTable, ClassifyFailure, FirstNonEmpty, Norm, Trim;
    var e := OutcomeEntry(item, pr, vault, now);
    if Trim(item.banID) != ReportKey(ReportID(pr), e) {
      ReportDrops(w, ReportID(pr), e, setAt, Trim(item.banID));
    }
  }

  lemma RefreshSays(w: Table, item: WorkItem, pr: Probe, vault: set<string>, now: Clock, setAt: Clock)
    requires pr.httpStatus in {401, 402, 403, 429}
    requires var m := Norm(MailOf(item, pr)); m != "" && m !in w
    ensures var m := Norm(MailOf(item, pr));
            SaysOf(SetTable(w, ReportID(pr), OutcomeEntry(item, pr, vault, now), setAt), m, item, pr, now)
  {
    var e, id := OutcomeEntry(item, pr, vault, now), ReportID(pr);
    ClassifyByCode(pr.httpStatus, now, MailOf(item, pr), vault);
    FirstReportLaw(w, id, e, setAt, Norm(MailOf(item, pr)));
    NormFacts(MailOf(item, pr));
    hide SetTable, Norm, FirstNonEmpty, Windowed, ClassifyFailure;
    assert Trim(id) == id && Trim(MailOf(item, pr)) == MailOf(item, pr);
  }

  lemma PolicyIsFresh(t: Table, m: string, code: int, vault: set<string>, now: Clock)
    requires PolicyAccount(AccountOf(t, m), code, vault, now, m) && IsNormal(m) && m != ""
    ensures FreshRow(t, m, code, vault, now)
  {
    ClassifyByCode(code, now, m, vault);
    NormFacts(m);
    hide ClassifyFailure, Norm, IsNormal;
  }

  /** What an outcome's action is, and what `Settles` says, by the probe's answer. */
  lemma OutcomeMeans(t: Table, u: Table, pr: Probe, vault: set<string>, now: Clock, m: string)
    requires Settles(t, u, pr, vault, now, m) && IsNormal(m) && m != ""
    ensures pr.httpStatus == 0 || pr.action == "ERROR" ==> u == t
    ensures pr.httpStatus != 0 && pr.action != "ERROR" && pr.httpStatus in {401, 402, 403, 429} ==>
              FreshRow(u, m, pr.httpStatus, vault, now) && forall k :: k in u && Norm(u[k].email) == m ==> k == m
    ensures pr.httpStatus !in {0, 401, 402, 403, 429} && pr.action != "ERROR" ==>
              m !in u && forall k :: k in u ==> Norm(u[k].email) != m
  {
    if ActionOf(pr) == Still429 || ActionOf(pr) == Reclassified { PolicyIsFresh(u, m, pr.httpStatus, vault, now); }
    hide FreshRow, PolicyAccount, Norm, IsNormal;
  }

  /** A probe without an answer is skipped, a 429 is still one, another isolated code
      reclassifies, and only an answer with none of these codes releases. */
  lemma ActionMeans(pr: Probe)
    ensures ActionOf(pr) == Action.Skipped <==> pr.httpStatus == 0 || pr.action == "ERROR"
    ensures ActionOf(pr) == Still429 <==> pr.httpStatus == 429 && pr.action != "ERROR"
    ensures ActionOf(pr) == Reclassified <==> pr.httpStatus in {401, 402, 403} && pr.action != "ERROR"
    ensures ActionOf(pr) == Action.Unbanned <==>
              pr.httpStatus !in {0, 401, 402, 403, 429} && pr.action != "ERROR"
  {}

  /** What an outcome leaves of its own account `m`. */
  ghost predicate Settles(t: Table, u: Table, pr: Probe, vault: set<string>, now: Clock, m: string) {
    match ActionOf(pr)
    case Skipped => u == t
    case Unbanned => m !in u && forall k :: k in u ==> Mailbox(u[k]) != m
    case _ =>
      PolicyAccount(AccountOf(u, m), pr.httpStatus, vault, now, m)
      && forall k :: k in u && Mailbox(u[k]) == m ==> k == m
  }

  /** A classifiable outcome, filed afresh, gives the account its policy window. */
  lemma OutcomePolicy(item: WorkItem, pr: Probe, vault: set<string>, now: Clock, setAt: Clock)
    requires now <= setAt && IsolatedCode(pr.httpStatus) && Norm(MailOf(item, pr)) != ""
    ensures PolicyAccount(Accept(Free, OutcomeEntry(item, pr, vault, now), setAt),
                          pr.httpStatus, vault, now, Norm(MailOf(item, pr)))
  {
    NormFacts(MailOf(item, pr));
    ClassifyByCode(pr.httpStatus, now, MailOf(item, pr), vault);
    hide Norm, FirstNonEmpty;
  }

  lemma ReportIDTrimmed(pr: Probe)
    ensures Trim(ReportID(pr)) == ReportID(pr)
  {}

  /** A classifiable outcome replaces the account's rows by one fresh row. */
  method Refresh(s: BanState, item: WorkItem, pr: Probe, vault: set<string>, now: Clock, setAt: Clock)
    requires s.Valid() && now <= setAt
    requires ActionOf(pr) == Still429 || ActionOf(pr) == Reclassified
    modifies s
    ensures s.Valid() && (old(s.Exact()) ==> s.Exact())
    ensures Effect(old(s.bans), s.bans, ActOfOutcome(item, pr, vault, now, setAt))
    ensures var m := Norm(MailOf(item, pr)); m != "" ==> Settles(old(s.bans), s.bans, pr, vault, now, m)
    ensures var m := Norm(MailOf(item, pr)); m != "" ==> SaysOf(s.bans, m, item, pr, now)
    ensures ListedGone(s.bans, item, pr)
  {
    ghost var t, act := s.bans, ActOfOutcome(item, pr, vault, now, setAt);
    var email, id := MailOf(item, pr), ReportID(pr);
    ClassifyByCode(pr.httpStatus, now, email, vault);
    var c := ClassifyFailure(pr.httpStatus, now, email, vault).value;
    var e := c.(source := if pr.httpStatus == TOO_MANY then "recheck429" else "probe", email := email,
                labelText := FirstNonEmpty([pr.name, pr.file]), authRef := id);
    ClearBan(s, item.banID, act);
    ghost var u := s.bans;
    hide Norm, Effect, Settles, Released, FirstNonEmpty, Spelled, Filed, ScanIndex, Listing, Shrunk, SaysOf;
    hide ClassifyFailure, ListedGone, Trim;
    if email != "" { ClearMail(s, email, act, t); } else { BlankMail(t, u, act); }
    ghost var w := s.bans;
    s.Set(id, e, setAt);
    assert e == OutcomeEntry(item, pr, vault, now);
    if Norm(email) != "" { RefreshSays(w, item, pr, vault, now, setAt); }
    ListedStaysGone(w, item, pr, vault, now, setAt);
    RefreshSettles(t, w, item, pr, vault, now, setAt);
    RefreshEffect(t, w, item, pr, vault, now, setAt);
  }

  lemma BlankMail(t: Table, u: Table, act: Act)
    requires Released(t, u, act, false) && act.mail == Norm("")
    ensures Released(t, u, act, true) && Norm("") == ""
  {
    assert Norm("") == "";
  }

  /** Clear the account's e-mail after its listed row. */
  method ClearMail(s: BanState, email: string, ghost act: Act, ghost t: Table)
    requires s.Valid() && Released(t, s.bans, act, false) && act.mail == Norm(email)
    modifies s
    ensures s.Valid() && (old(s.Exact()) ==> s.Exact()) && Released(t, s.bans, act, true)
    ensures s.bans.Keys <= old(s.bans.Keys)
    ensures act.mail != "" ==> act.mail !in s.bans && forall k :: k in s.bans ==> Mailbox(s.bans[k]) != act.mail
  {
    ReleaseByMail(t, s.bans, act, email, false);
    hide Released, Norm, Spelled, Filed, ScanIndex, Listing;
    var n := s.ClearByEmail(email);
  }

  lemma RefreshSettles(t: Table, w: Table, item: WorkItem, pr: Probe, vault: set<string>, now: Clock, setAt: Clock)
    requires ActionOf(pr) == Still429 || ActionOf(pr) == Reclassified
    requires var m, e := Norm(MailOf(item, pr)), OutcomeEntry(item, pr, vault, now);
             && now <= setAt && (m != "" ==> m !in w)
    ensures var m, e := Norm(MailOf(item, pr)), OutcomeEntry(item, pr, vault, now);
            m != "" ==> Settles(t, SetTable(w, ReportID(pr), e, setAt), pr, vault, now, m)
  {
    var m, e, id := Norm(MailOf(item, pr)), OutcomeEntry(item, pr, vault, now), ReportID(pr);
    if m != "" {
      var u := SetTable(w, id, e, setAt);
      SetRefines(w, id, e, setAt);
      OutcomePolicy(item, pr, vault, now, setAt);
      WrittenMail(w, id, e, setAt);
      hide SetTable, OutcomeEntry, Norm, PolicyAccount, RowFiled;
      assert AccountOf(w, m) == Free && m in u && Mailbox(u[m]) == m;
    }
  }

  lemma WrittenMail(t: Table, id: string, e: Entry, setAt: Clock)
    requires Norm(e.email) != ""
    ensures var m, u := Norm(e.email), SetTable(t, id, e, setAt);
            && StorageKey(e.email, id) == m && m in u && Mailbox(u[m]) == m
            && forall k :: k in u && Mailbox(u[k]) == m ==> k == m
  {
    SetRow(t, id, e, setAt);
    RequestShape(id, e, setAt);
    hide Norm, Requested;
  }

  lemma RefreshEffect(t: Table, w: Table, item: WorkItem, pr: Probe, vault: set<string>, now: Clock, setAt: Clock)
    requires ActionOf(pr) == Still429 || ActionOf(pr) == Reclassified
    requires var act := ActOfOutcome(item, pr, vault, now, setAt);
             Released(t, w, act, true) && Spelled(w)
    ensures var act := ActOfOutcome(item, pr, vault, now, setAt);
            Effect(t, SetTable(w, act.id, OutcomeEntry(item, pr, vault, now), setAt), act)
  {
    ReportIDTrimmed(pr);
    hide Norm, FirstNonEmpty, Trim, ClassifyFailure;
    WriteEffect(t, w, ActOfOutcome(item, pr, vault, now, setAt));
  }

  /** Clear the row a work item was listed for. */
  method ClearBan(s: BanState, banID: string, ghost act: Act)
    requires s.Valid() && act.names == [banID]
    modifies s
    ensures s.Valid() && (old(s.Exact()) ==> s.Exact()) && Released(old(s.bans), s.bans, act, false)
    ensures Trim(banID) !in s.bans.Keys - {""}
  {
    ghost var t := s.bans;
    var c := s.Clear(banID);
    ghost var hit: Option<string> :| MayAnswer(t, banID, hit) && c == hit.Some? && s.bans == ClearTable(t, hit);
    DropClears(t, banID, act, hit);
    if Trim(banID) != "" { KeyIsCleared(t, banID, hit); }
  }

  /** One probe outcome. */
  method ProcessOutcome(s: BanState, item: WorkItem, pr: Probe, vault: set<string>, now: Clock, setAt: Clock)
    returns (detail: Detail)
    requires s.Valid() && now <= setAt
    modifies s
    ensures s.Valid() && (old(s.Exact()) ==> s.Exact())
    ensures Effect(old(s.bans), s.bans, ActOfOutcome(item, pr, vault, now, setAt))
    ensures detail == Detail(item.banID, MailOf(item, pr), pr.httpStatus, ActionOf(pr))
    ensures pr.httpStatus == 0 || pr.action == "ERROR" ==> s.bans == old(s.bans) && detail.action == Action.Skipped
    ensures pr.httpStatus != 0 && pr.action != "ERROR" ==>
              detail.action == if pr.httpStatus == 429 then Still429
                               else if pr.httpStatus in {401, 402, 403} then Reclassified else Action.Unbanned
    ensures var m := Norm(FirstNonEmpty([pr.email, item.email]));
            pr.httpStatus != 0 && pr.action != "ERROR" && m != "" ==>
              if pr.httpStatus in {401, 402, 403, 429}
              then && FreshRow(s.bans, m, pr.httpStatus, vault, now) && SaysOf(s.bans, m, item, pr, now)
                   && forall k :: k in s.bans && Norm(s.bans[k].email) == m ==> k == m
              else m !in s.bans && forall k :: k in s.bans ==> Norm(s.bans[k].email) != m
    ensures pr.httpStatus in {401, 402, 403, 429} && pr.action != "ERROR" ==> ListedGone(s.bans, item, pr)
    ensures pr.httpStatus !in {0, 401, 402, 403, 429} && pr.action != "ERROR" ==>
              FirstNonEmpty([pr.email, item.email]) == "" ==> Trim(item.banID) !in s.bans.Keys - {""}
  {
    hide *;
    ghost var t := s.bans;
    detail := SettleOutcome(s, item, pr, vault, now, setAt);
    ActionMeans(pr);
    OutcomeLaw(t, s.bans, item, pr, vault, now);
    MailOfLaw(item, pr);
  }

  lemma MailOfLaw(item: WorkItem, pr: Probe)
    ensures MailOf(item, pr) == FirstNonEmpty([pr.email, item.email])
  {}

  lemma OutcomeLaw(t: Table, u: Table, item: WorkItem, pr: Probe, vault: set<string>, now: Clock)
    requires var m := Norm(MailOf(item, pr)); m != "" ==> Settles(t, u, pr, vault, now, m)
    ensures var m := Norm(FirstNonEmpty([pr.email, item.email]));
            pr.httpStatus != 0 && pr.action != "ERROR" && m != "" ==>
              if pr.httpStatus in {401, 402, 403, 429}
              then FreshRow(u, m, pr.httpStatus, vault, now) && forall k :: k in u && Norm(u[k].email) == m ==> k == m
              else m !in u && forall k :: k in u ==> Norm(u[k].email) != m
  {
    var m := Norm(MailOf(item, pr));
    NormFacts(MailOf(item, pr));
    if m != "" { OutcomeMeans(t, u, pr, vault, now, m); }
    hide Settles, FreshRow, Norm, IsNormal, FirstNonEmpty;
  }

  /** The three branches of an outcome. */
  method SettleOutcome(s: BanState, item: WorkItem, pr: Probe, vault: set<string>, now: Clock, setAt: Clock)
    returns (detail: Detail)
    requires s.Valid() && now <= setAt
    modifies s
    ensures s.Valid() && (old(s.Exact()) ==> s.Exact())
    ensures detail == Detail(item.banID, MailOf(item, pr), pr.httpStatus, ActionOf(pr))
    ensures Effect(old(s.bans), s.bans, ActOfOutcome(item, pr, vault, now, setAt))
    ensures var m := Norm(MailOf(item, pr)); m != "" ==> Settles(old(s.bans), s.bans, pr, vault, now, m)
    ensures ActionOf(pr) == Action.Skipped ==> s.bans == old(s.bans)
    ensures var m := Norm(MailOf(item, pr));
            pr.httpStatus in {401, 402, 403, 429} && pr.action != "ERROR" && m != "" ==>
              SaysOf(s.bans, m, item, pr, now)
    ensures pr.httpStatus in {401, 402, 403, 429} && pr.action != "ERROR" ==> ListedGone(s.bans, item, pr)
    ensures ActionOf(pr) == Action.Unbanned && MailOf(item, pr) == "" ==> Trim(item.banID) !in s.bans.Keys - {""}
  {
    ghost var t, act := s.bans, ActOfOutcome(item, pr, vault, now, setAt);
    var email := MailOf(item, pr);
    hide Effect, Spelled, Filed, ScanIndex, Listing, OutcomeEntry, SaysOf, ListedGone, Trim;
    // Network or load failure: keep the isolation.
    if pr.httpStatus == 0 || pr.action == "ERROR" || (pr.error != "" && pr.httpStatus == 0) {
      LeaveEffect(t, act);
      return Detail(item.banID, email, pr.httpStatus, Action.Skipped);
    }
    ClassifyByCode(pr.httpStatus, now, email, vault);
    if ClassifyFailure(pr.httpStatus, now, email, vault).Some? {
      Refresh(s, item, pr, vault, now, setAt);
      return Detail(item.banID, email, pr.httpStatus, if pr.httpStatus == TOO_MANY then Still429 else Reclassified);
    }
    ReleaseOutcome(s, item, pr, act);
    return Detail(item.banID, email, pr.httpStatus, Action.Unbanned);
  }

  /** A healthy outcome releases the account. */
  method ReleaseOutcome(s: BanState, item: WorkItem, pr: Probe, ghost act: Act)
    requires s.Valid() && ActionOf(pr) == Action.Unbanned
    requires act.mail == Norm(MailOf(item, pr)) && act.names == [item.banID] && act.verdict.Release?
    modifies s
    ensures s.Valid() && (old(s.Exact()) ==> s.Exact())
    ensures Effect(old(s.bans), s.bans, act)
    ensures var m := Norm(MailOf(item, pr));
            m != "" ==> m !in s.bans && forall k :: k in s.bans ==> Mailbox(s.bans[k]) != m
    ensures MailOf(item, pr) == "" ==> Trim(item.banID) !in s.bans.Keys - {""}
  {
    ghost var t := s.bans;
    var email := MailOf(item, pr);
    hide Trim, Norm, Effect, FirstNonEmpty, Spelled, Filed, ScanIndex, Listing;
    if email != "" {
      NothingReleased(t, act);
      ClearMail(s, email, act, t);
    } else {
      ClearBan(s, item.banID, act);
      BlankMail(t, s.bans, act);
    }
    ReleaseEffect(t, s.bans, act);
  }

  // ---- Counters ----

  datatype Counts = Counts(still429: nat, unbanned: nat, reclassified: nat, skipped: nat) {
    function Total(): nat { still429 + unbanned + reclassified + skipped }

    function Add(a: Action): Counts {
      match a
      case Still429 => this.(still429 := still429 + 1)
      case Unbanned => this.(unbanned := unbanned + 1)
      case Reclassified => this.(reclassified := reclassified + 1)
      case Skipped => this.(skipped := skipped + 1)
    }
  }

  function CountOf(details: seq<Detail>, a: Action): nat {
    if details == [] then 0
    else CountOf(details[..|details| - 1], a) + (if details[|details| - 1].action == a then 1 else 0)
  }

  predicate Tallies(c: Counts, details: seq<Detail>) {
    && c.still429 == CountOf(details, Still429) && c.unbanned == CountOf(details, Action.Unbanned)
    && c.reclassified == CountOf(details, Reclassified) && c.skipped == CountOf(details, Action.Skipped)
    && c.Total() == |details|
  }

  lemma TallyStep(c: Counts, details: seq<Detail>, d: Detail)
    requires Tallies(c, details)
    ensures Tallies(c.Add(d.action), details + [d])
  {
    assert (details + [d])[..|details|] == details;
  }

  lemma TallyNone()
    ensures Tallies(Counts(0, 0, 0, 0), [])
  {}

  lemma {:induction false} TallyReleased(details: seq<Detail>)
    requires forall d :: d in details ==> d.action == Action.Unbanned
    ensures Tallies(Counts(0, |details|, 0, 0), details)
  {
    hide Tallies, CountOf;
    if details == [] {
      TallyNone();
    } else {
      var k := |details| - 1;
      var init, last := details[..k], details[k];
      assert last in details && init + [last] == details;
      TallyReleased(init);
      TallyStep(Counts(0, k, 0, 0), init, last);
      assert Counts(0, k, 0, 0).Add(last.action) == Counts(0, k + 1, 0, 0);
    }
  }

  // ---- All outcomes ----

  /** The order in which a pool delivers the outcomes of `n` work items. */
  ghost predicate IsDelivery(order: seq<nat>, n: nat) { multiset(order) == UpTo(n) }

  lemma DeliveryOnce(order: seq<nat>, n: nat)
    requires IsDelivery(order, n)
    ensures |order| == n && (forall k :: 0 <= k < |order| ==> order[k] < n)
    ensures forall i :: 0 <= i < n ==> i in order
    ensures forall j, k :: 0 <= j < k < |order| ==> order[j] != order[k]
  {
    UpToSize(n);
    assert |multiset(order)| == |order|;
    forall k | 0 <= k < |order| ensures order[k] < n {
      assert order[k] in multiset(order);
      UpToCounts(n, order[k]);
    }
    forall i | 0 <= i < n ensures i in order {
      UpToCounts(n, i);
      assert i in multiset(order);
    }
    forall j, k | 0 <= j < k < |order| ensures order[j] != order[k] {
      UpToCounts(n, order[k]);
      assert order == order[..k] + order[k..];
      assert multiset(order)[order[k]] == multiset(order[..k])[order[k]] + multiset(order[k..])[order[k]];
      assert order[j] in order[..k] && order[k] in order[k..];
    }
  }

  /** The recheck's own pool, never cancelled, delivers every item exactly once. */
  lemma PoolDelivers(items: nat, workers: nat, mvs: seq<ScanPool.Move>, p: ScanPool.Pool)
    requires ScanPool.Reaches(ScanPool.Start(items, workers, items), mvs, p) && ScanPool.Finished(p)
    requires ScanPool.Move.Cancel !in mvs
    ensures IsDelivery(p.collected, items)
  {
    ScanPool.FinishedPool(items, workers, items, mvs, p);
  }

  ghost predicate InWork(work: seq<WorkItem>, order: seq<nat>) {
    forall k :: 0 <= k < |order| ==> order[k] < |work|
  }

  /** The acts of the outcomes as delivered; each is classified at one clock reading
      and filed by the next. */
  ghost function OutcomeActs(work: seq<WorkItem>, order: seq<nat>, probes: nat -> Probe, vault: set<string>,
                             clock: nat -> Clock): (acts: seq<Act>)
    ensures InWork(work, order) ==> |acts| == |order|
    ensures InWork(work, order) ==> forall k :: 0 <= k < |order| ==>
              acts[k] == ActOfOutcome(work[order[k]], probes(order[k]), vault, clock(k), clock(k + 1))
  {
    if InWork(work, order) then
      seq(|order|, k requires 0 <= k < |order| =>
        ActOfOutcome(work[order[k]], probes(order[k]), vault, clock(k), clock(k + 1)))
    else []
  }

  ghost predicate NonDecreasing(clock: nat -> Clock) {
    forall j: nat, k: nat :: j <= k ==> clock(j) <= clock(k)
  }

  lemma ClockStep(clock: nat -> Clock, n: nat)
    requires NonDecreasing(clock)
    ensures clock(n) <= clock(n + 1)
  {}

  /** The order in which the pool delivers `n` items. */
  function Delivery(order: nat -> seq<nat>, n: nat): seq<nat> { order(n) }

  /** The pool delivers every work list in full, in some order. */
  ghost predicate Delivers(order: nat -> seq<nat>) { forall n: nat :: IsDelivery(Delivery(order, n), n) }

  /** After the dropped rows the details list the first `n` work items delivered,
      each with the action its probe calls for. */
  ghost predicate Listed(work: seq<WorkItem>, order: seq<nat>, probes: nat -> Probe, details: seq<Detail>,
                         dropped: seq<Detail>, n: nat) {
    && n <= |order| && |details| == |dropped| + n && details[..|dropped|] == dropped
    && forall k :: 0 <= k < n ==>
         && order[k] < |work|
         && var item, pr := work[order[k]], probes(order[k]);
            details[|dropped| + k] == Detail(item.banID, MailOf(item, pr), pr.httpStatus, ActionOf(pr))
  }

  lemma ListedStep(work: seq<WorkItem>, order: seq<nat>, probes: nat -> Probe, details: seq<Detail>,
                   dropped: seq<Detail>, n: nat, d: Detail)
    requires Listed(work, order, probes, details, dropped, n) && n < |order| && order[n] < |work|
    requires var item, pr := work[order[n]], probes(order[n]);
             d == Detail(item.banID, MailOf(item, pr), pr.httpStatus, ActionOf(pr))
    ensures Listed(work, order, probes, details + [d], dropped, n + 1)
  {
    hide ActionOf, MailOf;
    var more := details + [d];
    assert forall k :: 0 <= k < |details| ==> more[k] == details[k];
    assert more[..|dropped|] == details[..|dropped|];
  }

  /** The result loop: outcomes arrive in the order the pool delivers them. */
  method ProcessAll(s: BanState, work: seq<WorkItem>, order: seq<nat>, probes: nat -> Probe, vault: set<string>,
                    clock: nat -> Clock, counts0: Counts, dropped: seq<Detail>)
    returns (counts: Counts, details: seq<Detail>, done: nat)
    requires s.Valid() && IsDelivery(order, |work|) && Tallies(counts0, dropped)
    requires NonDecreasing(clock)
    modifies s
    ensures s.Valid() && (old(s.Exact()) ==> s.Exact()) && Tallies(counts, details) && done == |work| == |order|
    ensures Listed(work, order, probes, details, dropped, |order|)
    ensures (forall d :: d in dropped ==> d.action == Action.Unbanned) ==>
              CountsProbes(counts, |dropped|, order, probes)
    ensures Batch(old(s.bans), s.bans, OutcomeActs(work, order, probes, vault, clock))
  {
    DeliveryOnce(order, |work|);
    counts, details, done := counts0, dropped, 0;
    ghost var t, acts := s.bans, OutcomeActs(work, order, probes, vault, clock);
    EmptyBatch(t);
    assert Listed(work, order, probes, details, dropped, 0);
    hide NonDecreasing, Batch, Effect, ActOfOutcome, Tallies, IsDelivery, Settles, ActionOf, Listed;
    hide Spelled, Filed, ScanIndex, Listing, MailOf, OutcomeActs, CountsProbes;
    for n := 0 to |order|
      invariant s.Valid() && (old(s.Exact()) ==> s.Exact()) && Tallies(counts, details) && done == n
      invariant Listed(work, order, probes, details, dropped, n)
      invariant Batch(t, s.bans, acts[..n])
    {
      ghost var u := s.bans;
      var i := order[n];
      ClockStep(clock, n);
      var d := ProcessOutcome(s, work[i], probes(i), vault, clock(n), clock(n + 1));
      BatchGrows(t, u, s.bans, acts, n);
      TallyStep(counts, details, d);
      ListedStep(work, order, probes, details, dropped, n, d);
      counts, details, done := counts.Add(d.action), details + [d], done + 1;
    }
    assert acts[..|order|] == acts;
    if forall d :: d in dropped ==> d.action == Action.Unbanned {
      PassCounts(work, order, probes, details, dropped, counts);
    }
  }

  /** How many of the probes answer `p`. */
  function CountProbes(p: Probe -> bool, order: seq<nat>, probes: nat -> Probe): nat {
    if order == [] then 0
    else CountProbes(p, order[..|order| - 1], probes) + (if p(probes(order[|order| - 1])) then 1 else 0)
  }

  /** The counters of a pass, by the answers of its probes: no answer is skipped, a
      429 is still one, another isolated code reclassifies; each other answer and
      each row dropped for a missing file is a release. */
  ghost predicate CountsProbes(c: Counts, dropped: nat, order: seq<nat>, probes: nat -> Probe) {
    && c.skipped == CountProbes((pr: Probe) => pr.httpStatus == 0 || pr.action == "ERROR", order, probes)
    && c.still429 == CountProbes((pr: Probe) => pr.action != "ERROR" && pr.httpStatus == 429, order, probes)
    && c.reclassified ==
         CountProbes((pr: Probe) => pr.action != "ERROR" && pr.httpStatus in {401, 402, 403}, order, probes)
    && c.unbanned == dropped
         + CountProbes((pr: Probe) => pr.action != "ERROR" && pr.httpStatus !in {0, 401, 402, 403, 429}, order, probes)
  }

  lemma {:induction false} ListedCount(work: seq<WorkItem>, order: seq<nat>, probes: nat -> Probe,
                                       details: seq<Detail>, dropped: seq<Detail>, a: Action, p: Probe -> bool)
    requires Listed(work, order, probes, details, dropped, |order|)
    requires forall pr :: p(pr) <==> ActionOf(pr) == a
    ensures CountOf(details, a) == CountOf(dropped, a) + CountProbes(p, order, probes)
  {
    hide ActionOf, MailOf;
    if order == [] {
      assert details == details[..|dropped|];
    } else {
      var n := |order| - 1;
      var before := details[..|details| - 1];
      assert before[..|dropped|] == details[..|dropped|];
      forall k | 0 <= k < n ensures before[|dropped| + k] == details[|dropped| + k] && order[..n][k] == order[k] {}
      ListedCount(work, order[..n], probes, before, dropped, a, p);
    }
  }

  lemma PassCounts(work: seq<WorkItem>, order: seq<nat>, probes: nat -> Probe, details: seq<Detail>,
                   dropped: seq<Detail>, c: Counts)
    requires Listed(work, order, probes, details, dropped, |order|) && Tallies(c, details)
    requires forall d :: d in dropped ==> d.action == Action.Unbanned
    ensures CountsProbes(c, |dropped|, order, probes)
  {
    hide Listed, CountOf, CountProbes;
    forall pr: Probe
      ensures ActionOf(pr) == Action.Skipped <==> pr.httpStatus == 0 || pr.action == "ERROR"
      ensures ActionOf(pr) == Still429 <==> pr.httpStatus == 429 && pr.action != "ERROR"
      ensures ActionOf(pr) == Reclassified <==> pr.httpStatus in {401, 402, 403} && pr.action != "ERROR"
      ensures ActionOf(pr) == Action.Unbanned <==> pr.httpStatus !in {0, 401, 402, 403, 429} && pr.action != "ERROR"
    {
      ActionMeans(pr);
    }
    hide ActionOf;
    TallyReleased(dropped);
    ListedCount(work, order, probes, details, dropped, Action.Skipped,
                (pr: Probe) => pr.httpStatus == 0 || pr.action == "ERROR");
    ListedCount(work, order, probes, details, dropped, Still429,
                (pr: Probe) => pr.action != "ERROR" && pr.httpStatus == 429);
    ListedCount(work, order, probes, details, dropped, Reclassified,
                (pr: Probe) => pr.action != "ERROR" && pr.httpStatus in {401, 402, 403});
    ListedCount(work, order, probes, details, dropped, Action.Unbanned,
                (pr: Probe) => pr.action != "ERROR" && pr.httpStatus !in {0, 401, 402, 403, 429});
  }

  // ---- The whole pass ----

  datatype Pass =
    | HostFailed
    | Completed(counts: Counts, total: nat, dropped: nat, details: seq<Detail>)

  /** What a completed pass did: it collected `work` from `base`, dropping rows on the
      way, and left `after`. Every dropped row and every work item is listed once
      and counted by its action, and the ledger is what the releases and outcomes,
      as one batch, made of the base. */
  ghost predicate Exact(pass: Pass, files: seq<AuthFile>, base: Table, opts: Options, now: Clock, work: seq<WorkItem>,
                        collected: Table, after: Table, order: seq<nat>, probes: nat -> Probe, vault: set<string>,
                        clock: nat -> Clock) {
    && pass.Completed? && pass.total == |work| == |order| && pass.dropped <= |pass.details|
    && Tallies(pass.counts, pass.details)
    && pass.counts.Total() == |pass.details| == pass.total + pass.dropped
    && CountsProbes(pass.counts, pass.dropped, order, probes)
    && var drops := pass.details[..pass.dropped];
       && Collected(files, base, opts, now, work, drops, collected)
       && Listed(work, order, probes, pass.details, drops, |order|)
       && Batch(base, after, DropActs(drops) + OutcomeActs(work, order, probes, vault, clock))
  }

  lemma PassIsExact(files: seq<AuthFile>, base: Table, opts: Options, now: Clock, work: seq<WorkItem>,
                    drops: seq<Detail>, collected: Table, after: Table, order: seq<nat>, probes: nat -> Probe,
                    vault: set<string>, clock: nat -> Clock, counts: Counts, details: seq<Detail>)
    requires Collected(files, base, opts, now, work, drops, collected) && |order| == |work|
    requires Tallies(counts, details) && Listed(work, order, probes, details, drops, |order|)
    requires Batch(collected, after, OutcomeActs(work, order, probes, vault, clock))
    ensures Exact(Completed(counts, |work|, |drops|, details), files, base, opts, now, work, collected, after,
                  order, probes, vault, clock)
  {
    CollectedBatch(files, base, opts, now, work, drops, collected);
    BatchesCompose(base, collected, after, DropActs(drops), OutcomeActs(work, order, probes, vault, clock));
    TotalIsLength(counts, details);
    PassCounts(work, order, probes, details, drops, counts);
    ListedPrefix(work, order, probes, details, drops, |order|);
    hide Collected, Listed, Batch, Tallies, OutcomeActs, DropActs, CountsProbes;
  }

  /** A pass over a credential list that the host did answer. */
  method RunPass(s: BanState, files: seq<AuthFile>, opts: Options, now: Clock, order: nat -> seq<nat>,
                 probes: nat -> Probe, vault: set<string>, clock: nat -> Clock)
    returns (pass: Pass, work: seq<WorkItem>, ghost collected: Table)
    requires s.Valid() && NonDecreasing(clock) && Delivers(order)
    modifies s
    ensures s.Valid() && (old(s.Exact()) ==> s.Exact())
    ensures Exact(pass, files, Base(old(s.bans), opts, now), opts, now, work, collected, s.bans,
                  Delivery(order, |work|), probes, vault, clock)
  {
    hide *;
    ghost var base := Base(s.bans, opts, now);
    var drops;
    work, drops := Collect(s, files, opts, now);
    collected := s.bans;
    ghost var delivered := Delivery(order, |work|);
    StartCounting(files, base, opts, now, work, drops, collected);
    var counts, details, done := ProcessWork(s, work, order, probes, vault, clock, drops);
    PassIsExact(files, base, opts, now, work, drops, collected, s.bans, delivered, probes, vault, clock,
                counts, details);
    pass := Completed(counts, |work|, |drops|, details);
  }

  lemma StartCounting(files: seq<AuthFile>, base: Table, opts: Options, now: Clock, work: seq<WorkItem>,
                      drops: seq<Detail>, collected: Table)
    requires Collected(files, base, opts, now, work, drops, collected)
    ensures Tallies(Counts(0, |drops|, 0, 0), drops)
  {
    CollectedBatch(files, base, opts, now, work, drops, collected);
    hide Collected, Tallies;
    TallyReleased(drops);
  }

  /** The outcomes of the pass's own pool. */
  method ProcessWork(s: BanState, work: seq<WorkItem>, order: nat -> seq<nat>, probes: nat -> Probe, vault: set<string>,
                     clock: nat -> Clock, drops: seq<Detail>)
    returns (counts: Counts, details: seq<Detail>, done: nat)
    requires s.Valid() && NonDecreasing(clock) && Delivers(order) && Tallies(Counts(0, |drops|, 0, 0), drops)
    modifies s
    ensures s.Valid() && (old(s.Exact()) ==> s.Exact())
    ensures Tallies(counts, details) && done == |work| == |Delivery(order, |work|)|
    ensures Listed(work, Delivery(order, |work|), probes, details, drops, |Delivery(order, |work|)|)
    ensures Batch(old(s.bans), s.bans, OutcomeActs(work, Delivery(order, |work|), probes, vault, clock))
  {
    assert IsDelivery(Delivery(order, |work|), |work|);
    hide *;
    var delivered := Delivery(order, |work|);
    counts, details, done := ProcessAll(s, work, delivered, probes, vault, clock, Counts(0, |drops|, 0, 0), drops);
  }

  /** runBanProbeBody. */
  method RecheckPass(s: BanState, files: Option<seq<AuthFile>>, opts: Options, now: Clock, order: nat -> seq<nat>,
                     probes: nat -> Probe, vault: set<string>, clock: nat -> Clock)
    returns (pass: Pass, ghost work: seq<WorkItem>, ghost collected: Table)
    requires s.Valid() && NonDecreasing(clock) && Delivers(order)
    modifies s
    ensures s.Valid() && (old(s.Exact()) ==> s.Exact())
    ensures files.None? ==> pass == HostFailed && s.bans == old(s.bans)
    ensures files.Some? ==> Exact(pass, files.value, Base(old(s.bans), opts, now), opts, now, work, collected, s.bans,
                                  Delivery(order, |work|), probes, vault, clock)
  {
    hide *;
    if files.None? { return HostFailed, [], s.bans; }
    pass, work, collected := RunPass(s, files.value, opts, now, order, probes, vault, clock);
  }

  lemma ListedPrefix(work: seq<WorkItem>, order: seq<nat>, probes: nat -> Probe, details: seq<Detail>,
                     dropped: seq<Detail>, n: nat)
    requires Listed(work, order, probes, details, dropped, n)
    ensures |details| == |dropped| + n && details[..|dropped|] == dropped
  {}

  lemma TotalIsLength(c: Counts, details: seq<Detail>)
    requires Tallies(c, details)
    ensures c.Total() == |details|
  {}

  /** What a pass makes of an account that one outcome is about, no dropped row is
      about, and no other finding names: skipped, its very row stays; healthy, it
      has none; still 429 or reclassified, it has the policy window of that code
      from the moment of classification, and count 1. */
  lemma PassSettles(t: Table, u: Table, drops: seq<Detail>, work: seq<WorkItem>, order: seq<nat>,
                    probes: nat -> Probe, vault: set<string>, clock: nat -> Clock, k: nat, m: string)
    requires InWork(work, order)
    requires Batch(t, u, DropActs(drops) + OutcomeActs(work, order, probes, vault, clock))
    requires IsAccount(m) && Disjoint(t, DropActs(drops) + OutcomeActs(work, order, probes, vault, clock), m)
    requires NonDecreasing(clock)
    requires forall d :: d in drops ==> DropAct(d).mail != m
    requires forall j :: 0 <= j < |order| ==> (Norm(MailOf(work[order[j]], probes(order[j]))) == m <==> j == k)
    requires k < |order|
    ensures var pr := probes(order[k]);
            if pr.httpStatus == 0 || pr.action == "ERROR" then SameRow(t, u, m)
            else if pr.httpStatus in {401, 402, 403, 429} then FreshRow(u, m, pr.httpStatus, vault, clock(k))
            else m !in u
  {
    hide *;
    OwnOutcome(work, order, probes, k, m);
    OneAbout(drops, work, order, probes, vault, clock, k, m);
    ClockStep(clock, k);
    AccountIsNormal(m);
    var acts, at := DropActs(drops) + OutcomeActs(work, order, probes, vault, clock), |drops| + k;
    var item, pr, now, setAt := work[order[k]], probes(order[k]), clock(k), clock(k + 1);
    OneFindingSettles(t, u, acts, at, m);
    VerdictMeans(t, u, item, pr, vault, now, setAt, m);
    ActionMeans(pr);
    if pr.httpStatus in {401, 402, 403, 429} && pr.action != "ERROR" { PolicyIsFresh(u, m, pr.httpStatus, vault, now); }
  }

  lemma OwnOutcome(work: seq<WorkItem>, order: seq<nat>, probes: nat -> Probe, k: nat, m: string)
    requires InWork(work, order) && k < |order|
    requires forall j :: 0 <= j < |order| ==> (Norm(MailOf(work[order[j]], probes(order[j]))) == m <==> j == k)
    ensures order[k] < |work| && Norm(MailOf(work[order[k]], probes(order[k]))) == m
  {
    hide MailOf, Norm;
  }

  lemma AccountIsNormal(m: string)
    requires IsAccount(m)
    ensures IsNormal(m) && m != ""
  {}

  /** What an outcome's verdict on its own account means. */
  lemma VerdictMeans(t: Table, u: Table, item: WorkItem, pr: Probe, vault: set<string>, now: Clock, setAt: Clock,
                     m: string)
    requires now <= setAt && m == Norm(MailOf(item, pr)) != ""
    requires var v := ActOfOutcome(item, pr, vault, now, setAt).verdict;
             AccountOf(u, m) == Decide(v, AccountOf(t, m)) && (v.Leave? ==> SameRow(t, u, m))
    ensures match ActionOf(pr)
            case Skipped => SameRow(t, u, m)
            case Unbanned => m !in u
            case _ => PolicyAccount(AccountOf(u, m), pr.httpStatus, vault, now, m)
  {
    if IsolatedCode(pr.httpStatus) { OutcomePolicy(item, pr, vault, now, setAt); }
    hide OutcomeEntry, PolicyAccount, Norm, MailOf, Accept;
  }

  lemma OneAbout(drops: seq<Detail>, work: seq<WorkItem>, order: seq<nat>,
                 probes: nat -> Probe, vault: set<string>, clock: nat -> Clock, k: nat, m: string)
    requires InWork(work, order)
    requires forall d :: d in drops ==> DropAct(d).mail != m
    requires forall j :: 0 <= j < |order| ==> (Norm(MailOf(work[order[j]], probes(order[j]))) == m <==> j == k)
    requires k < |order|
    ensures var acts := DropActs(drops) + OutcomeActs(work, order, probes, vault, clock);
            && |drops| + k < |acts| && acts[|drops| + k].mail == m
            && acts[|drops| + k] == ActOfOutcome(work[order[k]], probes(order[k]), vault, clock(k), clock(k + 1))
            && forall i :: 0 <= i < |acts| && i != |drops| + k ==> acts[i].mail != m
  {
    hide MailOf, Norm, DropAct;
    var acts := DropActs(drops) + OutcomeActs(work, order, probes, vault, clock);
    forall i | 0 <= i < |acts| && i != |drops| + k ensures acts[i].mail != m {
      if i < |drops| { assert drops[i] in drops; }
    }
  }
}
