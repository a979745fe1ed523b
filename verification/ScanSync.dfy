/** Feeding probe results and usage failures into the ledger. */
module ScanSync {
  import opened Text
  import opened BanTable
  import opened BanLedger
  import opened BanAccounts
  import opened BanRuns
  import opened Reconcile
  import opened Policy
  import opened Wrappers

  datatype Probe = Probe(
    authIndex: string, authID: string, name: string, file: string, path: string, email: string,
    httpStatus: int, action: string, status: string, summary: string, error: string)

  datatype Usage = Usage(provider: string, authID: string, email: string, failed: bool, status: int, tag: string)

  /** filepathBase: what follows the last slash of either kind. */
  function FileBase(p: string): string {
    if p == "" then ""
    else if '/' in p[1..] || '\\' in p[1..] then FileBase(p[1..])
    else if p[0] == '/' || p[0] == '\\' then p[1..]
    else p
  }

  function AccountStatus(r: Probe): string {
    if r.action == "ERROR" || (r.error != "" && r.httpStatus == 0 && r.action != "OK") then "error"
    else match r.httpStatus
         case 200 => "healthy"
         case 201 => "healthy"
         case 204 => "healthy"
         case 401 => "unauthorized"
         case 402 => "payment"
         case 403 => "forbidden"
         case 429 => "rate_limited"
         case 0 =>
           var low := ToLower(r.summary + " " + r.error);
           if Contains(low, "request failed") || Contains(low, "timeout") || Contains(low, "connection")
           then "network" else "unknown"
         case _ => if r.action == "OK" then "healthy" else "unknown"
  }

  predicate IsHealthy(r: Probe) {
    || r.action == "OK"
    || (if r.status == "" then AccountStatus(r) else r.status) == "healthy"
    || 200 <= r.httpStatus < 300
  }

  /** The label a result carries adds one way to be healthy; the one it would be
      given adds none. */
  lemma HealthyIff(r: Probe)
    ensures IsHealthy(r) <==> r.action == "OK" || r.status == "healthy" || 200 <= r.httpStatus < 300
  {
    hide ToLower, Contains;
  }

  /** What follows the last slash. */
  lemma {:induction false} FileBaseIs(p: string)
    ensures '/' !in FileBase(p) && '\\' !in FileBase(p) && |FileBase(p)| <= |p|
    ensures var n := |p| - |FileBase(p)|; p[n..] == FileBase(p) && (n > 0 ==> p[n - 1] in "/\\")
  {
    if p == "" {
    } else if '/' in p[1..] || '\\' in p[1..] {
      FileBaseIs(p[1..]);
    } else {
      assert p == [p[0]] + p[1..];
    }
  }

  function Identities(r: Probe): seq<string> {
    [r.authID, r.authIndex, r.name, r.file, FileBase(r.path), FileBase(r.file)]
  }

  function ReportID(r: Probe): string { FirstNonEmpty([r.authID, r.authIndex, r.name, r.file]) }

  /** The report a sync files about an unhealthy result. */
  function ScanEntry(r: Probe, vault: set<string>, now: Clock): Entry {
    var c := ClassifyFailure(r.httpStatus, now, r.email, vault);
    (if c.Some? then c.value else Entry(0, "", "", "", "", "", now, 0, 0)).(
      source := "scan", email := r.email, labelText := FirstNonEmpty([r.name, r.file]))
  }

  /** What a sync at `now` does with one result. */
  function ActOf(r: Probe, mode: string, unbanHealthy: bool, vault: set<string>, now: Clock): Act {
    Act(Norm(r.email), Identities(r), ReportID(r),
        if IsHealthy(r) then (if unbanHealthy then Release else Leave)
        else if IsolatedCode(r.httpStatus) && (mode == "candidates" ==> r.action == "DELETE_CANDIDATE")
        then Write(false, ScanEntry(r, vault, now), now)
        else Leave)
  }

  /** The report a sync files: the result's code, e-mail and name, and the time the
      code earns from now on. */
  lemma ScanEntryIs(r: Probe, vault: set<string>, now: Clock)
    requires r.httpStatus in {401, 402, 403, 429}
    ensures var e := ScanEntry(r, vault, now);
            && e == Entry(r.httpStatus, e.reason, "scan", r.email, "", FirstNonEmpty([r.name, r.file]), now,
                          e.resetAt, 0)
            && Earns(r.httpStatus, Norm(r.email) != "" && Norm(r.email) in vault, e.resetAt - now, e.reason)
  {
    ClassifyByCode(r.httpStatus, now, r.email, vault);
    hide ClassifyFailure, Norm, FirstNonEmpty;
  }

  lemma ScanEntryClassified(r: Probe, vault: set<string>, now: Clock)
    requires IsolatedCode(r.httpStatus)
    ensures var e := ScanEntry(r, vault, now);
            && Classified(e) && e.status == r.httpStatus && e.bannedAt == now && e.email == r.email && e.authRef == ""
            && Trim(ReportID(r)) == ReportID(r)
  {
    ClassifyByCode(r.httpStatus, now, r.email, vault);
  }

  /** noteScanBan. */
  method NoteScanBan(s: BanState, r: Probe, vault: set<string>, now: Clock)
    requires s.Valid()
    modifies s
    ensures s.Valid() && (old(s.Exact()) ==> s.Exact())
    ensures s.bans == if r.httpStatus in {401, 402, 403, 429}
                      then SetTable(old(s.bans), FirstNonEmpty([r.authID, r.authIndex, r.name, r.file]),
                                    ScanEntry(r, vault, now), now)
                      else old(s.bans)
  {
    ClassifyByCode(r.httpStatus, now, r.email, vault);
    var c := ClassifyFailure(r.httpStatus, now, r.email, vault);
    if c.None? { return; }
    var e := c.value.(source := "scan", email := r.email, labelText := FirstNonEmpty([r.name, r.file]));
    s.Set(ReportID(r), e, now);
  }

  /** The report a failed request is worth: its code, the e-mail it resolved to, the
      auth id and tag it carries, and the time the code earns from now on. */
  ghost predicate UsageReport(e: Entry, u: Usage, mail: string, vault: set<string>, now: Clock) {
    && e == Entry(u.status, e.reason, "usage", mail, u.authID, u.tag, now, e.resetAt, 0)
    && Earns(u.status, Norm(mail) != "" && Norm(mail) in vault, e.resetAt - now, e.reason)
  }

  lemma XaiFolds(provider: string)
    ensures EqualFold(provider, "xai") <==> ToLower(provider) == "xai"
  {
    LowerAt("xai");
    assert ToLower("xai") == "xai";
  }

  /** handleUsage. `looked` is what the host's e-mail cache answers for the id. */
  method HandleUsage(s: BanState, u: Usage, looked: string, vault: set<string>, now: Clock, setAt: Clock)
    requires s.Valid() && now <= setAt
    modifies s
    ensures s.Valid() && (old(s.Exact()) ==> s.Exact())
    ensures var mail := if u.email == "" then looked else u.email;
            var key := StorageKey(mail, u.authID);
            if ToLower(u.provider) == "xai" && u.failed && u.authID != "" && u.status in {401, 402, 403, 429}
            then && (key != "" ==> Held(s.bans, key, now + RATE_FIXED)
                                   && (u.status == TOO_MANY ==> Sticky(s.bans, key)))
                 && exists e :: UsageReport(e, u, mail, vault, now) &&
                                s.bans == SetTable(old(s.bans), u.authID, e, setAt)
            else s.bans == old(s.bans)
  {
    hide SetTable, ClassifyFailure, UsageReport, Held, Sticky, StorageKey, EqualFold;
    hide Spelled, Filed, ScanIndex, Listing;
    XaiFolds(u.provider);
    if !EqualFold(u.provider, "xai") || !u.failed || u.authID == "" { return; }
    var mail := if u.email == "" then looked else u.email;
    ClassifyByCode(u.status, now, mail, vault);
    var c := ClassifyFailure(u.status, now, mail, vault);
    if c.None? { return; }
    var e := c.value.(source := "usage", email := mail, authRef := u.authID, labelText := u.tag);
    UsageReported(u, mail, vault, now);
    s.Set(u.authID, e, setAt);
    if StorageKey(mail, u.authID) != "" {
      ReportHolds(old(s.bans), u.authID, e, setAt, StorageKey(mail, u.authID));
    }
  }

  lemma UsageReported(u: Usage, mail: string, vault: set<string>, now: Clock)
    requires u.status in {401, 402, 403, 429}
    ensures var c := ClassifyFailure(u.status, now, mail, vault).value;
            var e := c.(source := "usage", email := mail, authRef := u.authID, labelText := u.tag);
            UsageReport(e, u, mail, vault, now)
  {
    ClassifyByCode(u.status, now, mail, vault);
    hide ClassifyFailure, Norm;
  }

  /** Only rows were dropped. */
  ghost predicate Shrunk(t: Table, u: Table) { u.Keys <= t.Keys && forall k :: k in u ==> u[k] == t[k] }

  lemma ShrunkFurther(t: Table, u: Table, w: Table, email: string)
    requires Shrunk(t, u) && Shrunk(u, w)
    ensures Shrunk(t, w) && (u != t ==> w != t)
    ensures RowsOfEmail(u, email) == {} ==> RowsOfEmail(w, email) == {}
  {
    hide Norm;
    if w == t { assert u.Keys == t.Keys; }
    if RowsOfEmail(u, email) == {} {
      forall k ensures k !in RowsOfEmail(w, email) { assert k !in RowsOfEmail(u, email); }
    }
  }

  /** The first `n` names, trimmed, are no keys. */
  ghost predicate NamesGone(t: Table, names: seq<string>, n: nat) {
    forall i :: 0 <= i < n && i < |names| && Trim(names[i]) != "" ==> Trim(names[i]) !in t
  }

  lemma NamesStayGone(t: Table, u: Table, names: seq<string>, n: nat)
    requires NamesGone(t, names, n) && Shrunk(t, u) && n < |names|
    requires Trim(names[n]) != "" ==> Trim(names[n]) !in u
    ensures NamesGone(u, names, n + 1)
  {
    hide Trim;
  }

  /** Clear whatever one of a probe's names leads to. */
  method ClearName(s: BanState, name: string, ghost t: Table, ghost act: Act) returns (found: bool)
    requires s.Valid() && Released(t, s.bans, act, true)
    requires exists i :: 0 <= i < |act.names| && act.names[i] == name
    modifies s
    ensures s.Valid() && (old(s.Exact()) ==> s.Exact()) && Shrunk(old(s.bans), s.bans) && Released(t, s.bans, act, true)
    ensures Trim(name) != "" ==> Trim(name) !in s.bans
    ensures found <==> s.bans != old(s.bans)
  {
    var id := Trim(name);
    if id == "" { return false; }
    ghost var u := s.bans;
    found := s.Clear(id);
    ghost var hit: Option<string> :| MayAnswer(u, id, hit) && found == hit.Some? && s.bans == ClearTable(u, hit);
    assert NameOf(act, id);
    hide Released, Trim, Spelled, Filed, ScanIndex, Listing, NameOf;
    ReleaseByName(t, u, act, id, hit, true);
    KeyIsCleared(u, name, hit);
    ClearShrinks(u, hit);
  }

  lemma ClearShrinks(t: Table, hit: Option<string>)
    ensures Shrunk(t, ClearTable(t, hit))
    ensures hit.Some? && hit.value in t ==> ClearTable(t, hit) != t
  {}

  lemma NothingReleased(t: Table, act: Act)
    ensures Released(t, t, act, false)
  {}

  /** Release every row the probe's e-mail or identities lead to. */
  method ReleaseHealthy(s: BanState, r: Probe, ghost act: Act) returns (cleared: bool)
    requires s.Valid() && act.mail == Norm(r.email) && act.names == Identities(r)
    modifies s
    ensures s.Valid() && (old(s.Exact()) ==> s.Exact()) && Shrunk(old(s.bans), s.bans)
    ensures cleared <==> s.bans != old(s.bans)
    ensures Released(old(s.bans), s.bans, act, true)
    ensures RowsOfEmail(s.bans, r.email) == {}
    ensures forall x :: x in [r.authID, r.authIndex, r.name, r.file, FileBase(r.path), FileBase(r.file)] ==>
              Trim(x) !in s.bans.Keys - {""}
  {
    ghost var t := s.bans;
    cleared := ReleaseMail(s, r.email, act);
    hide Released, Norm, Trim, Spelled, Filed, ScanIndex, Listing, RowsOfEmail, Shrunk, NamesGone;
    var ids := Identities(r);
    assert Shrunk(t, s.bans) && NamesGone(s.bans, ids, 0) by { NoNames(s.bans, ids); }
    for i := 0 to |ids|
      invariant s.Valid() && (old(s.Exact()) ==> s.Exact()) && Shrunk(t, s.bans) && Released(t, s.bans, act, true)
      invariant cleared <==> s.bans != t
      invariant RowsOfEmail(s.bans, r.email) == {} && NamesGone(s.bans, ids, i)
    {
      ghost var u := s.bans;
      var found := ClearName(s, ids[i], t, act);
      ShrunkFurther(t, u, s.bans, r.email);
      NamesStayGone(u, s.bans, ids, i);
      cleared := cleared || found;
    }
    AllNamesGone(s.bans, r);
  }

  lemma AllNamesGone(t: Table, r: Probe)
    requires NamesGone(t, Identities(r), |Identities(r)|)
    ensures forall x :: x in [r.authID, r.authIndex, r.name, r.file, FileBase(r.path), FileBase(r.file)] ==>
              Trim(x) !in t.Keys - {""}
  {
    hide Trim, FileBase;
  }

  lemma NoNames(t: Table, names: seq<string>)
    ensures NamesGone(t, names, 0)
  {}

  /** Release the rows of the probe's e-mail. */
  method ReleaseMail(s: BanState, email: string, ghost act: Act) returns (cleared: bool)
    requires s.Valid() && act.mail == Norm(email)
    modifies s
    ensures s.Valid() && (old(s.Exact()) ==> s.Exact()) && Shrunk(old(s.bans), s.bans)
    ensures cleared <==> s.bans != old(s.bans)
    ensures Released(old(s.bans), s.bans, act, true) && RowsOfEmail(s.bans, email) == {}
  {
    NormFacts(email);
    ghost var t := s.bans;
    NothingReleased(t, act);
    ReleaseByMail(t, t, act, Trim(email), false);
    MailReleased(t, email);
    hide *;
    if Trim(email) == "" { return false; }
    var n := s.ClearByEmail(Trim(email));
    return n > 0;
  }

  lemma MailReleased(t: Table, email: string)
    ensures Shrunk(t, t) && (Trim(email) == "" ==> RowsOfEmail(t, email) == {})
    ensures var u := t - RowsOfEmail(t, Trim(email)); Shrunk(t, u) && RowsOfEmail(u, email) == {}
  {
    NormFacts(email);
    hide Norm;
    assert RowsOfEmail(t, Trim(email)) == RowsOfEmail(t, email);
  }

  /** Clearing by a row's own key removes it. */
  lemma KeyIsCleared(t: Table, name: string, hit: Option<string>)
    requires Trim(name) != "" && MayAnswer(t, Trim(name), hit)
    ensures Trim(name) !in ClearTable(t, hit)
  {
    var q := Trim(name);
    if q in t { assert MayFind(t, q, q); }
  }

  datatype Tick = Banned | Unbanned | Skipped

  /** How a result is counted that takes the ledger from `t` to `u`. */
  predicate CountedAs(r: Probe, mode: string, t: Table, u: Table, tick: Tick) {
    var healthy := r.action == "OK" || r.status == "healthy" || 200 <= r.httpStatus < 300;
    var picked := if mode == "candidates" then r.action == "DELETE_CANDIDATE" else r.httpStatus in {401, 402, 403, 429};
    match tick
    case Banned => !healthy && picked
    case Unbanned => healthy && u != t
    case Skipped => if healthy then u == t else !picked
  }

  /** One step of the reconciliation. */
  method SyncOne(s: BanState, r: Probe, mode: string, unbanHealthy: bool, vault: set<string>, now: Clock)
    returns (tick: Tick)
    requires s.Valid()
    modifies s
    ensures s.Valid() && (old(s.Exact()) ==> s.Exact())
    ensures Effect(old(s.bans), s.bans, ActOf(r, mode, unbanHealthy, vault, now))
    ensures CountedAs(r, mode, old(s.bans), s.bans, tick)
    ensures ActOf(r, mode, unbanHealthy, vault, now).verdict.Leave? ==> s.bans == old(s.bans)
  {
    hide IsHealthy, Effect, ScanEntry, FirstNonEmpty, Identities, ClassifyFailure, Norm;
    hide Spelled, Filed, ScanIndex, Listing;
    ghost var t, act := s.bans, ActOf(r, mode, unbanHealthy, vault, now);
    HealthyIff(r);
    if IsHealthy(r) {
      if !unbanHealthy {
        LeaveEffect(t, act);
        return Skipped;
      }
      var cleared := ReleaseHealthy(s, r, act);
      ReleaseEffect(t, s.bans, act);
      return if cleared then Unbanned else Skipped;
    }
    ClassifyByCode(r.httpStatus, now, r.email, vault);
    var c := ClassifyFailure(r.httpStatus, now, r.email, vault);
    var writeBan := if mode == "candidates" then r.action == "DELETE_CANDIDATE" else c.Some?;
    if writeBan { NoteScanBan(s, r, vault, now); }
    if writeBan && IsolatedCode(r.httpStatus) {
      ScanEntryClassified(r, vault, now);
      WriteEffect(t, t, act);
    } else {
      LeaveEffect(t, act);
    }
    return if writeBan then Banned else Skipped;
  }

  /** The acts of a sync that reads the clock once for each result. */
  function ActsOf(results: seq<Probe>, mode: string, unbanHealthy: bool, vault: set<string>,
                  clock: nat -> Clock): (acts: seq<Act>)
    ensures |acts| == |results|
    ensures forall i :: 0 <= i < |results| ==> acts[i] == ActOf(results[i], mode, unbanHealthy, vault, clock(i))
  {
    seq(|results|, i requires 0 <= i < |results| => ActOf(results[i], mode, unbanHealthy, vault, clock(i)))
  }

  /** `states` are the ledgers between the first `n` results, each taken to the next
      by the act of its result, and `ticks` says how each result is counted. */
  ghost predicate Synced(results: seq<Probe>, mode: string, acts: seq<Act>, states: seq<Table>, ticks: seq<Tick>,
                         n: nat)
    requires |acts| == |results|
  {
    && n <= |results| && |ticks| == n && |states| == n + 1
    && forall i :: 0 <= i < n ==>
         && Effect(states[i], states[i + 1], acts[i])
         && CountedAs(results[i], mode, states[i], states[i + 1], ticks[i])
  }

  lemma SyncedGrows(results: seq<Probe>, mode: string, acts: seq<Act>, states: seq<Table>, ticks: seq<Tick>, n: nat,
                    u: Table, tick: Tick)
    requires |acts| == |results| && Synced(results, mode, acts, states, ticks, n) && n < |results|
    requires Effect(states[n], u, acts[n]) && CountedAs(results[n], mode, states[n], u, tick)
    ensures Synced(results, mode, acts, states + [u], ticks + [tick], n + 1)
    ensures |ticks| == n && |states| == n + 1 && (states + [u])[0] == states[0] && (states + [u])[n + 1] == u
  {
    hide Effect, CountedAs;
  }

  lemma SyncStarts(results: seq<Probe>, mode: string, acts: seq<Act>, t: Table)
    requires |acts| == |results|
    ensures Synced(results, mode, acts, [t], [], 0) && Counters([], 0, 0, 0) && acts[..0] == []
  {}

  /** The three counters, given how each result is counted. */
  predicate Counters(ticks: seq<Tick>, banned: nat, unbanned: nat, skipped: nat) {
    && banned == multiset(ticks)[Banned] && unbanned == multiset(ticks)[Unbanned]
    && skipped == multiset(ticks)[Skipped] && banned + unbanned + skipped == |ticks|
  }

  lemma CountersGrow(ticks: seq<Tick>, banned: nat, unbanned: nat, skipped: nat, tick: Tick)
    requires Counters(ticks, banned, unbanned, skipped)
    ensures match tick
            case Banned => Counters(ticks + [tick], banned + 1, unbanned, skipped)
            case Unbanned => Counters(ticks + [tick], banned, unbanned + 1, skipped)
            case Skipped => Counters(ticks + [tick], banned, unbanned, skipped + 1)
  {}

  /** The reconciliation loop. */
  method SyncAll(s: BanState, results: seq<Probe>, mode: string, unbanHealthy: bool, vault: set<string>,
                 clock: nat -> Clock)
    returns (banned: nat, unbanned: nat, skipped: nat, ghost states: seq<Table>, ghost ticks: seq<Tick>)
    requires s.Valid()
    modifies s
    ensures s.Valid() && (old(s.Exact()) ==> s.Exact())
    ensures Synced(results, mode, ActsOf(results, mode, unbanHealthy, vault, clock), states, ticks, |results|)
    ensures states[0] == old(s.bans) && states[|results|] == s.bans
    ensures Counters(ticks, banned, unbanned, skipped)
    ensures Batch(old(s.bans), s.bans, ActsOf(results, mode, unbanHealthy, vault, clock))
  {
    hide Batch, Effect, Synced, CountedAs, Counters, ActOf, ActsOf, Spelled, Filed, ScanIndex, Listing;
    banned, unbanned, skipped, states, ticks := 0, 0, 0, [s.bans], [];
    ghost var t, acts := s.bans, ActsOf(results, mode, unbanHealthy, vault, clock);
    EmptyBatch(t);
    SyncStarts(results, mode, acts, t);
    for n := 0 to |results|
      invariant s.Valid() && (old(s.Exact()) ==> s.Exact()) && Counters(ticks, banned, unbanned, skipped)
      invariant |states| == n + 1 && states[0] == t && states[n] == s.bans
      invariant Synced(results, mode, acts, states, ticks, n) && Batch(t, s.bans, acts[..n])
    {
      ghost var u := s.bans;
      var tick := SyncOne(s, results[n], mode, unbanHealthy, vault, clock(n));
      BatchGrows(t, u, s.bans, acts, n);
      SyncedGrows(results, mode, acts, states, ticks, n, s.bans, tick);
      CountersGrow(ticks, banned, unbanned, skipped, tick);
      states, ticks := states + [s.bans], ticks + [tick];
      match tick
      case Banned => banned := banned + 1;
      case Unbanned => unbanned := unbanned + 1;
      case Skipped => skipped := skipped + 1;
    }
    assert acts[..|results|] == acts;
  }

  lemma {:induction false} AllSkipped(n: nat)
    ensures Counters(seq(n, _ => Skipped), 0, 0, n)
  {
    if n > 0 {
      AllSkipped(n - 1);
      assert seq(n, _ => Skipped) == seq(n - 1, _ => Skipped) + [Skipped];
    }
  }

  /** syncScanResultsToBans. Every result is counted once, as what it did; accounts
      whose identities no other result shares end as their own results say. */
  method SyncScan(s: BanState, results: seq<Probe>, unbanHealthy: bool, mode0: string, vault: set<string>,
                  clock: nat -> Clock)
    returns (banned: nat, unbanned: nat, skipped: nat, ghost states: seq<Table>, ghost ticks: seq<Tick>)
    requires s.Valid()
    modifies s
    ensures s.Valid() && (old(s.Exact()) ==> s.Exact()) && Counters(ticks, banned, unbanned, skipped)
    ensures var mode := if Norm(mode0) == "" then "candidates" else Norm(mode0);
            if mode == "off" then s.bans == old(s.bans) && skipped == |results|
            else && Synced(results, mode, ActsOf(results, mode, unbanHealthy, vault, clock), states, ticks, |results|)
                 && states[0] == old(s.bans) && states[|results|] == s.bans
                 && Batch(old(s.bans), s.bans, ActsOf(results, mode, unbanHealthy, vault, clock))
  {
    hide *;
    var mode := if Norm(mode0) == "" then "candidates" else Norm(mode0);
    if mode == "off" {
      AllSkipped(|results|);
      return 0, 0, |results|, [], seq(|results|, _ => Skipped);
    }
    banned, unbanned, skipped, states, ticks := SyncAll(s, results, mode, unbanHealthy, vault, clock);
  }

  /** With one result per e-mail and disjoint identities that result decides. One that
      is in order, by action, label or code, releases the account if such are to be;
      a failure with an isolated code that the mode picks is reported on top of what
      was known; any other leaves the very row alone. */
  lemma SyncByResult(t: Table, u: Table, results: seq<Probe>, mode: string, unbanHealthy: bool, vault: set<string>,
                     clock: nat -> Clock, k: nat, m: string)
    requires Batch(t, u, ActsOf(results, mode, unbanHealthy, vault, clock))
    requires IsAccount(m) && Disjoint(t, ActsOf(results, mode, unbanHealthy, vault, clock), m)
    requires k < |results| && Norm(results[k].email) == m
    requires forall i :: 0 <= i < |results| && i != k ==> Norm(results[i].email) != m
    ensures var r := results[k];
            if r.action == "OK" || r.status == "healthy" || 200 <= r.httpStatus < 300
            then if unbanHealthy then m !in u else SameRow(t, u, m)
            else if r.httpStatus in {401, 402, 403, 429} && (mode == "candidates" ==> r.action == "DELETE_CANDIDATE")
            then m in u && u[m].status == r.httpStatus
                 && AccountOf(u, m) == Accept(AccountOf(t, m), ScanEntry(r, vault, clock(k)), clock(k))
            else SameRow(t, u, m)
  {
    var acts := ActsOf(results, mode, unbanHealthy, vault, clock);
    assert acts[k].mail == m;
    HealthyIff(results[k]);
    hide IsHealthy, ActsOf, Norm, Disjoint, IsAccount, ScanEntry, Accept, Batch;
    OneFindingSettles(t, u, acts, k, m);
    if results[k].httpStatus in {401, 402, 403, 429} {
      ScanEntryIs(results[k], vault, clock(k));
      ReportedCode(AccountOf(t, m), ScanEntry(results[k], vault, clock(k)), clock(k));
    }
  }

  lemma ReportedCode(a: Account, e: Entry, now: Clock)
    requires e.status != 0
    ensures Accept(a, e, now).Isolated? && Accept(a, e, now).status == e.status
  {}
}
