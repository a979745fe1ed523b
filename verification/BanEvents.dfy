/** The ledger object performs the events of runs: what its methods do to the real
    maps is what the events of BanRuns.dfy do to a table. */
module BanEvents {
  import opened Text
  import opened BanTable
  import opened BanFile
  import opened BanLaws
  import opened BanLedger
  import opened BanRuns
  import opened Wrappers

  /** A call of one of the object's methods. */
  datatype Call =
    | FileReport(now: Clock, authID: string, entry: Entry)
    | Question(now: Clock, id: string)
    | Show(now: Clock)
    | Attach(now: Clock, key: string, email: string)
    | Release(id: string)
    | ReleaseMany(ids: seq<string>)
    | ReleaseCode(status: int)
    | ReleaseMail(email: string)
    | ReleaseAll
    | DropDead(live: Option<LiveIndex>)
    | Reload(now: Clock, file: Table)

  /** The event a call is, up to what map iteration leaves open; dropping dead
      credentials without a list of the live ones is none. */
  ghost predicate IsEvent(call: Call, ev: Option<Event>) {
    match call
    case FileReport(now, authID, entry) => ev == Some(Report(now, authID, entry))
    case Question(now, id) => ev.Some? && ev.value.Ask? && ev.value.now == now && ev.value.id == id
    case Show(now) => ev == Some(Snap(now))
    case Attach(now, key, email) => ev == Some(HealAttach(now, key, email))
    case Release(id) => ev.Some? && ev.value.Clear? && ev.value.id == id
    case ReleaseMany(ids) => ev == Some(ClearMany(ids))
    case ReleaseCode(status) => ev == Some(ClearStatus(status))
    case ReleaseMail(email) => ev == Some(ClearByEmail(email))
    case ReleaseAll => ev == Some(ClearAll)
    case DropDead(None) => ev == None
    case DropDead(Some(live)) => ev == Some(Event.Prune(live))
    case Reload(now, file) => ev.Some? && ev.value.Restart? && ev.value.now == now && ev.value.file == file
  }

  /** The rows `u` are what the event leaves of the rows `t`. */
  ghost predicate Takes(t: Table, pending: set<string>, ev: Option<Event>, u: Table) {
    match ev
    case None => u == t
    case Some(e) => 
      && Legal(Ledger(t, pending), e)
      && Step(Ledger(t, pending), e) == Ledger(u, if e.Restart? then {} else pending)
  }

  /** Calls that take away rows without a lookup. */
  predicate Removes(call: Call) {
    call.ReleaseMany? || call.ReleaseCode? || call.ReleaseMail?
  }

  /** Every call of the object is a legal event of a run. A heal attaches only keys
      it has collected. */
  method Perform(s: BanState, call: Call, ghost pending: set<string>) returns (ghost ev: Option<Event>)
    requires s.Valid() && (call.Attach? ==> call.key in pending)
    modifies s
    ensures s.Valid() && IsEvent(call, ev) && Takes(old(s.bans), pending, ev, s.bans)
  {
    hide Spelled, Listing, Finds, MayAnswer, Compacted, SetTable, SnapTable, AttachTable, AskTable, AskAnswer;
    hide ClearTable, OneGroupEach, IdsTrimmed, Filed, TableOK, ScanIndex, Fits, Attachable, CanonicalReport, StorageKey;
    ghost var t := s.bans;
    if Removes(call) {
      ev := PerformRemoval(s, call, pending);
    } else if call.ReleaseAll? || call.DropDead? {
      ev := PerformSweep(s, call, pending);
    } else {
      match call {
        case FileReport(now, authID, entry) =>
          s.Set(authID, entry, now);
          ev := Some(Report(now, authID, entry));
        case Question(now, id) =>
          var banned := s.Active(id, now);
          ghost var hit: Option<string> :| MayAnswer(t, id, hit) && banned == AskAnswer(t, hit, now)
                                     && s.bans == AskTable(t, hit, now);
          ev := Some(Ask(now, id, hit));
        case Release(id) =>
          var cleared := s.Clear(id);
          ghost var hit: Option<string> :| MayAnswer(t, id, hit) && cleared == hit.Some?
                                     && s.bans == ClearTable(t, hit);
          ev := Some(Event.Clear(id, hit));
        case Show(now) =>
          var _ := s.Snapshot(now);
          ev := Some(Snap(now));
        case Attach(now, key, email) =>
          var _ := s.AttachEmail(key, email, now);
          ev := Some(HealAttach(now, key, email));
        case Reload(now, file) =>
          s.Load(file, now);
          ev := Some(Restart(now, file, s.bans));
      }
    }
  }

  method PerformSweep(s: BanState, call: Call, ghost pending: set<string>) returns (ghost ev: Option<Event>)
    requires s.Valid() && (call.ReleaseAll? || call.DropDead?)
    modifies s
    ensures s.Valid() && IsEvent(call, ev) && Takes(old(s.bans), pending, ev, s.bans)
  {
    hide Spelled, Listing, Filed, ScanIndex, Orphans, Tally;
    hide Compacted, MayAnswer, SetTable, SnapTable, AttachTable, AskTable, ClearTable, WithoutEmail;
    if call.ReleaseAll? {
      var _ := s.ClearAll();
      ev := Some(ClearAll);
    } else {
      var _, _, _ := s.Prune(call.live);
      ev := match call.live case None => None case Some(idx) => Some(Event.Prune(idx));
    }
  }

  method PerformRemoval(s: BanState, call: Call, ghost pending: set<string>) returns (ghost ev: Option<Event>)
    requires s.Valid() && Removes(call)
    modifies s
    ensures s.Valid() && IsEvent(call, ev) && Takes(old(s.bans), pending, ev, s.bans)
  {
    hide Spelled, Listing, Filed, ScanIndex, RowsOfEmail, RowsOfStatus, RowsNamed, Orphans, Tally;
    hide Compacted, MayAnswer, SetTable, SnapTable, AttachTable, AskTable, ClearTable, WithoutEmail;
    match call {
      case ReleaseMany(ids) =>
        var _ := s.ClearMany(ids);
        ev := Some(ClearMany(ids));
      case ReleaseCode(status) =>
        var _ := s.ClearStatus(status);
        ev := Some(ClearStatus(status));
      case ReleaseMail(email) =>
        var _ := s.ClearByEmail(email);
        ev := Some(ClearByEmail(email));
    }
  }

  // ---- The heal ----

  /** What the host's e-mail cache answers: nothing, or an address. */
  ghost predicate IsCache(resolve: string -> string) {
    forall id :: resolve(id) == "" || IsAddress(resolve(id))
  }

  /** The address the cache knows for a row, by its auth id or else by its key. */
  function ResolvedMail(resolve: string -> string, key: string, e: Entry): string {
    var ref := FirstNonEmpty([e.authRef, key]);
    if resolve(ref) != "" then resolve(ref) else if key != ref then resolve(key) else ""
  }

  /** Of the rows without an e-mail in `t`, those not in `todo` have been healed: one
      the cache knows is gone and its address has a row, any other is as it was. */
  ghost predicate Healed(t: Table, u: Table, resolve: string -> string, todo: set<string>) {
    && (forall k :: k in WithoutEmail(t) - todo && ResolvedMail(resolve, k, t[k]) != "" ==>
          k !in u && ResolvedMail(resolve, k, t[k]) in u)
    && (forall k :: k in WithoutEmail(t) && (k in todo || ResolvedMail(resolve, k, t[k]) == "") ==>
          k in u && u[k] == t[k])
    && (forall k :: k in u && Trim(u[k].email) == "" ==> k in WithoutEmail(t))
  }

  /** Moving a row without an e-mail to an address. */
  lemma HealMoves(u: Table, k: string, m: string, now: Clock)
    requires IsAddress(m) && k in u && k != "" && Trim(k) == k && '@' !in k
    ensures var w := AttachTable(u, k, m, now);
            && w.Keys == u.Keys - {k} + {m} && Trim(w[m].email) != ""
            && forall j :: j in w && j != m ==> w[j] == u[j]
  {
    AddressIsNormal(m);
    hide Norm, Trim, AttachTable;
    MoveTouches(u, k, m, now);
    if m in u { MoveJoins(u, k, m, now); } else { MoveKeeps(u, k, m, now); }
  }

  /** Keys without an `@` are all the heal takes away, addresses all it brings in. */
  ghost predicate NamesToAddresses(t: Table, resolve: string -> string) {
    forall k :: k in WithoutEmail(t) ==>
      '@' !in k && (ResolvedMail(resolve, k, t[k]) != "" ==> '@' in ResolvedMail(resolve, k, t[k]))
  }

  lemma HealStep(t: Table, u: Table, w: Table, resolve: string -> string, todo: set<string>, k: string, m: string)
    requires Healed(t, u, resolve, todo) && NamesToAddresses(t, resolve) && k in todo && k in WithoutEmail(t)
    requires m == ResolvedMail(resolve, k, t[k]) != ""
    requires w.Keys == u.Keys - {k} + {m} && Trim(w[m].email) != "" && forall j :: j in w && j != m ==> w[j] == u[j]
    ensures Healed(t, w, resolve, todo - {k})
  {
    hide ResolvedMail, Trim;
  }

  lemma HealSkips(t: Table, u: Table, resolve: string -> string, todo: set<string>, k: string)
    requires Healed(t, u, resolve, todo) && todo <= WithoutEmail(t)
    ensures k in WithoutEmail(t) && ResolvedMail(resolve, k, t[k]) == "" ==> Healed(t, u, resolve, todo - {k})
    ensures todo <= u.Keys
  {
    hide ResolvedMail, Trim;
  }

  lemma HealOne(t: Table, u: Table, resolve: string -> string, todo: set<string>, k: string, now: Clock)
    requires Spelled(t) && IsCache(resolve) && Healed(t, u, resolve, todo) && k in todo && todo <= WithoutEmail(t)
    ensures var m := ResolvedMail(resolve, k, t[k]);
            Healed(t, if m == "" then u else AttachTable(u, k, m, now), resolve, todo - {k})
  {
    CollectedAreNames(t);
    hide Spelled, ResolvedMail, AttachTable, Trim, Norm, IsCache, NamesToAddresses;
    var m := ResolvedMail(resolve, k, t[k]);
    if m == "" {
      HealSkips(t, u, resolve, todo, k);
    } else {
      assert k in u by { HealSkips(t, u, resolve, todo, ""); }
      hide Healed;
      AllKnown(t, resolve);
      KnowsAddresses(resolve, k, t[k]);
      HealMoves(u, k, m, now);
      HealStep(t, u, AttachTable(u, k, m, now), resolve, todo, k, m);
    }
  }

  lemma AllKnown(t: Table, resolve: string -> string)
    requires Spelled(t) && IsCache(resolve)
    ensures NamesToAddresses(t, resolve)
  {
    CollectedAreNames(t);
    hide ResolvedMail, IsCache, Trim, Norm;
    forall k | k in WithoutEmail(t) && ResolvedMail(resolve, k, t[k]) != ""
      ensures '@' in ResolvedMail(resolve, k, t[k])
    {
      KnowsAddresses(resolve, k, t[k]);
    }
  }

  lemma KnowsAddresses(resolve: string -> string, k: string, e: Entry)
    requires IsCache(resolve) && ResolvedMail(resolve, k, e) != ""
    ensures IsAddress(ResolvedMail(resolve, k, e))
  {}

  lemma AddressIsNormal(m: string)
    requires IsAddress(m)
    ensures Norm(m) == m && Trim(m) == m && m != ""
  {
    NormFacts(m);
  }

  /** A row without an e-mail is kept under a trimmed name without an `@`. */
  lemma CollectedAreNames(t: Table)
    requires Spelled(t)
    ensures forall k :: k in WithoutEmail(t) ==> k != "" && Trim(k) == k && '@' !in k
  {
    forall k | k in WithoutEmail(t) ensures k != "" && Trim(k) == k && '@' !in k {
      assert RowFiled(k, t[k]);
      NormFacts(k);
    }
  }

  /** What the cache knows of a row without an e-mail. */
  lemma KnownOfRows(t: Table, resolve: string -> string)
    requires Spelled(t)
    ensures forall k :: k in WithoutEmail(t) ==>
              var ref := Trim(t[k].authRef);
              ResolvedMail(resolve, k, t[k]) ==
                if ref != "" && resolve(ref) != "" then resolve(ref) else resolve(k)
  {
    CollectedAreNames(t);
    hide Trim, Spelled, FirstNonEmpty;
    forall k | k in WithoutEmail(t) ensures
      var ref := Trim(t[k].authRef);
      ResolvedMail(resolve, k, t[k]) == if ref != "" && resolve(ref) != "" then resolve(ref) else resolve(k)
    {
      FirstOfTwo(t[k].authRef, k);
    }
  }

  lemma OneMore(l: Ledger, evs: seq<Event>, ev: Event)
    requires LegalRun(l, evs) && Legal(Run(l, evs), ev)
    ensures LegalRun(l, evs + [ev]) && Run(l, evs + [ev]) == Step(Run(l, evs), ev)
  {
    assert (evs + [ev])[..|evs|] == evs;
  }

  /** healMissingBanEmails, without other sections in between: a legal run that
      leaves no row without an e-mail for which the cache knows one. */
  method HealMissing(s: BanState, resolve: string -> string, clock: nat -> Clock) returns (ghost evs: seq<Event>)
    requires s.Valid() && IsCache(resolve)
    modifies s
    ensures s.Valid() && LegalRun(Ledger(old(s.bans), {}), evs)
    ensures Run(Ledger(old(s.bans), {}), evs).bans == s.bans
    ensures forall k :: k in old(s.bans) && Trim(old(s.bans)[k].email) == "" ==>
              var ref := Trim(old(s.bans)[k].authRef);
              var m := if ref != "" && resolve(ref) != "" then resolve(ref) else resolve(k);
              if m != "" then k !in s.bans && m in s.bans else k in s.bans && s.bans[k] == old(s.bans)[k]
    ensures forall k :: k in s.bans && Trim(s.bans[k].email) == "" ==> k in old(s.bans) && s.bans[k] == old(s.bans)[k]
  {
    hide Spelled, Listing, ResolvedMail, AttachTable, Fits, Attachable, Run, LegalRun, Trim;
    ghost var t, l := s.bans, Ledger(s.bans, {});
    var needs := set k | k in s.bans && Trim(s.bans[k].email) == "";
    var rows := s.bans;
    assert LegalRun(l, []) && Run(l, []) == l by { NoEvents(l); }
    OneMore(l, [], HealCollect);
    evs := [] + [HealCollect];
    var todo, n := needs, 0;
    while todo != {}
      invariant s.Valid() && todo <= needs && Healed(t, s.bans, resolve, todo)
      invariant LegalRun(l, evs) && Run(l, evs) == Ledger(s.bans, needs)
    {
      var k :| k in todo;
      var ref := FirstNonEmpty([rows[k].authRef, k]);
      var m := resolve(ref);
      if m == "" && k != ref { m := resolve(k); }
      assert m == ResolvedMail(resolve, k, t[k]) by { Resolving(resolve, k, t[k], m); }
      HealOne(t, s.bans, resolve, todo, k, clock(n));
      if m != "" {
        var _ := s.AttachEmail(k, m, clock(n));
        OneMore(l, evs, HealAttach(clock(n), k, m));
        evs := evs + [HealAttach(clock(n), k, m)];
      }
      todo, n := todo - {k}, n + 1;
    }
    KnownOfRows(t, resolve);
  }

  lemma NoEvents(l: Ledger)
    ensures LegalRun(l, []) && Run(l, []) == l
  {}

  lemma Resolving(resolve: string -> string, k: string, e: Entry, m: string)
    requires var ref := FirstNonEmpty([e.authRef, k]);
             m == if resolve(ref) != "" then resolve(ref) else if k != ref then resolve(k) else ""
    ensures m == ResolvedMail(resolve, k, e)
  {}
}
