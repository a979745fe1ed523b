/** Runs of the ledger: every locked section of every goroutine is one event,
    and events interleave freely. */
module BanRuns {
  import opened Text
  import opened BanTable
  import opened BanFile
  import opened Policy
  import opened Wrappers

  /** `pending` holds the keys some heal has collected and may still attach. */
  datatype Ledger = Ledger(bans: Table, pending: set<string>)

  /** Choices that map iteration leaves open are part of the event. */
  datatype Event =
    | Report(now: Clock, authID: string, entry: Entry)
    | Ask(now: Clock, id: string, hit: Option<string>)
    | Snap(now: Clock)
    | HealCollect
    | HealAttach(now: Clock, key: string, email: string)
    | Clear(id: string, hit: Option<string>)
    | ClearMany(ids: seq<string>)
    | ClearStatus(status: int)
    | ClearByEmail(email: string)
    | ClearAll
    | Prune(live: LiveIndex)
    | Restart(now: Clock, file: Table, loaded: Table)

  function WithoutEmail(t: Table): set<string> {
    set k | k in t && Trim(t[k].email) == ""
  }

  function Step(s: Ledger, ev: Event): Ledger {
    match ev
    case Report(now, authID, entry) => s.(bans := SetTable(s.bans, authID, entry, now))
    case Ask(now, id, hit) => s.(bans := AskTable(s.bans, hit, now))
    case Snap(now) => s.(bans := SnapTable(s.bans, now))
    case HealCollect => s.(pending := s.pending + WithoutEmail(s.bans))
    case HealAttach(now, key, email) => s.(bans := AttachTable(s.bans, key, email, now))
    case Clear(id, hit) => s.(bans := ClearTable(s.bans, hit))
    case ClearMany(ids) => s.(bans := s.bans - RowsNamed(s.bans, ids))
    case ClearStatus(status) => s.(bans := s.bans - RowsOfStatus(s.bans, status))
    case ClearByEmail(email) => s.(bans := s.bans - RowsOfEmail(s.bans, email))
    case ClearAll => s.(bans := map[])
    case Prune(live) => s.(bans := s.bans - Orphans(s.bans, live))
    case Restart(now, file, loaded) => Ledger(loaded, {})
  }

  /** What an event may be: lookups answer as the code's do, whether or not the index
      lists every row; a heal attaches what it collected, to any e-mail; a restart
      loads a possible compaction of any file. */
  ghost predicate Legal(s: Ledger, ev: Event) {
    match ev
    case Ask(now, id, hit) => MayAnswer(s.bans, id, hit)
    case Clear(id, hit) => MayAnswer(s.bans, id, hit)
    case HealAttach(now, key, email) => key in s.pending
    case Restart(now, file, loaded) => Compacted(file, now, loaded)
    case _ => true
  }

  function Run(s: Ledger, evs: seq<Event>): Ledger {
    if evs == [] then s else Step(Run(s, evs[..|evs| - 1]), evs[|evs| - 1])
  }

  ghost predicate LegalRun(s: Ledger, evs: seq<Event>) {
    evs == [] ||
    (LegalRun(s, evs[..|evs| - 1]) && Legal(Run(s, evs[..|evs| - 1]), evs[|evs| - 1]))
  }

  lemma {:induction false} RunConcat(s: Ledger, a: seq<Event>, b: seq<Event>)
    ensures Run(s, a + b) == Run(Run(s, a), b)
    ensures LegalRun(s, a + b) <==> LegalRun(s, a) && LegalRun(Run(s, a), b)
  {
    hide Step, Legal;
    if b == [] {
      assert a + b == a;
    } else {
      var n := |b| - 1;
      RunConcat(s, a, b[..n]);
      assert (a + b)[..|a + b| - 1] == a + b[..n] && (a + b)[|a + b| - 1] == b[n];
    }
  }

  // ---- Every key spells its e-mail in every reachable state ----

  ghost predicate Sound(s: Ledger) {
    Spelled(s.bans) && forall k :: k in s.pending ==> '@' !in k
  }

  lemma StepSound(s: Ledger, ev: Event)
    requires Sound(s) && Legal(s, ev)
    ensures Sound(Step(s, ev))
  {
    hide SetTable, SnapTable, AttachTable, Spelled, RowsNamed, RowsOfStatus, RowsOfEmail, Orphans, MayAnswer, Compacted;
    match ev
    case Report(now, authID, entry) => SetKeepsSpelled(s.bans, authID, entry, now);
    case Ask(now, id, hit) => RemovalSpelled(s.bans, if hit.Some? then {hit.value} else {});
    case Snap(now) => SnapKeepsSpelled(s.bans, now);
    case HealCollect => CollectedKeys(s.bans);
    case HealAttach(now, key, email) => AttachKeepsSpelled(s.bans, key, email, now);
    case Clear(id, hit) => RemovalSpelled(s.bans, if hit.Some? then {hit.value} else {});
    case ClearMany(ids) => RemovalSpelled(s.bans, RowsNamed(s.bans, ids));
    case ClearStatus(status) => RemovalSpelled(s.bans, RowsOfStatus(s.bans, status));
    case ClearByEmail(email) => RemovalSpelled(s.bans, RowsOfEmail(s.bans, email));
    case ClearAll => EmptyFiled();
    case Prune(live) => RemovalSpelled(s.bans, Orphans(s.bans, live));
    case Restart(now, file, loaded) => WinnersSpelled(file, now, loaded);
  }

  lemma EmptyFiled()
    ensures Spelled(map[]) && Filed(map[])
  {}

  /** A key without an e-mail is no address. */
  lemma CollectedKeys(t: Table)
    requires Spelled(t)
    ensures forall k :: k in WithoutEmail(t) ==> '@' !in k
  {
    forall k | k in WithoutEmail(t) ensures '@' !in k {
      NormFacts(t[k].email);
      assert RowFiled(k, t[k]);
    }
  }

  /** Whatever interleaves, every row stays under a spelling of its e-mail. */
  lemma {:induction false} RunSound(s: Ledger, evs: seq<Event>)
    requires Sound(s) && LegalRun(s, evs)
    ensures Sound(Run(s, evs))
  {
    if evs != [] {
      RunSound(s, evs[..|evs| - 1]);
      StepSound(Run(s, evs[..|evs| - 1]), evs[|evs| - 1]);
    }
  }

  // ---- One row per e-mail ----

  /** A heal finds no row of its e-mail under another spelling, and a restart reads
      a file that spells no account in two ways. */
  ghost predicate Unites(s: Ledger, ev: Event) {
    match ev
    case HealAttach(now, key, email) => Fits(s.bans, key, email)
    case Restart(now, file, loaded) => OneGroupEach(file, now)
    case _ => true
  }

  /** Of all that can happen only these two split an account over two rows. */
  lemma StepFiled(s: Ledger, ev: Event)
    requires Filed(s.bans) && Legal(s, ev)
    ensures Filed(Step(s, ev).bans) <==> Unites(s, ev)
  {
    hide SetTable, SnapTable, AttachTable, Filed, Fits, OneGroupEach;
    hide RowsNamed, RowsOfStatus, RowsOfEmail, Orphans, MayAnswer, Compacted;
    match ev
    case Report(now, authID, entry) => SetKeepsFiled(s.bans, authID, entry, now);
    case Ask(now, id, hit) => RemovalFiled(s.bans, if hit.Some? then {hit.value} else {});
    case Snap(now) => SnapKeepsFiled(s.bans, now);
    case HealCollect =>
    case HealAttach(now, key, email) => AttachKeepsFiled(s.bans, key, email, now);
    case Clear(id, hit) => RemovalFiled(s.bans, if hit.Some? then {hit.value} else {});
    case ClearMany(ids) => RemovalFiled(s.bans, RowsNamed(s.bans, ids));
    case ClearStatus(status) => RemovalFiled(s.bans, RowsOfStatus(s.bans, status));
    case ClearByEmail(email) => RemovalFiled(s.bans, RowsOfEmail(s.bans, email));
    case ClearAll => EmptyFiled();
    case Prune(live) => RemovalFiled(s.bans, Orphans(s.bans, live));
    case Restart(now, file, loaded) => LoadKeepsFiled(file, now, loaded);
  }

  ghost predicate AllFiled(s: Ledger, evs: seq<Event>) {
    forall n :: 0 <= n <= |evs| ==> Filed(Run(s, evs[..n]).bans)
  }

  ghost predicate AllUnite(s: Ledger, evs: seq<Event>) {
    forall i :: 0 <= i < |evs| ==> Unites(Run(s, evs[..i]), evs[i])
  }

  /** Every e-mail owns at most one row all through a run if and only if every heal
      and every restart on the way unites its rows. */
  lemma {:induction false} OneRowPerEmail(s: Ledger, evs: seq<Event>)
    requires Filed(s.bans) && LegalRun(s, evs)
    ensures AllFiled(s, evs) <==> AllUnite(s, evs)
  {
    hide Step, Legal, Filed, Unites;
    if evs == [] {
      assert evs[..0] == [];
    } else {
      var n := |evs| - 1;
      var before := evs[..n];
      OneRowPerEmail(s, before);
      if Filed(Run(s, before).bans) { StepFiled(Run(s, before), evs[n]); }
      OneMoreUnites(s, evs);
    }
  }

  lemma OneMoreUnites(s: Ledger, evs: seq<Event>)
    requires evs != []
    ensures var n := |evs| - 1;
            && (AllFiled(s, evs) <==> AllFiled(s, evs[..n]) && Filed(Run(s, evs).bans))
            && (AllUnite(s, evs) <==> AllUnite(s, evs[..n]) && Unites(Run(s, evs[..n]), evs[n]))
            && (AllFiled(s, evs[..n]) ==> Filed(Run(s, evs[..n]).bans))
  {
    hide Run, Filed, Unites;
    var n := |evs| - 1;
    var before := evs[..n];
    assert forall i :: 0 <= i <= n ==> before[..i] == evs[..i];
    assert forall i :: 0 <= i < n ==> before[i] == evs[i];
    assert evs[..n + 1] == evs && before[..n] == before;
  }

  /** Every report names its e-mail, or an auth id that is one in lower case, and
      every file read has its ids trimmed. */
  ghost predicate Canonical(evs: seq<Event>) {
    forall i :: 0 <= i < |evs| ==> CanonicalEvent(evs[i])
  }

  ghost predicate CanonicalEvent(ev: Event) {
    match ev
    case Report(now, authID, entry) => CanonicalReport(authID, entry)
    case Restart(now, file, loaded) => IdsTrimmed(file, now)
    case _ => true
  }

  /** Then every row stays under its normalised e-mail, and every heal fits. */
  lemma {:induction false} CanonicalRun(s: Ledger, evs: seq<Event>)
    requires TableOK(s.bans) && LegalRun(s, evs) && Canonical(evs)
    ensures TableOK(Run(s, evs).bans)
    ensures forall key, email :: Fits(Run(s, evs).bans, key, email)
  {
    hide Step, Legal, TableOK, Fits, CanonicalEvent;
    if evs != [] {
      var n := |evs| - 1;
      assert Canonical(evs[..n]);
      CanonicalRun(s, evs[..n]);
      CanonicalStep(Run(s, evs[..n]), evs[n]);
    }
    forall key, email ensures Fits(Run(s, evs).bans, key, email) { AttachFits(Run(s, evs).bans, key, email); }
  }

  lemma CanonicalStep(s: Ledger, ev: Event)
    requires TableOK(s.bans) && Legal(s, ev)
    requires CanonicalEvent(ev)
    ensures TableOK(Step(s, ev).bans)
  {
    match ev
    case Report(now, authID, entry) => SetKeepsTable(s.bans, authID, entry, now);
    case Snap(now) => SnapKeepsTable(s.bans, now);
    case HealAttach(now, key, email) => AttachKeepsTable(s.bans, key, email, now);
    case Restart(now, file, loaded) => LoadKeepsTable(file, now, loaded);
    case _ =>
  }

  // ---- Isolation ----

  /** An e-mail address in the plugin's normal form. */
  predicate IsAddress(m: string) { IsNormal(m) && '@' in m }

  /** Account `m` is held at least until `until`, or until a recheck. */
  predicate Held(t: Table, m: string, until: Time) {
    m in t && (t[m].status == TOO_MANY || t[m].resetAt >= until)
  }

  predicate Sticky(t: Table, m: string) { m in t && t[m].status == TOO_MANY }

  /** Account `m` is held at least until `until`, and not for a rate limit. */
  predicate HeldFor(t: Table, m: string, until: Time) {
    m in t && t[m].status !in {0, TOO_MANY} && t[m].resetAt >= until
  }

  /** The event is no explicit release of `m`, and no report filed elsewhere whose
      auth id is `m` or, in place of an e-mail, another spelling of it. */
  predicate Spares(ev: Event, m: string) {
    match ev
    case Report(now, authID, entry) => !Strays(authID, entry, m)
    case Clear(id, hit) => hit != Some(m)
    case ClearMany(ids) => forall i :: 0 <= i < |ids| ==> Trim(ids[i]) != m
    case ClearByEmail(email) => Norm(email) != m
    case Prune(live) => m in live.emails
    case ClearStatus(_) => false
    case ClearAll => false
    case _ => true
  }

  /** The file still holds a row of `m`, under `m`, for a window that ends no
      earlier than `until`. */
  predicate SavedUntil(file: Table, m: string, now: Clock, until: Time) {
    m in file && Group(m, file[m]) == m && Eligible(file[m], now) && file[m].resetAt >= until
  }

  /** Reports for `m` are classified no earlier than `since`; questions and
      snapshots read the clock inside the window that starts there, and restarts
      read files that hold `m` for that window. */
  predicate InWindow(ev: Event, m: string, since: Time) {
    match ev
    case Report(now, authID, entry) =>
      StorageKey(entry.email, authID) == m ==> Classified(entry) && since <= entry.bannedAt <= now
    case Ask(now, _, _) => now < since + RATE_FIXED
    case Snap(now) => now < since + RATE_FIXED
    case Restart(now, file, _) => since <= now && SavedUntil(file, m, now, since + RATE_FIXED)
    case _ => true
  }

  /** Reports for `m` are 429s, and no restart comes between. */
  predicate Keeps429(ev: Event, m: string) {
    match ev
    case Report(now, authID, entry) => StorageKey(entry.email, authID) == m ==> entry.status == TOO_MANY
    case Restart(_, _, _) => false
    case _ => true
  }

  /** No report rates `m` limited or rechecks a rate limit; questions and snapshots
      read the clock before `until`, and no restart comes between. */
  predicate KeepsWindow(ev: Event, m: string, until: Time) {
    match ev
    case Report(now, authID, entry) =>
      StorageKey(entry.email, authID) == m ==> entry.status !in {0, TOO_MANY} && entry.source != "recheck429"
    case Ask(now, _, _) => now < until
    case Snap(now) => now < until
    case Restart(_, _, _) => false
    case _ => true
  }

  /** The clock reading an event writes rows with, if any. */
  function Stamp(ev: Event): Option<Clock> {
    match ev
    case Report(now, _, _) => Some(now)
    case Snap(now) => Some(now)
    case HealAttach(now, _, _) => Some(now)
    case Restart(now, _, _) => Some(now)
    case _ => None
  }

  /** The ways in which an account can be held over a run: for the two hours after
      `since`; the same, its row showing them; as rate limited; or until `until`. */
  datatype Hold = TwoHours(since: Time) | Written(since: Time) | Limited | Long(until: Time)

  predicate Holds(t: Table, m: string, h: Hold) {
    match h
    case TwoHours(since) => Held(t, m, since + RATE_FIXED)
    case Written(since) => m in t && t[m].resetAt >= since + RATE_FIXED
    case Limited => Sticky(t, m)
    case Long(until) => HeldFor(t, m, until)
  }

  predicate Sustains(ev: Event, m: string, h: Hold) {
    && Spares(ev, m)
    && match h
       case TwoHours(since) => InWindow(ev, m, since)
       case Written(since) => InWindow(ev, m, since) && (Stamp(ev).Some? ==> since <= Stamp(ev).value)
       case Limited => Keeps429(ev, m)
       case Long(until) => KeepsWindow(ev, m, until)
  }

  lemma RequestedFields(authID: string, entry: Entry, now: Clock)
    requires entry.status == TOO_MANY ==> 0 < entry.resetAt <= now + RATE_FIXED
    ensures var inc := Requested(authID, entry, now);
            inc.status == entry.status && inc.resetAt == entry.resetAt
            && inc.source == entry.source && inc.failCount == entry.failCount
  {}

  lemma RequestedStatus(authID: string, entry: Entry, now: Clock)
    ensures Requested(authID, entry, now).status == entry.status
  {}

  /** What a report leaves of each hold on its account. */
  lemma ReportHolds(t: Table, authID: string, entry: Entry, now: Clock, m: string)
    requires StorageKey(entry.email, authID) == m && m != ""
    ensures var u := SetTable(t, authID, entry, now);
            && (Classified(entry) && entry.bannedAt <= now ==>
                  Held(u, m, entry.bannedAt + RATE_FIXED) && u[m].resetAt >= entry.bannedAt + RATE_FIXED)
            && (entry.status == TOO_MANY ==> Sticky(u, m))
            && (entry.status !in {0, TOO_MANY} ==> HeldFor(u, m, entry.resetAt))
  {
    hide StorageKey, Requested;
    if entry.status == TOO_MANY ==> 0 < entry.resetAt <= now + RATE_FIXED { RequestedFields(authID, entry, now); }
    RequestedStatus(authID, entry, now);
  }

  /** A report that is no rate limit keeps the longer window it finds. */
  lemma ReportExtends(t: Table, authID: string, entry: Entry, now: Clock, m: string, until: Time)
    requires StorageKey(entry.email, authID) == m && m != "" && HeldFor(t, m, until)
    requires entry.status !in {0, TOO_MANY} && entry.source != "recheck429"
    ensures HeldFor(SetTable(t, authID, entry, now), m, until)
  {
    RequestedFields(authID, entry, now);
    hide StorageKey, Requested;
  }

  /** No other account's report reaches the row of `m`. */
  lemma OtherReport(t: Table, authID: string, entry: Entry, now: Clock, m: string)
    requires Spelled(t) && IsNormal(m) && m in t
    requires StorageKey(entry.email, authID) != m && !Strays(authID, entry, m)
    ensures m in SetTable(t, authID, entry, now) && SetTable(t, authID, entry, now)[m] == t[m]
  {
    SetTouchesOnly(t, authID, entry, now, m);
  }

  /** A heal only ever merges into the row of an address, never moves it away. */
  lemma AttachHolds(t: Table, key: string, email: string, now: Clock, m: string, h: Hold)
    requires m in t && IsAddress(m) && '@' !in key && Holds(t, m, h)
    requires h.Written? ==> h.since <= now
    ensures Holds(AttachTable(t, key, email, now), m, h)
  {
    TrimChars(key, '@');
    assert Trim(key) != m;
  }

  /** The row a restart loads for `m` lasts as long as the one in the file. */
  lemma RestartHolds(file: Table, now: Clock, loaded: Table, m: string, until: Time)
    requires Compacted(file, now, loaded) && m != ""
    requires SavedUntil(file, m, now, until) && until <= now + RATE_FIXED
    ensures m in loaded && loaded[m].resetAt >= until
  {
    assert m in Members(file, now, m);
    assert Entrant(m, file[m], now).resetAt >= until;
  }

  lemma StepHolds(s: Ledger, ev: Event, m: string, h: Hold)
    requires Sound(s) && Legal(s, ev) && IsAddress(m)
    requires Sustains(ev, m, h) && Holds(s.bans, m, h)
    ensures Holds(Step(s, ev).bans, m, h)
  {
    NormFacts(m);
    match ev
    case Report(now, authID, entry) =>
      if StorageKey(entry.email, authID) == m {
        ReportHolds(s.bans, authID, entry, now, m);
        if h.Long? { ReportExtends(s.bans, authID, entry, now, m, h.until); }
      } else {
        OtherReport(s.bans, authID, entry, now, m);
      }
    case HealAttach(now, key, email) => AttachHolds(s.bans, key, email, now, m, h);
    case Prune(live) => assert HasEmail(live, m);
    case Restart(now, file, loaded) =>
      if h.TwoHours? || h.Written? { RestartHolds(file, now, loaded, m, h.since + RATE_FIXED); }
    case _ =>
  }

  /** A question about an address that owns a row is answered from that row. */
  lemma AskFinds(s: Ledger, ev: Event, m: string)
    requires ev.Ask? && Legal(s, ev) && Trim(ev.id) == m && IsAddress(m) && m in s.bans
    ensures ev.hit == Some(m) && (InForce(s.bans[m], ev.now) ==> AskAnswer(s.bans, ev.hit, ev.now))
  {
    FindsByEmail(s.bans, m, ev.hit);
  }

  /** The answer a question gets at its place in the run. */
  predicate Answer(s: Ledger, evs: seq<Event>, i: nat)
    requires i < |evs| && evs[i].Ask?
  {
    AskAnswer(Run(s, evs[..i]).bans, evs[i].hit, evs[i].now)
  }

  /** A hold outlasts every run whose events sustain it, and every question on the
      way is answered "isolated". */
  lemma {:induction false} HoldOverRuns(s: Ledger, evs: seq<Event>, k: nat, m: string, h: Hold)
    requires Sound(s) && LegalRun(s, evs) && IsAddress(m) && k <= |evs|
    requires Holds(Run(s, evs[..k]).bans, m, h)
    requires forall i :: k <= i < |evs| ==> Sustains(evs[i], m, h)
    ensures Holds(Run(s, evs).bans, m, h)
    ensures forall i :: k <= i < |evs| && evs[i].Ask? && Trim(evs[i].id) == m ==> Answer(s, evs, i)
  {
    hide Step, Spares, Legal, Spelled, Trim, Norm, IsNormal;
    if k == |evs| {
      assert evs[..k] == evs;
    } else {
      var n := |evs| - 1;
      var before, last := evs[..n], evs[n];
      assert before[..k] == evs[..k];
      HoldOverRuns(s, before, k, m, h);
      RunSound(s, before);
      StepHolds(Run(s, before), last, m, h);
      if last.Ask? && Trim(last.id) == m { AskFinds(Run(s, before), last, m); }
      forall i | k <= i < n && evs[i].Ask? && Trim(evs[i].id) == m ensures Answer(s, evs, i) {
        assert before[i] == evs[i] && before[..i] == evs[..i];
        assert Answer(s, before, i);
      }
    }
  }

  /** Isolation over whole runs: once `m` is held from `since`, every later
      question about `m` in the next two hours is answered "isolated", whatever
      reports, questions, snapshots, heals, foreign releases and restarts from a
      file that holds `m` interleave. */
  lemma IsolationOverRuns(s: Ledger, evs: seq<Event>, k: nat, m: string, since: Time)
    requires Sound(s) && LegalRun(s, evs) && IsAddress(m) && k <= |evs|
    requires Held(Run(s, evs[..k]).bans, m, since + RATE_FIXED)
    requires forall i :: k <= i < |evs| ==> Spares(evs[i], m) && InWindow(evs[i], m, since)
    ensures Held(Run(s, evs).bans, m, since + RATE_FIXED)
    ensures forall i :: k <= i < |evs| && evs[i].Ask? && Trim(evs[i].id) == m ==> Answer(s, evs, i)
  {
    hide Spares, InWindow, Run, LegalRun, Sound, Held, Answer, Trim;
    HoldOverRuns(s, evs, k, m, TwoHours(since));
  }

  /** A 429 holds for ever: no clock condition at all. */
  lemma StickyOverRuns(s: Ledger, evs: seq<Event>, k: nat, m: string)
    requires Sound(s) && LegalRun(s, evs) && IsAddress(m) && k <= |evs|
    requires Sticky(Run(s, evs[..k]).bans, m)
    requires forall i :: k <= i < |evs| ==> Spares(evs[i], m) && Keeps429(evs[i], m)
    ensures Sticky(Run(s, evs).bans, m)
    ensures forall i :: k <= i < |evs| && evs[i].Ask? && Trim(evs[i].id) == m ==> Answer(s, evs, i)
  {
    hide Spares, Keeps429, Run, LegalRun, Sound, Sticky, Answer, Trim;
    HoldOverRuns(s, evs, k, m, Limited);
  }

  /** Event `r` is a classified failure of `m`. */
  predicate FailsAt(evs: seq<Event>, r: int, m: string) {
    && 0 <= r < |evs| && evs[r].Report? && StorageKey(evs[r].entry.email, evs[r].authID) == m
    && Classified(evs[r].entry) && evs[r].entry.bannedAt <= evs[r].now
  }

  /** After a classified failure of `m` at time T, every question about `m`
      in [T, T + 2h) is answered "isolated". */
  lemma FailureIsolates(s: Ledger, evs: seq<Event>, r: nat, m: string)
    requires Sound(s) && LegalRun(s, evs) && IsAddress(m) && FailsAt(evs, r, m)
    requires forall i :: r < i < |evs| ==> Spares(evs[i], m) && InWindow(evs[i], m, evs[r].entry.bannedAt)
    ensures forall i :: r < i < |evs| && evs[i].Ask? && Trim(evs[i].id) == m ==> Answer(s, evs, i)
  {
    hide Spares, InWindow, LegalRun, Sound, StorageKey, SetTable, Held, Answer, Trim;
    FailureHolds(s, evs, r, m);
    IsolationOverRuns(s, evs, r + 1, m, evs[r].entry.bannedAt);
  }

  /** What a classified failure leaves at its place in the run. */
  lemma FailureHolds(s: Ledger, evs: seq<Event>, r: nat, m: string)
    requires FailsAt(evs, r, m) && m != ""
    ensures var t, e := Run(s, evs[..r + 1]).bans, evs[r].entry;
            && Held(t, m, e.bannedAt + RATE_FIXED) && Holds(t, m, Written(e.bannedAt))
            && (e.status != TOO_MANY ==> HeldFor(t, m, e.resetAt))
  {
    hide StorageKey, SetTable;
    ReportHolds(Run(s, evs[..r]).bans, evs[r].authID, evs[r].entry, evs[r].now, m);
    assert evs[..r + 1][..r] == evs[..r];
  }

  /** After an unpaid answer for `m` at time T, every question about `m` in
      [T, T + 7 days) is answered "isolated" while no rate limit of `m` comes in;
      the other codes but 429 have their own windows. */
  lemma LongWindowIsolates(s: Ledger, evs: seq<Event>, r: nat, m: string)
    requires Sound(s) && LegalRun(s, evs) && IsAddress(m) && FailsAt(evs, r, m) && evs[r].entry.status != TOO_MANY
    requires forall i :: r < i < |evs| ==> Spares(evs[i], m) && KeepsWindow(evs[i], m, evs[r].entry.resetAt)
    ensures forall i :: r < i < |evs| && evs[i].Ask? && Trim(evs[i].id) == m ==> Answer(s, evs, i)
    ensures evs[r].entry.status == 402 ==> evs[r].entry.resetAt == evs[r].entry.bannedAt + PAYMENT
  {
    hide Spares, KeepsWindow, LegalRun, Sound, StorageKey, SetTable, HeldFor, Answer, Trim;
    FailureHolds(s, evs, r, m);
    HoldOverRuns(s, evs, r + 1, m, Long(evs[r].entry.resetAt));
  }

  /** The row of a held account is written by a save, and comes back under its key. */
  lemma SaveHolds(t: Table, m: string, savedAt: Clock, now: Clock, until: Time)
    requires Spelled(t) && IsAddress(m) && m in t && t[m].resetAt >= until > savedAt && now < until
    ensures SavedUntil(SavedRows(t, savedAt), m, now, until)
  {
    NormFacts(m);
    assert RowFiled(m, t[m]);
    hide ToLower, Trim;
  }

  /** A failure isolates across a restart too, from a file saved at any time
      after the report: what happens between may be anything that spares the
      account and reads no clock from before the report. */
  lemma RestartIsolates(s: Ledger, evs: seq<Event>, r: nat, p: nat, j: nat, savedAt: Clock, m: string)
    requires Sound(s) && LegalRun(s, evs) && IsAddress(m) && FailsAt(evs, r, m) && r < p <= j < |evs|
    requires var since := evs[r].entry.bannedAt;
             && evs[j].Restart? && evs[j].file == SavedRows(Run(s, evs[..p]).bans, savedAt)
             && savedAt < since + RATE_FIXED && since <= evs[j].now < since + RATE_FIXED
             && forall i :: r < i < |evs| && i != j ==> Sustains(evs[i], m, Written(since))
    ensures Holds(Run(s, evs).bans, m, Written(evs[r].entry.bannedAt))
    ensures forall i :: r < i < |evs| && evs[i].Ask? && Trim(evs[i].id) == m ==> Answer(s, evs, i)
  {
    hide LegalRun, Legal, Step, Run, StorageKey, Answer, Trim, Norm, Spares, InWindow, SavedUntil, Spelled, IsNormal;
    var h := Written(evs[r].entry.bannedAt);
    FailureHolds(s, evs, r, m);
    LegalPrefix(s, evs, p);
    assert evs[..p][..r + 1] == evs[..r + 1];
    HoldOverRuns(s, evs[..p], r + 1, m, h);
    RunSound(s, evs[..p]);
    RestartSustains(evs[j], Run(s, evs[..p]).bans, savedAt, m, evs[r].entry.bannedAt);
    HoldOverRuns(s, evs, r + 1, m, h);
  }

  lemma RestartSustains(ev: Event, t: Table, savedAt: Clock, m: string, since: Time)
    requires Spelled(t) && IsAddress(m) && Holds(t, m, Written(since))
    requires ev.Restart? && ev.file == SavedRows(t, savedAt)
    requires savedAt < since + RATE_FIXED && since <= ev.now < since + RATE_FIXED
    ensures Sustains(ev, m, Written(since))
  {
    SaveHolds(t, m, savedAt, ev.now, since + RATE_FIXED);
  }

  lemma {:induction false} LegalPrefix(s: Ledger, evs: seq<Event>, n: nat)
    requires LegalRun(s, evs) && n <= |evs|
    ensures LegalRun(s, evs[..n])
    decreases |evs| - n
  {
    hide Legal, Run;
    if n == |evs| {
      assert evs[..n] == evs;
    } else {
      LegalPrefix(s, evs, n + 1);
      assert evs[..n + 1][..n] == evs[..n];
    }
  }

  // ---- The 429 cap ----

  /** `clock` is a non-decreasing clock the events read. */
  ghost predicate Timed(evs: seq<Event>, clock: seq<Clock>) {
    && |clock| == |evs| + 1
    && (forall i :: 0 <= i < |evs| ==> clock[i] <= clock[i + 1])
    && (forall i :: 0 <= i < |evs| && Stamp(evs[i]).Some? ==> Stamp(evs[i]).value == clock[i + 1])
  }

  lemma SettledLater(t: Table, now: Clock, later: Clock)
    requires Settled(t, now) && now <= later
    ensures Settled(t, later)
    ensures forall k :: k in t && t[k].status == TOO_MANY ==> t[k].resetAt <= later + RATE_FIXED
  {
    forall k | k in t ensures Normalize(t[k], later) == t[k] {
      NormalizeIdempotent(t[k], now, later);
    }
  }

  /** A restart loads some compaction of a file. */
  ghost predicate LoadsFile(ev: Event) {
    ev.Restart? ==> Compacted(ev.file, ev.now, ev.loaded)
  }

  lemma FewerSettled(t: Table, u: Table, now: Clock)
    requires Settled(t, now) && u.Keys <= t.Keys && forall k :: k in u ==> u[k] == t[k]
    ensures Settled(u, now)
  {}

  lemma SetSettled(t: Table, authID: string, entry: Entry, now: Clock)
    requires Settled(t, now)
    ensures Settled(SetTable(t, authID, entry, now), now)
  {
    hide StorageKey, Requested, Superseded, KeepsLonger;
    var u := SetTable(t, authID, entry, now);
    forall k | k in u ensures Normalize(u[k], now) == u[k] {
      if k == StorageKey(entry.email, authID) {
        var inc := Requested(authID, entry, now);
        if k in t { RenewedNormal(t[k], inc, now); } else { FirstNormal(inc, now); }
      }
    }
  }

  lemma RenewedNormal(cur: Entry, inc: Entry, now: Clock)
    ensures Normalize(Renewed(cur, inc, now), now) == Renewed(cur, inc, now)
  {}

  lemma FirstNormal(inc: Entry, now: Clock)
    ensures Normalize(FirstRow(inc, now), now) == FirstRow(inc, now)
  {}

  lemma AttachSettled(t: Table, key: string, email: string, now: Clock)
    requires Settled(t, now)
    ensures Settled(AttachTable(t, key, email, now), now)
  {
    hide Trim, ToLower, Joined;
  }

  lemma StepSettled(s: Ledger, ev: Event, now: Clock, later: Clock)
    requires LoadsFile(ev) && Settled(s.bans, now) && now <= later
    requires Stamp(ev).Some? ==> Stamp(ev).value == later
    ensures Settled(Step(s, ev).bans, later)
  {
    SettledLater(s.bans, now, later);
    hide SetTable, AttachTable, Normalize, RowsNamed, RowsOfStatus, RowsOfEmail, Orphans, Compacted;
    match ev
    case Report(_, authID, entry) => SetSettled(s.bans, authID, entry, later);
    case HealAttach(_, key, email) => AttachSettled(s.bans, key, email, later);
    case Snap(_) => SnapSettled(s.bans, later);
    case Restart(_, file, loaded) => WinnersSettled(file, later, loaded);
    case _ => FewerSettled(s.bans, Step(s, ev).bans, later);
  }

  lemma SnapSettled(t: Table, now: Clock)
    ensures Settled(SnapTable(t, now), now)
  {}

  /** With a non-decreasing clock no 429 row ever reaches past now + 2h, and
      every row stays in normal form, whatever is reported, looked up or healed. */
  lemma {:induction false} CapOverRuns(s: Ledger, evs: seq<Event>, clock: seq<Clock>)
    requires Timed(evs, clock) && Settled(s.bans, clock[0])
    requires forall i :: 0 <= i < |evs| ==> LoadsFile(evs[i])
    ensures var t := Run(s, evs).bans;
            Settled(t, clock[|evs|])
            && forall k :: k in t && t[k].status == TOO_MANY ==> t[k].resetAt <= clock[|evs|] + RATE_FIXED
  {
    if evs == [] {
      SettledLater(s.bans, clock[0], clock[0]);
    } else {
      var n := |evs| - 1;
      CapOverRuns(s, evs[..n], clock[..n + 1]);
      StepSettled(Run(s, evs[..n]), evs[n], clock[n], clock[n + 1]);
      SettledLater(Run(s, evs).bans, clock[n + 1], clock[n + 1]);
    }
  }

  lemma {:induction false} LegalRunLoads(s: Ledger, evs: seq<Event>)
    requires LegalRun(s, evs)
    ensures forall i :: 0 <= i < |evs| ==> LoadsFile(evs[i])
  {
    hide Compacted, Run;
    if evs != [] { LegalRunLoads(s, evs[..|evs| - 1]); }
  }

  /** What any run leaves survives a save and a later load, row for row, if and
      only if the surviving rows are kept under their normalised e-mails; after
      canonical reports they are. */
  lemma ReachableRoundTrip(s: Ledger, evs: seq<Event>, clock: seq<Clock>, loadedAt: Clock, loaded: Table)
    requires Sound(s) && LegalRun(s, evs) && Timed(evs, clock) && Settled(s.bans, clock[0])
    requires clock[|evs|] <= loadedAt
    requires Compacted(SavedRows(Run(s, evs).bans, clock[|evs|]), loadedAt, loaded)
    ensures var back := Survivors(Run(s, evs).bans, clock[|evs|], loadedAt);
            && TableOK(loaded) && (loaded == back <==> TableOK(back))
            && (TableOK(s.bans) && Canonical(evs) ==> loaded == back)
  {
    var t := Run(s, evs).bans;
    RunSound(s, evs);
    LegalRunLoads(s, evs);
    CapOverRuns(s, evs, clock);
    SaveLoadRoundTrip(t, clock[|evs|], loadedAt, loaded);
    if TableOK(s.bans) && Canonical(evs) { CanonicalRun(s, evs); }
    hide Run, LegalRun, Compacted, RowOK, Timed, Settled;
  }
}
