/** What the ledger's sections make of a row, field by field. The functions of
    BanTable.dfy say how; these laws say what, in terms of the rows before. */
module BanLaws {
  import opened Text
  import opened BanTable
  import opened BanFile
  import opened Wrappers

  /** A 429 row given the window that ends at `given`, with the reason `reason`: no
      window, or one past two hours from `now`, ends two hours from `now`. */
  ghost predicate RateLimited(e: Entry, given: Time, reason: string, now: Clock) {
    && e.status == 429
    && e.resetAt == (if given == 0 || given > now + 7_200_000_000_000 then now + 7_200_000_000_000 else given)
    && e.reason == (if reason == "" || "rate_limited" <= reason then "rate_limited_2h" else reason)
  }

  /** The window and reason `e` has, given those it was to have. */
  ghost predicate Windowed(e: Entry, given: Time, reason: string, now: Clock) {
    if e.status == 429 then RateLimited(e, given, reason, now) else e.resetAt == given && e.reason == reason
  }

  lemma NormalizedWindow(e: Entry, now: Clock)
    ensures Windowed(Normalize(e, now), e.resetAt, e.reason, now)
    ensures Normalize(e, now) == e.(resetAt := Normalize(e, now).resetAt, reason := Normalize(e, now).reason)
  {}

  // ---- Reports ----

  /** The key a report is filed under. */
  ghost function ReportKey(authID: string, entry: Entry): string {
    if Norm(entry.email) == "" then Trim(authID) else Norm(entry.email)
  }

  /** The e-mail a report names; an auth id with an `@` stands in for none. */
  ghost function ReportMail(entry: Entry, key: string): string {
    if Trim(entry.email) == "" && '@' in key then key else Trim(entry.email)
  }

  /** The auth id a report leaves: its own unless that is the key, else the one it
      carries, if any. */
  ghost function ReportRef(authID: string, entry: Entry, key: string): string {
    if Trim(authID) !in {"", key} || entry.authRef == "" then Trim(authID) else entry.authRef
  }

  lemma RequestedLaw(authID: string, entry: Entry, now: Clock)
    ensures var key, inc := StorageKey(entry.email, authID), Requested(authID, entry, now);
            && key == ReportKey(authID, entry)
            && inc.email == ReportMail(entry, key) && inc.authRef == ReportRef(authID, entry, key)
            && Windowed(inc, entry.resetAt, entry.reason, now)
            && (inc.status, inc.source, inc.labelText, inc.bannedAt, inc.failCount) ==
                 (entry.status, entry.source, entry.labelText, entry.bannedAt, entry.failCount)
  {}

  /** A report about an account without a row leaves the row it asks for, with the
      auth id it came under, and counts itself once. */
  lemma FirstReportLaw(t: Table, authID: string, entry: Entry, now: Clock, key: string)
    requires key == ReportKey(authID, entry) && key != "" && key !in t
    ensures var u := SetTable(t, authID, entry, now);
            && key in u && u[key].email == ReportMail(entry, key) && u[key].authRef == ReportRef(authID, entry, key)
            && (u[key].status, u[key].source, u[key].labelText, u[key].bannedAt) ==
                 (entry.status, entry.source, entry.labelText, entry.bannedAt)
            && u[key].failCount == (if entry.failCount == 0 then 1 else entry.failCount)
            && Windowed(u[key], entry.resetAt, entry.reason, now)
  {
    RequestedLaw(authID, entry, now);
    hide Requested, Superseded, Norm, Trim;
  }

  lemma FirstOfTwo(a: string, b: string)
    ensures FirstNonEmpty([a, b]) == if Trim(a) != "" then Trim(a) else Trim(b)
  {
    hide FirstNonEmpty, Trim;
    FirstIsFirst([a, b]);
    if Trim(a) != "" {
      assert FirstAt([a, b], 0);
    } else if Trim(b) != "" {
      assert FirstAt([a, b], 1);
    }
  }

  /** What becomes of a row when it meets a report in normal form. */
  lemma RenewedLaw(cur: Entry, inc: Entry, now: Clock)
    ensures var r := Renewed(cur, inc, now);
            && r.failCount == cur.failCount + 1
            && r.email == (if inc.email != "" then inc.email else cur.email)
            && r.authRef == (if inc.authRef != "" then inc.authRef else cur.authRef)
            && r.labelText == (if inc.labelText != "" then inc.labelText else cur.labelText)
    ensures var r := Renewed(cur, inc, now);
            if inc.source != "recheck429" && inc.status != 429 && cur.status != 429 && cur.resetAt > inc.resetAt
            then
              && r.resetAt == cur.resetAt && r.bannedAt == cur.bannedAt
              && (if inc.status != 0 then r.status == inc.status && r.reason == inc.reason
                  else r.status == cur.status && r.reason == cur.reason)
              && r.source == FirstNonEmpty([inc.source, cur.source])
            else
              && (r.status, r.source, r.bannedAt) == (inc.status, inc.source, inc.bannedAt)
              && Windowed(r, inc.resetAt, inc.reason, now)
  {}

  /** A later report counts one more and fills what it leaves blank from the row it
      finds. When that row ends later, neither is a 429 and the report is no
      recheck, the row keeps its window and its first moment and takes code,
      reason and source over where the report has them; else the report's stand. */
  lemma LaterReportLaw(t: Table, authID: string, entry: Entry, now: Clock, key: string)
    requires key == ReportKey(authID, entry) && key != "" && key in t
    ensures var cur, r := t[key], SetTable(t, authID, entry, now)[key];
            && r.failCount == cur.failCount + 1
            && r.email == (if ReportMail(entry, key) != "" then ReportMail(entry, key) else cur.email)
            && r.authRef == (if ReportRef(authID, entry, key) != "" then ReportRef(authID, entry, key) else cur.authRef)
            && r.labelText == (if entry.labelText != "" then entry.labelText else cur.labelText)
    ensures var cur, r := t[key], SetTable(t, authID, entry, now)[key];
            if entry.source != "recheck429" && entry.status != 429 && cur.status != 429 && cur.resetAt > entry.resetAt
            then
              && r.resetAt == cur.resetAt && r.bannedAt == cur.bannedAt
              && (if entry.status != 0 then r.status == entry.status && r.reason == entry.reason
                  else r.status == cur.status && r.reason == cur.reason)
              && r.source == (if Trim(entry.source) != "" then Trim(entry.source) else Trim(cur.source))
            else
              && (r.status, r.source, r.bannedAt) == (entry.status, entry.source, entry.bannedAt)
              && Windowed(r, entry.resetAt, entry.reason, now)
  {
    hide Requested, Superseded, StorageKey, ReportKey, ReportMail, ReportRef, Norm, Trim, FirstNonEmpty, Normalize;
    var inc := Requested(authID, entry, now);
    RequestedLaw(authID, entry, now);
    FirstOfTwo(entry.source, t[key].source);
    NormalizedWindow(inc, now);
    RenewedLaw(t[key], inc, now);
    NormalizeIdempotent(entry, now, now);
  }

  /** Of the other rows a report drops the one kept under its auth id and those of
      the e-mail it names, by e-mail or by key in any letter case; the rest stay. */
  lemma ReportDrops(t: Table, authID: string, entry: Entry, now: Clock, k: string)
    requires k != ReportKey(authID, entry)
    ensures var key, u := ReportKey(authID, entry), SetTable(t, authID, entry, now);
            var m := Norm(ReportMail(entry, key));
            && (k in u ==> k in t && u[k] == t[k])
            && (key != "" && k in t ==>
                  (k !in u <==> (k == Trim(authID) && k != "") || (m != "" && m in {Norm(k), Norm(t[k].email)})))
            && (key == "" ==> u == t)
  {
    RequestedLaw(authID, entry, now);
    hide Requested, Renewed, FirstRow, Norm, Trim, ReportKey, ReportMail, ReportRef;
  }

  /** The auth id a report came under leads to its row, although that is kept under
      the e-mail, unless it leads elsewhere first. */
  lemma ReportedIdFinds(t: Table, authID: string, entry: Entry, now: Clock, hit: Option<string>)
    requires var key, id, u := ReportKey(authID, entry), Trim(authID), SetTable(t, authID, entry, now);
             && key != "" && id !in {"", key} && id !in u && ToLower(id) !in u
             && (forall k :: k in u ==> Norm(u[k].email) != ToLower(id))
             && (forall k :: k in u && k != key ==> Trim(u[k].authRef) != id)
    requires MayAnswer(SetTable(t, authID, entry, now), authID, hit)
    ensures hit == Some(ReportKey(authID, entry))
  {
    var key, u := ReportKey(authID, entry), SetTable(t, authID, entry, now);
    if key in t { LaterReportLaw(t, authID, entry, now, key); } else { FirstReportLaw(t, authID, entry, now, key); }
    hide Requested, Renewed, FirstRow, ToLower, ReportKey, ReportMail;
    assert key in u && u[key].authRef == Trim(authID);
  }

  // ---- Heals ----

  /** The row of an auth id can be moved to the e-mail. */
  ghost predicate Moves(t: Table, oldKey: string, email: string) {
    Trim(oldKey) != "" && Norm(email) !in {"", Trim(oldKey)} && Trim(oldKey) in t
  }

  /** A move takes one key away, brings one in, and touches no other row. */
  lemma MoveTouches(t: Table, oldKey: string, email: string, now: Clock)
    ensures var u := AttachTable(t, oldKey, email, now);
            if Moves(t, oldKey, email) then
              && u.Keys == t.Keys - {Trim(oldKey)} + {Norm(email)}
              && (forall k :: k in u && k != Norm(email) ==> u[k] == t[k])
            else u == t
  {
    hide Norm, Trim, Normalize, Joined;
  }

  /** Without a row at the e-mail the moved row keeps all it holds; its key becomes
      its auth id if it had none. */
  lemma MoveKeeps(t: Table, oldKey: string, email: string, now: Clock)
    requires Moves(t, oldKey, email) && Norm(email) !in t
    ensures var e, r := t[Trim(oldKey)], AttachTable(t, oldKey, email, now)[Norm(email)];
            && r == e.(email := Norm(email), authRef := if e.authRef != "" then e.authRef else Trim(oldKey),
                       resetAt := r.resetAt, reason := r.reason)
            && Windowed(r, e.resetAt, e.reason, now)
  {
    hide Norm, Trim, Normalize;
    var e := t[Trim(oldKey)];
    NormalizedWindow(e.(email := Norm(email), authRef := OrElse(e.authRef, Trim(oldKey))), now);
  }

  /** The row at the e-mail takes from the moved one a later end, a higher count, an
      earlier first moment, and what it lacks itself; the rest is its own. */
  lemma MoveJoins(t: Table, oldKey: string, email: string, now: Clock)
    requires Moves(t, oldKey, email) && Norm(email) in t
    ensures var cur, e, r := t[Norm(email)], t[Trim(oldKey)], AttachTable(t, oldKey, email, now)[Norm(email)];
            && r.email == Norm(email) && r.source == cur.source
            && r.status == (if cur.status != 0 then cur.status else e.status)
            && (r.status != 429 ==>
                  && r.resetAt in {cur.resetAt, e.resetAt} && r.resetAt >= cur.resetAt && r.resetAt >= e.resetAt
                  && r.reason == (if cur.status != 0 then cur.reason else e.reason))
            && (r.status == 429 ==>
                  RateLimited(r, if cur.resetAt < e.resetAt then e.resetAt else cur.resetAt,
                              if cur.status != 0 then cur.reason else e.reason, now))
            && r.failCount in {cur.failCount, e.failCount}
            && r.failCount >= cur.failCount && r.failCount >= e.failCount
            && r.bannedAt in {cur.bannedAt, e.bannedAt}
            && (if cur.bannedAt == 0 then r.bannedAt == e.bannedAt
                else r.bannedAt <= cur.bannedAt && r.bannedAt <= e.bannedAt)
            && r.authRef == (if cur.authRef != "" then cur.authRef
                             else if e.authRef != "" then e.authRef else Trim(oldKey))
            && r.labelText == (if cur.labelText != "" then cur.labelText else e.labelText)
  {
    hide Norm, Trim, HasPrefix;
    var cur, e := t[Norm(email)], t[Trim(oldKey)];
    var moved := e.(email := Norm(email), authRef := OrElse(e.authRef, Trim(oldKey)));
    NormalizedWindow(Joined(cur, moved, Norm(email)), now);
  }

  // ---- Snapshots, questions, releases ----

  /** A snapshot shows the rows that have not ended and every 429, that one cut to
      the cap. */
  lemma SnapshotShows(t: Table, now: Clock, k: string)
    ensures k in SnapTable(t, now) <==> k in t && (now < t[k].resetAt || t[k].status == 429)
    ensures k in SnapTable(t, now) ==>
              var r := SnapTable(t, now)[k];
              r == t[k].(resetAt := r.resetAt, reason := r.reason) && Windowed(r, t[k].resetAt, t[k].reason, now)
  {
    if k in t { NormalizedWindow(t[k], now); }
  }

  /** A question is answered "isolated" when the row it leads to has not ended or is
      a 429; any other row it leads to is dropped. */
  lemma QuestionAnswers(t: Table, hit: Option<string>, now: Clock)
    requires hit.Some? ==> hit.value in t
    ensures AskAnswer(t, hit, now) <==> hit.Some? && (now < t[hit.value].resetAt || t[hit.value].status == 429)
    ensures AskTable(t, hit, now) ==
              if hit.Some? && t[hit.value].resetAt <= now && t[hit.value].status != 429 then t - {hit.value} else t
    ensures ClearTable(t, hit) == if hit.Some? then t - {hit.value} else t
  {}

  /** Where a lookup leads, with an exact index: to the key, then the lower-cased
      key, then a row of the e-mail, then a row that came under the auth id. */
  lemma LookupOrder(t: Table, idOrEmail: string, hit: Option<string>)
    requires Finds(t, idOrEmail, hit)
    ensures var q, low := Trim(idOrEmail), ToLower(Trim(idOrEmail));
            if q == "" then hit == None
            else if q in t then hit == Some(q)
            else if low in t then hit == Some(low)
            else if exists k :: k in t && Norm(t[k].email) == low
            then hit.Some? && hit.value in t && Norm(t[hit.value].email) == low
            else if exists k :: k in t && Trim(t[k].authRef) == q
            then hit.Some? && hit.value in t && Trim(t[hit.value].authRef) == q
            else hit == None
  {
    var q, low := Trim(idOrEmail), ToLower(Trim(idOrEmail));
    assert q != "" ==> low != "";
    hide Trim, ToLower;
    if q != "" {
      assert q in t ==> CanFind(t, q, q);
      assert low in t ==> q in t || CanFind(t, q, low);
      if k :| k in t && Norm(t[k].email) == low { assert k in KeysOf(t, low); }
      if q !in t && low !in t && forall k :: k in t ==> Norm(t[k].email) != low {
        assert KeysOf(t, low) == {};
        forall k | k in t && Trim(t[k].authRef) == q ensures CanFind(t, q, k) {}
      }
    }
  }

  /** The rows the releases leave. */
  lemma ReleasesLeave(t: Table, email: string, status: int, ids: seq<string>, k: string)
    requires k in t
    ensures k in t - RowsOfEmail(t, email) <==> Norm(email) == "" || Norm(email) !in {k, Norm(t[k].email)}
    ensures k in t - RowsOfStatus(t, status) <==> t[k].status != status
    ensures k in t - RowsNamed(t, ids) <==> k == "" || forall i :: 0 <= i < |ids| ==> Trim(ids[i]) != k
  {
    hide Norm, Trim;
  }

  // ---- Pruning ----

  /** What is left of a name without its ends `.json` and `xai-`. */
  ghost predicate StemOf(s: string, stem: string) {
    var body := if |Norm(s)| >= 5 && Norm(s)[|Norm(s)| - 5..] == ".json" then Norm(s)[..|Norm(s)| - 5] else Norm(s);
    stem == if "xai-" <= body then body[4..] else body
  }

  ghost predicate LiveMail(idx: LiveIndex, s: string) { Norm(s) != "" && Norm(s) in idx.emails }

  ghost predicate LiveID(idx: LiveIndex, s: string) {
    Trim(s) != "" && (Trim(s) in idx.ids || ToLower(Trim(s)) in idx.ids)
  }

  ghost predicate LiveFile(idx: LiveIndex, s: string) {
    exists stem :: StemOf(s, stem) && (LiveMail(idx, stem) || LiveID(idx, stem))
  }

  /** A row survives pruning exactly when its e-mail or key is a live e-mail, its
      key, auth id or label a live id, or one of these the file name of either. */
  lemma PruneKeeps(t: Table, idx: LiveIndex, k: string)
    requires k in t
    ensures k in t - Orphans(t, idx) <==>
              || LiveMail(idx, t[k].email) || LiveMail(idx, k)
              || (exists s :: s in {k, t[k].authRef, t[k].labelText} && (LiveID(idx, s) || LiveFile(idx, s)))
  {
    var e := t[k];
    forall s ensures KnownFile(idx, s) <==> LiveFile(idx, s) {
      assert StemOf(s, FileStem(s));
    }
    hide Norm, Trim, FileStem, KnownFile, LiveFile, ToLower;
    assert forall s :: HasID(idx, s) <==> LiveID(idx, s);
    assert forall s :: HasEmail(idx, s) <==> LiveMail(idx, s);
  }

  // ---- Loading ----

  /** The saved row can be loaded into the group `g`: it is a 429 or has not ended,
      and `g` is its e-mail, its lower-cased id with an `@`, or its id. */
  ghost predicate Loads(id: string, e: Entry, now: Clock, g: string) {
    && e.resetAt != 0 && (now < e.resetAt || e.status == 429)
    && g == (if Norm(e.email) != "" then Norm(e.email) else if '@' in id then ToLower(id) else Trim(id))
  }

  /** A group is loaded when the file has a row for it. */
  lemma LoadedGroups(f: Table, now: Clock, t: Table, g: string)
    requires Compacted(f, now, t)
    ensures g in t <==> g != "" && exists id :: id in f && Loads(id, f[id], now, g)
  {
    assert forall id :: id in f ==> (id in Members(f, now, g) <==> Loads(id, f[id], now, g));
    hide Loads, Eligible, Group, Wins;
  }

  /** The end of a saved row's window, that of a 429 cut to two hours from now. */
  function EndOf(e: Entry, now: Clock): int {
    if e.status == 429 && e.resetAt > now + 2 * 3_600_000_000_000 then now + 2 * 3_600_000_000_000 else e.resetAt
  }

  /** Its row is a saved one that ends last, one with an e-mail if there is such a
      one, filled up from its id; no row with an e-mail that ends then counted more. */
  lemma LoadedRow(f: Table, now: Clock, t: Table, g: string) returns (id: string)
    requires Compacted(f, now, t) && g in t
    ensures id in f && Loads(id, f[id], now, g) && LoadedFrom(id, f[id], now, g, t[g])
    ensures forall j :: j in f && Loads(j, f[j], now, g) ==> EndOf(f[j], now) <= t[g].resetAt
    ensures forall j :: j in f && Loads(j, f[j], now, g) && EndOf(f[j], now) == t[g].resetAt && !MailLess(j, f[j]) ==>
              !MailLess(id, f[id]) && f[j].failCount <= t[g].failCount
  {
    hide Entrant, Group, Norm, Eligible, Loads, LoadedFrom, MailLess, Mailbox, EndOf;
    id :| id in Members(f, now, g) && WinsAs(f, now, id, t[g]);
    MemberLoads(f, now, g, id);
    EntrantLaw(id, f[id], now, g);
    EntrantMailLess(id, f[id], now);
    SameMailbox(Entrant(id, f[id], now), t[g].failCount);
    CountGrows(id, f[id], now, g, Entrant(id, f[id], now), t[g].failCount);
    forall j | j in f && Loads(j, f[j], now, g)
      ensures j in Members(f, now, g) && Entrant(j, f[j], now).resetAt == EndOf(f[j], now)
      ensures Entrant(j, f[j], now).failCount == f[j].failCount
    {
      MemberLoads(f, now, g, j);
      EntrantLaw(j, f[j], now, g);
      EntrantEnds(j, f[j], now, g);
    }
  }

  lemma SameMailbox(e: Entry, n: int)
    ensures Mailbox(e.(failCount := n)) == Mailbox(e)
  {}

  lemma MemberLoads(f: Table, now: Clock, g: string, id: string)
    requires id in f
    ensures id in Members(f, now, g) <==> Loads(id, f[id], now, g)
  {}

  lemma CountGrows(id: string, e: Entry, now: Clock, g: string, r: Entry, n: int)
    requires LoadedFrom(id, e, now, g, r) && r.failCount <= n
    ensures LoadedFrom(id, e, now, g, r.(failCount := n))
  {}

  lemma EntrantEnds(id: string, e: Entry, now: Clock, g: string)
    requires Loads(id, e, now, g)
    ensures Entrant(id, e, now).resetAt == EndOf(e, now)
  {}

  /** The loaded row is the saved one, with what its id says of e-mail and auth id
      where it says nothing itself; its count may have grown. */
  ghost predicate LoadedFrom(id: string, e: Entry, now: Clock, g: string, r: Entry) {
    && (r.status, r.source, r.labelText, r.bannedAt) == (e.status, e.source, e.labelText, e.bannedAt)
    && r.failCount >= e.failCount && Windowed(r, e.resetAt, e.reason, now)
    && r.email == (if Norm(e.email) == "" && '@' in id then ToLower(id) else e.email)
    && r.authRef == (if e.authRef == "" && id != g then id else e.authRef)
  }

  lemma EntrantLaw(id: string, e: Entry, now: Clock, g: string)
    requires Loads(id, e, now, g)
    ensures LoadedFrom(id, e, now, g, Entrant(id, e, now)) && Group(id, e) == g
    ensures Entrant(id, e, now).failCount == e.failCount
  {
    hide Norm, ToLower, Trim, Normalize;
    NormalizedWindow(e.(email := if Mailbox(e) == "" && '@' in id then ToLower(id) else e.email,
                        authRef := if e.authRef == "" && id != Group(id, e) then id else e.authRef), now);
  }
}
