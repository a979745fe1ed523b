/** The isolation table of the autoban ledger as a value, and what one locked
    section does to it. The class in BanLedger.dfy is proved against these functions. */
module BanTable {
  import opened Text
  import opened Wrappers

  /** Nanoseconds since Go's zero time; 0 is the zero time itself. */
  type Time = int

  /** A reading of time.Now(): always after the zero time. */
  type Clock = t: int | 0 < t witness 1

  const HOUR: int := 3_600_000_000_000
  const RATE_FIXED: int := 2 * HOUR
  const UNAUTHORIZED_SHORT: int := 2 * HOUR
  const UNAUTHORIZED_LONG: int := 24 * HOUR
  const PAYMENT: int := 7 * 24 * HOUR
  const FORBIDDEN: int := 24 * HOUR
  const TOO_MANY: int := 429

  datatype Entry = Entry(
    status: int, reason: string, source: string, email: string, authRef: string,
    labelText: string, bannedAt: Time, resetAt: Time, failCount: int)

  type Table = map<string, Entry>
  type EmailIndex = map<string, set<string>>

  /** How many keys a set holds. Stated without |s| so that the loops that
      count removals stay cheap to verify; TallyIs ties the two. */
  ghost function Tally(s: set<string>): nat {
    if s == {} then 0 else var k :| k in s; 1 + Tally(s - {k})
  }

  lemma {:induction false} TallyIs(s: set<string>)
    ensures Tally(s) == |s|
  {
    if s != {} {
      var k :| k in s && Tally(s) == 1 + Tally(s - {k});
      TallyIs(s - {k});
    }
  }

  lemma TallyUnion(a: set<string>, b: set<string>)
    requires a !! b
    ensures Tally(a + b) == Tally(a) + Tally(b)
  {
    TallyIs(a);
    TallyIs(b);
    TallyIs(a + b);
  }

  lemma TallyAdd(s: set<string>, k: string)
    requires k !in s
    ensures Tally(s + {k}) == Tally(s) + 1
  {
    TallyIs(s);
    TallyIs(s + {k});
  }

  // ---- Normal forms of one row ----

  function StorageKey(email: string, authID: string): string {
    if Norm(email) != "" then Norm(email) else Trim(authID)
  }

  function Clamp429(now: Clock, resetAt: Time): Time {
    if resetAt == 0 || resetAt > now + RATE_FIXED then now + RATE_FIXED else resetAt
  }

  function Normalize(e: Entry, now: Clock): Entry {
    if e.status != TOO_MANY then e
    else e.(resetAt := Clamp429(now, e.resetAt),
            reason := if e.reason == "" || HasPrefix(e.reason, "rate_limited")
                      then "rate_limited_2h" else e.reason)
  }

  lemma NormalizeIdempotent(e: Entry, now: Clock, later: Clock)
    requires now <= later
    ensures Normalize(Normalize(e, now), later) == Normalize(e, now)
  {}

  /** The e-mail a row is filed under in the index; "" for a row without one. */
  function Mailbox(e: Entry): string { Norm(e.email) }

  // ---- The two invariants ----

  /** One row per e-mail, under the normalised e-mail; rows without an e-mail
      sit under a trimmed auth id that is not an e-mail address. */
  ghost predicate TableOK(t: Table) {
    forall k :: k in t ==> RowOK(k, t[k])
  }

  predicate RowOK(k: string, e: Entry) {
    && k != "" && IsTrimmed(k)
    && (if Mailbox(e) != "" then k == Mailbox(e) else '@' !in k)
  }

  /** What every operation of the ledger object keeps: a row's key spells its
      e-mail, in whatever letter case. */
  ghost predicate Spelled(t: Table) {
    forall k :: k in t ==> RowFiled(k, t[k])
  }

  /** The same, and no two rows carry the same e-mail. */
  ghost predicate Filed(t: Table) {
    && Spelled(t)
    && (forall a, b :: a in t && b in t && Mailbox(t[a]) != "" && Mailbox(t[a]) == Mailbox(t[b]) ==> a == b)
  }

  predicate RowFiled(k: string, e: Entry) {
    k != "" && if Mailbox(e) != "" then Norm(k) == Mailbox(e) else IsTrimmed(k) && '@' !in k
  }

  lemma OKIsFiled(t: Table)
    requires TableOK(t)
    ensures Filed(t)
  {
    forall k | k in t ensures RowFiled(k, t[k]) { NormFacts(t[k].email); }
  }

  /** The linear scan that the secondary index must agree with. */
  function KeysOf(t: Table, m: string): set<string> {
    set k | k in t && Mailbox(t[k]) == m
  }

  function ScanIndex(t: Table): EmailIndex {
    map m | m in (set k | k in t :: Mailbox(t[k])) && m != "" :: KeysOf(t, m)
  }

  function Unindex(index: EmailIndex, k: string, email: string): EmailIndex {
    var m := Norm(email);
    if m == "" || m !in index then index
    else if index[m] - {k} == {} then index - {m}
    else index[m := index[m] - {k}]
  }

  function Reindex(index: EmailIndex, k: string, email: string): EmailIndex {
    var m := Norm(email);
    if m == "" then index else index[m := {k}]
  }

  /** The index lists only rows of the e-mail it lists them under, if not all of them. */
  ghost predicate Listing(t: Table, index: EmailIndex) {
    forall m :: m in index ==> m != "" && index[m] != {} && index[m] <= KeysOf(t, m)
  }

  lemma UnindexLists(t: Table, index: EmailIndex, k: string)
    requires Listing(t, index) && k in t
    ensures Listing(t - {k}, Unindex(index, k, t[k].email))
  {
    hide Norm;
    forall m ensures KeysOf(t - {k}, m) == KeysOf(t, m) - {k} {}
  }

  lemma ReindexLists(t: Table, index: EmailIndex, k: string, e: Entry)
    requires Listing(t, index) && (k in t ==> Mailbox(t[k]) == "" || Mailbox(t[k]) == Mailbox(e))
    ensures Listing(t[k := e], Reindex(index, k, e.email))
  {
    hide Norm;
    var u := t[k := e];
    assert Mailbox(e) != "" ==> k in KeysOf(u, Mailbox(e));
    forall m | m in index ensures index[m] <= KeysOf(u, m) || m == Mailbox(e) {
      assert k in index[m] ==> k in KeysOf(t, m);
    }
  }

  lemma ScanHas(t: Table, m: string)
    ensures m in ScanIndex(t) <==> m != "" && KeysOf(t, m) != {}
    ensures m in ScanIndex(t) ==> ScanIndex(t)[m] == KeysOf(t, m)
  {
    if m in ScanIndex(t) {
      var k :| k in t && Mailbox(t[k]) == m;
      assert k in KeysOf(t, m);
    }
  }

  lemma SameScan(a: Table, b: EmailIndex)
    requires forall m :: m in b <==> m != "" && KeysOf(a, m) != {}
    requires forall m :: m in b ==> b[m] == KeysOf(a, m)
    ensures b == ScanIndex(a)
  {
    forall m ensures m in b <==> m in ScanIndex(a)
             ensures m in b ==> b[m] == ScanIndex(a)[m]
    {
      ScanHas(a, m);
    }
  }

  /** Deleting a row after unindexing it keeps the index equal to the scan. */
  lemma UnindexScan(t: Table, k: string)
    requires k in t
    ensures Unindex(ScanIndex(t), k, t[k].email) == ScanIndex(t - {k})
  {
    var u := t - {k};
    var b := Unindex(ScanIndex(t), k, t[k].email);
    forall m ensures m in b <==> m != "" && KeysOf(u, m) != {}
             ensures m in b ==> b[m] == KeysOf(u, m)
    {
      ScanHas(t, m);
      assert KeysOf(u, m) == KeysOf(t, m) - {k};
      assert m != Mailbox(t[k]) ==> k !in KeysOf(t, m);
    }
    SameScan(u, b);
  }

  /** Filing a row keeps it too exactly when no other row has its mailbox. */
  lemma ReindexScan(t: Table, k: string, e: Entry)
    requires k in t ==> Mailbox(t[k]) == "" || Mailbox(t[k]) == Mailbox(e)
    ensures Reindex(ScanIndex(t), k, e.email) == ScanIndex(t[k := e]) <==>
              Mailbox(e) == "" || KeysOf(t, Mailbox(e)) <= {k}
  {
    if Mailbox(e) == "" || KeysOf(t, Mailbox(e)) <= {k} {
      ReindexFree(t, k, e);
    } else {
      var rival :| rival in KeysOf(t, Mailbox(e)) && rival != k;
      ScanHas(t[k := e], Mailbox(e));
      assert rival in KeysOf(t[k := e], Mailbox(e));
    }
  }

  /** The rows of a mailbox after one row has been stored. */
  lemma KeysOfPut(t: Table, k: string, e: Entry, m: string)
    requires k in t ==> Mailbox(t[k]) == "" || Mailbox(t[k]) == Mailbox(e)
    ensures m == Mailbox(e) ==> KeysOf(t[k := e], m) == KeysOf(t, m) + {k}
    ensures m != Mailbox(e) && m != "" ==> KeysOf(t[k := e], m) == KeysOf(t, m)
  {
    hide Norm;
  }

  lemma ReindexFree(t: Table, k: string, e: Entry)
    requires Mailbox(e) == "" || KeysOf(t, Mailbox(e)) <= {k}
    requires k in t ==> Mailbox(t[k]) == "" || Mailbox(t[k]) == Mailbox(e)
    ensures Reindex(ScanIndex(t), k, e.email) == ScanIndex(t[k := e])
  {
    hide ScanIndex, Norm, KeysOf;
    var u := t[k := e];
    var b := Reindex(ScanIndex(t), k, e.email);
    forall m ensures m in b <==> m != "" && KeysOf(u, m) != {}
             ensures m in b ==> b[m] == KeysOf(u, m)
    {
      ScanHas(t, m);
      KeysOfPut(t, k, e, m);
    }
    SameScan(u, b);
  }

  lemma RemovalSpelled(t: Table, gone: set<string>)
    requires Spelled(t)
    ensures Spelled(t - gone)
  {
    hide RowFiled;
  }

  lemma RemovalFiled(t: Table, gone: set<string>)
    requires Filed(t)
    ensures Filed(t - gone)
  {
    hide RowFiled;
  }

  lemma RemovalKeeps(t: Table, gone: set<string>)
    ensures Spelled(t) ==> Spelled(t - gone)
    ensures Filed(t) ==> Filed(t - gone)
  {
    hide *;
    if Spelled(t) { RemovalSpelled(t, gone); }
    if Filed(t) { RemovalFiled(t, gone); }
  }

  // ---- set ----

  /** The row a report asks for, before it meets the table. */
  function Requested(authID: string, entry: Entry, now: Clock): Entry {
    var id, mail, key := Trim(authID), Trim(entry.email), StorageKey(entry.email, authID);
    Normalize(entry.(
      email := if mail == "" && '@' in key then key else mail,
      authRef := if id != "" && id != key then id
                 else if entry.authRef == "" then id else entry.authRef), now)
  }

  /** Rows a report drops: other rows of the same e-mail, and the row kept
      under the reported auth id. */
  function Superseded(t: Table, authID: string, entry: Entry, now: Clock): set<string> {
    Stale(t, StorageKey(entry.email, authID), Trim(authID), Mailbox(Requested(authID, entry, now)))
  }

  function Stale(t: Table, key: string, id: string, m: string): set<string> {
    set k | k in t && k != key && ((id != "" && k == id) || (m != "" && (Mailbox(t[k]) == m || Norm(k) == m)))
  }

  /** The stored window outlives the reported one, and neither side is a 429. */
  predicate KeepsLonger(cur: Entry, inc: Entry) {
    && inc.source != "recheck429"
    && inc.status != TOO_MANY && cur.status != TOO_MANY
    && cur.resetAt > inc.resetAt
  }

  function OrElse(a: string, b: string): string { if a != "" then a else b }

  /** The row a report leaves when its key already has one. */
  function Renewed(cur: Entry, inc: Entry, now: Clock): Entry {
    Normalize(
      if KeepsLonger(cur, inc) then
        Entry(if inc.status != 0 then inc.status else cur.status,
              if inc.status != 0 then inc.reason else cur.reason,
              FirstNonEmpty([inc.source, cur.source]),
              OrElse(inc.email, cur.email), OrElse(inc.authRef, cur.authRef), OrElse(inc.labelText, cur.labelText),
              cur.bannedAt, cur.resetAt, cur.failCount + 1)
      else
        inc.(failCount := cur.failCount + 1, email := OrElse(inc.email, cur.email),
             authRef := OrElse(inc.authRef, cur.authRef), labelText := OrElse(inc.labelText, cur.labelText)), now)
  }

  function FirstRow(inc: Entry, now: Clock): Entry {
    Normalize(if inc.failCount == 0 then inc.(failCount := 1) else inc, now)
  }

  function SetTable(t: Table, authID: string, entry: Entry, now: Clock): Table {
    var key, inc := StorageKey(entry.email, authID), Requested(authID, entry, now);
    if key == "" then t
    else (t - Superseded(t, authID, entry, now))
         [key := if key in t then Renewed(t[key], inc, now) else FirstRow(inc, now)]
  }

  /** An auth id that doubles as the e-mail of a mail-less report is lower-case. */
  predicate CanonicalReport(authID: string, entry: Entry) {
    Trim(entry.email) == "" && '@' in Trim(authID) ==> ToLower(Trim(authID)) == Trim(authID)
  }

  lemma RequestedMail(authID: string, entry: Entry, now: Clock)
    ensures var key, mail := StorageKey(entry.email, authID), Trim(entry.email);
            Requested(authID, entry, now).email == if mail == "" && '@' in key then key else mail
  {
    hide StorageKey, Trim, Clamp429;
  }

  /** The key is trimmed, and the requested e-mail files the row under that
      key, unless the report is not canonical. */
  lemma RequestShape(authID: string, entry: Entry, now: Clock)
    ensures var key, m := StorageKey(entry.email, authID), Mailbox(Requested(authID, entry, now));
            && IsTrimmed(key)
            && m == (if Norm(entry.email) != "" then key else if '@' in key then ToLower(key) else "")
            && (CanonicalReport(authID, entry) <==> m == "" || m == key)
            && (m == "" ==> '@' !in key)
            && (Norm(entry.email) != "" ==> IsNormal(key))
  {
    var id, mail := Trim(authID), Trim(entry.email);
    NormFacts(entry.email);
    NormFacts(authID);
    NormFacts(id);
    NormFacts(mail);
    LowerChars(id, '@');
    RequestedMail(authID, entry, now);
    assert Trim(id) == id && Trim(mail) == mail;
    hide Trim, ToLower, Requested;
  }

  lemma RenewedEmail(cur: Entry, inc: Entry, now: Clock)
    ensures Renewed(cur, inc, now).email == OrElse(inc.email, cur.email)
  {}

  /** Where the reported row ends up: its e-mail is the requested one, or the
      stored one when the report names none. */
  lemma SetRow(t: Table, authID: string, entry: Entry, now: Clock)
    requires StorageKey(entry.email, authID) != ""
    ensures var key, inc := StorageKey(entry.email, authID), Requested(authID, entry, now);
            var m := Mailbox(SetTable(t, authID, entry, now)[key]);
            if Mailbox(inc) != "" then m == Mailbox(inc)
            else m == (if key in t then Mailbox(t[key]) else "")
  {
    var key, inc := StorageKey(entry.email, authID), Requested(authID, entry, now);
    assert inc.email == "" || Trim(inc.email) != "" by {
      NormFacts(entry.email);
    }
    assert Mailbox(inc) == "" <==> inc.email == "" by {
      NormFacts(inc.email);
    }
    if key in t {
      RenewedEmail(t[key], inc, now);
    }
  }

  lemma SetStores(t: Table, authID: string, entry: Entry, now: Clock)
    requires StorageKey(entry.email, authID) != ""
    ensures var key, u := StorageKey(entry.email, authID), SetTable(t, authID, entry, now);
            key in u && forall k :: k in u && k != key ==> k in t && u[k] == t[k]
  {
    hide StorageKey, Requested, Superseded, Renewed, FirstRow;
  }

  /** A report keeps every row under its normalised e-mail exactly when it is canonical. */
  lemma SetKeepsTable(t: Table, authID: string, entry: Entry, now: Clock)
    requires TableOK(t)
    ensures TableOK(SetTable(t, authID, entry, now)) <==> CanonicalReport(authID, entry)
  {
    var key := StorageKey(entry.email, authID);
    var u := SetTable(t, authID, entry, now);
    RequestShape(authID, entry, now);
    if key != "" {
      SetRow(t, authID, entry, now);
      SetStores(t, authID, entry, now);
      hide SetTable, Norm, Requested, CanonicalReport, Renewed, FirstRow;
      assert TableOK(u) <==> RowOK(key, u[key]) by { hide RowOK; }
    }
  }

  /** Storing a row keeps one row per e-mail exactly when no other row has its e-mail. */
  lemma StoreFiled(t: Table, key: string, row: Entry)
    requires Filed(t) && RowFiled(key, row)
    ensures Filed(t[key := row]) <==>
              forall k :: k in t && k != key && Mailbox(row) != "" ==> Mailbox(t[k]) != Mailbox(row)
  {
    hide RowFiled, Norm;
    var u := t[key := row];
    if k :| k in t && k != key && Mailbox(row) != "" && Mailbox(t[k]) == Mailbox(row) {
      assert k in u && key in u && Mailbox(u[k]) == Mailbox(u[key]);
    }
  }

  /** A report keeps every key a spelling of its e-mail. */
  lemma SetKeepsSpelled(t: Table, authID: string, entry: Entry, now: Clock)
    requires Spelled(t)
    ensures Spelled(SetTable(t, authID, entry, now))
  {
    var key := StorageKey(entry.email, authID);
    if key != "" {
      SetFilesRow(t, authID, entry, now);
      hide RowFiled, Requested, StorageKey, Renewed, FirstRow;
    }
  }

  /** A report keeps one row per e-mail, whatever spelling of it the key has. */
  lemma SetKeepsFiled(t: Table, authID: string, entry: Entry, now: Clock)
    requires Filed(t)
    ensures Filed(SetTable(t, authID, entry, now))
  {
    var key, inc := StorageKey(entry.email, authID), Requested(authID, entry, now);
    if key != "" {
      var left, row := t - Superseded(t, authID, entry, now), SetTable(t, authID, entry, now)[key];
      SetFilesRow(t, authID, entry, now);
      SetRow(t, authID, entry, now);
      RemovalFiled(t, Superseded(t, authID, entry, now));
      StoreFiled(left, key, row);
      NoRivals(t, authID, entry, now);
      hide Filed, RowFiled, Requested, Renewed, FirstRow, StorageKey, Superseded, Mailbox;
    }
  }

  lemma NoRivals(t: Table, authID: string, entry: Entry, now: Clock)
    requires Filed(t) && StorageKey(entry.email, authID) != ""
    ensures var key := StorageKey(entry.email, authID);
            var left, row := t - Superseded(t, authID, entry, now), SetTable(t, authID, entry, now)[key];
            forall k :: k in left && k != key && Mailbox(row) != "" ==> Mailbox(left[k]) != Mailbox(row)
  {
    SetRow(t, authID, entry, now);
    hide RowFiled, Norm, Requested, StorageKey, SetTable;
  }

  lemma SetFilesRow(t: Table, authID: string, entry: Entry, now: Clock)
    requires Spelled(t) && StorageKey(entry.email, authID) != ""
    ensures var key := StorageKey(entry.email, authID);
            RowFiled(key, SetTable(t, authID, entry, now)[key])
  {
    var key := StorageKey(entry.email, authID);
    RequestShape(authID, entry, now);
    SetRow(t, authID, entry, now);
    NormFacts(key);
    NormFacts(entry.email);
    hide SetTable, Requested, ToLower;
    assert Trim(key) == key;
  }

  /** A report filed elsewhere that still reaches the row of `m`: its auth id is
      `m`, or spells it in another letter case and stands in for a missing e-mail. */
  predicate Strays(authID: string, entry: Entry, m: string) {
    && StorageKey(entry.email, authID) != m
    && (Trim(authID) == m || (Norm(entry.email) == "" && '@' in m && ToLower(Trim(authID)) == m))
  }

  /** A report touches no row but its own and those it strays to. */
  lemma SetTouchesOnly(t: Table, authID: string, entry: Entry, now: Clock, m: string)
    requires Spelled(t) && m in t && IsNormal(m)
    requires StorageKey(entry.email, authID) != m && !Strays(authID, entry, m)
    ensures m in SetTable(t, authID, entry, now) && SetTable(t, authID, entry, now)[m] == t[m]
  {
    var key := StorageKey(entry.email, authID);
    RequestShape(authID, entry, now);
    NormFacts(m);
    LowerChars(key, '@');
    assert Norm(m) == m && (Mailbox(t[m]) == "" || Mailbox(t[m]) == m) by { assert RowFiled(m, t[m]); }
    assert Mailbox(Requested(authID, entry, now)) != m || m == "";
    hide Requested, ToLower, Trim;
    assert m !in Superseded(t, authID, entry, now);
  }

  // ---- attachEmail ----

  function Joined(cur: Entry, e: Entry, mail: string): Entry {
    Entry(if cur.status == 0 then e.status else cur.status,
          if cur.status == 0 then e.reason else cur.reason,
          cur.source, mail, OrElse(cur.authRef, e.authRef), OrElse(cur.labelText, e.labelText),
          if e.bannedAt < cur.bannedAt || cur.bannedAt == 0 then e.bannedAt else cur.bannedAt,
          if e.resetAt > cur.resetAt then e.resetAt else cur.resetAt,
          if e.failCount > cur.failCount then e.failCount else cur.failCount)
  }

  predicate Attachable(t: Table, oldKey: string, email: string) {
    Norm(email) != "" && Trim(oldKey) != "" && Norm(email) != Trim(oldKey) && Trim(oldKey) in t
  }

  function AttachTable(t: Table, oldKey: string, email: string, now: Clock): Table {
    if !Attachable(t, oldKey, email) then t
    else
      var from, m := Trim(oldKey), Norm(email);
      var e := t[from].(email := m, authRef := OrElse(t[from].authRef, from));
      (t - {from})[m := Normalize(if m in t then Joined(t[m], e, m) else e, now)]
  }

  /** The e-mail a row is moved to owns no row yet, but one under its normal
      spelling and the one being moved. */
  predicate Fits(t: Table, oldKey: string, email: string) {
    Attachable(t, oldKey, email) ==> KeysOf(t, Norm(email)) <= {Norm(email), Trim(oldKey)}
  }

  lemma FitsMeans(t: Table, m: string, from: string)
    ensures KeysOf(t, m) <= {m, from} <==>
              forall k :: k in t - {from} && k != m ==> Mailbox((t - {from})[k]) != m
  {
    hide Norm;
    var left := t - {from};
    if KeysOf(t, m) <= {m, from} {
      forall k | k in left && k != m ensures Mailbox(left[k]) != m {
        assert k !in KeysOf(t, m);
      }
    } else {
      var k :| k in KeysOf(t, m) && k != m && k != from;
      assert k in left && Mailbox(left[k]) == m;
    }
  }

  /** Attaching an e-mail keeps every key a spelling of its row's e-mail. */
  lemma AttachKeepsSpelled(t: Table, oldKey: string, email: string, now: Clock)
    requires Spelled(t)
    ensures Spelled(AttachTable(t, oldKey, email, now))
  {
    if Attachable(t, oldKey, email) {
      NormFacts(email);
      AttachedMail(t, oldKey, email, now);
      AttachStores(t, oldKey, email, now);
      hide AttachTable, Attachable, ToLower, Trim;
    }
  }

  /** Attaching an e-mail keeps one row per e-mail exactly when it fits. */
  lemma AttachKeepsFiled(t: Table, oldKey: string, email: string, now: Clock)
    requires Filed(t)
    ensures Filed(AttachTable(t, oldKey, email, now)) <==> Fits(t, oldKey, email)
  {
    if Attachable(t, oldKey, email) {
      var m, left := Norm(email), t - {Trim(oldKey)};
      var row := AttachTable(t, oldKey, email, now)[m];
      NormFacts(email);
      FitsMeans(t, m, Trim(oldKey));
      assert Fits(t, oldKey, email) <==> KeysOf(t, m) <= {m, Trim(oldKey)};
      AttachedMail(t, oldKey, email, now);
      RemovalFiled(t, {Trim(oldKey)});
      assert m != "" && RowFiled(m, row);
      AttachStores(t, oldKey, email, now);
      hide Filed, Fits, AttachTable, RowFiled, Norm, Trim, Attachable;
      StoreFiled(left, m, row);
    }
  }

  lemma AttachStores(t: Table, oldKey: string, email: string, now: Clock)
    requires Attachable(t, oldKey, email)
    ensures var m, u := Norm(email), AttachTable(t, oldKey, email, now);
            m in u && u == (t - {Trim(oldKey)})[m := u[m]]
  {
    hide Norm, Trim, Normalize, Joined;
  }

  lemma AttachedMail(t: Table, oldKey: string, email: string, now: Clock)
    requires Attachable(t, oldKey, email)
    ensures Mailbox(AttachTable(t, oldKey, email, now)[Norm(email)]) == Norm(email)
  {
    NormFacts(email);
    hide Trim, ToLower, Clamp429;
  }

  /** In a table keyed by normalised e-mails every attachment fits. */
  lemma AttachFits(t: Table, oldKey: string, email: string)
    requires TableOK(t)
    ensures Fits(t, oldKey, email)
  {
    hide ToLower, Trim;
  }

  lemma AttachKeepsTable(t: Table, oldKey: string, email: string, now: Clock)
    requires TableOK(t)
    ensures TableOK(AttachTable(t, oldKey, email, now))
  {
    NormFacts(email);
  }

  // ---- snapshot ----

  predicate InForce(e: Entry, now: Clock) { now < e.resetAt || e.status == TOO_MANY }

  function SnapTable(t: Table, now: Clock): Table {
    map k | k in t && InForce(Normalize(t[k], now), now) :: Normalize(t[k], now)
  }

  /** Whether a snapshot rewrites or purges this row. */
  predicate SnapChanges(e: Entry, now: Clock) {
    Normalize(e, now) != e || !InForce(Normalize(e, now), now)
  }

  /** At a fixed time a second snapshot returns the same rows and changes nothing. */
  lemma SnapshotIdempotent(t: Table, now: Clock)
    ensures SnapTable(SnapTable(t, now), now) == SnapTable(t, now)
  {}

  lemma SnapKeepsSpelled(t: Table, now: Clock)
    requires Spelled(t)
    ensures Spelled(SnapTable(t, now))
  {
    hide ToLower, Trim, Clamp429;
  }

  lemma SnapKeepsFiled(t: Table, now: Clock)
    requires Filed(t)
    ensures Filed(SnapTable(t, now))
  {
    hide ToLower, Trim, Clamp429;
  }

  lemma SnapKeepsTable(t: Table, now: Clock)
    requires TableOK(t)
    ensures TableOK(SnapTable(t, now))
  {}

  // ---- lookup ----

  /** A row that lookupLocked may answer for the trimmed, non-empty query `q`:
      by key, by lower-cased key, by index, else any row with that AuthRef. */
  predicate CanFind(t: Table, q: string, k: string) {
    var low := ToLower(q);
    && k in t
    && (if q in t then k == q
        else if low in t then k == low
        else if low != "" && KeysOf(t, low) != {} then Mailbox(t[k]) == low
        else Trim(t[k].authRef) == q)
  }

  /** The possible answers of a lookup for `idOrEmail`. */
  ghost predicate Finds(t: Table, idOrEmail: string, hit: Option<string>) {
    var q := Trim(idOrEmail);
    match hit
    case Some(k) => q != "" && CanFind(t, q, k)
    case None => q == "" || forall k :: k in t ==> !CanFind(t, q, k)
  }

  /** The rows a lookup may answer while the index misses some: an indexed row of
      the e-mail, or one with the AuthRef, unless a key comes first. */
  predicate MayFind(t: Table, q: string, k: string) {
    var low := ToLower(q);
    && k in t
    && (if q in t then k == q
        else if low in t then k == low
        else (low != "" && Mailbox(t[k]) == low) || Trim(t[k].authRef) == q)
  }

  /** The answers a lookup for `idOrEmail` may give while the index misses some rows. */
  ghost predicate MayAnswer(t: Table, idOrEmail: string, hit: Option<string>) {
    var q := Trim(idOrEmail);
    match hit
    case Some(k) => q != "" && MayFind(t, q, k)
    case None => q == "" || (q !in t && ToLower(q) !in t && forall k :: k in t ==> Trim(t[k].authRef) != q)
  }

  /** What a lookup answers for `idOrEmail`, given whether the index lists all rows. */
  ghost predicate Answers(t: Table, idOrEmail: string, hit: Option<string>, exact: bool) {
    MayAnswer(t, idOrEmail, hit) && (exact ==> Finds(t, idOrEmail, hit))
  }

  /** A normalised e-mail that owns a row is always found, and found there. */
  lemma FindsByEmail(t: Table, m: string, hit: Option<string>)
    requires m in t && m != "" && IsNormal(m) && MayAnswer(t, m, hit)
    ensures hit == Some(m)
  {}

  /** `active`: whether the row found is in force; an expired one is dropped. */
  predicate AskAnswer(t: Table, hit: Option<string>, now: Clock) {
    hit.Some? && hit.value in t && InForce(t[hit.value], now)
  }

  function AskTable(t: Table, hit: Option<string>, now: Clock): Table {
    if hit.Some? && !AskAnswer(t, hit, now) then t - {hit.value} else t
  }

  // ---- releases ----

  function ClearTable(t: Table, hit: Option<string>): Table {
    if hit.Some? then t - {hit.value} else t
  }

  function RowsOfEmail(t: Table, email: string): set<string> {
    var m := Norm(email);
    set k | k in t && m != "" && (k == m || Mailbox(t[k]) == m)
  }

  function RowsOfStatus(t: Table, status: int): set<string> {
    set k | k in t && t[k].status == status
  }

  function RowsNamed(t: Table, ids: seq<string>): set<string> {
    set k | k in t && k != "" && exists i :: 0 <= i < |ids| && Trim(ids[i]) == k
  }

  // ---- pruning against the host's live credentials ----

  datatype LiveIndex = LiveIndex(emails: set<string>, ids: set<string>)

  predicate HasEmail(idx: LiveIndex, email: string) {
    Norm(email) != "" && Norm(email) in idx.emails
  }

  predicate HasID(idx: LiveIndex, id: string) {
    Trim(id) != "" && (Trim(id) in idx.ids || ToLower(Trim(id)) in idx.ids)
  }

  function FileStem(s: string): string {
    TrimPrefix(TrimSuffix(Norm(s), ".json"), "xai-")
  }

  predicate KnownFile(idx: LiveIndex, s: string) {
    HasEmail(idx, FileStem(s)) || HasID(idx, FileStem(s))
  }

  predicate MatchesLive(key: string, e: Entry, idx: LiveIndex) {
    || HasEmail(idx, e.email) || HasEmail(idx, key)
    || HasID(idx, key) || HasID(idx, e.authRef) || HasID(idx, e.labelText)
    || KnownFile(idx, key) || KnownFile(idx, e.authRef) || KnownFile(idx, e.labelText)
  }

  function Orphans(t: Table, idx: LiveIndex): set<string> {
    set k | k in t && !MatchesLive(k, t[k], idx)
  }
}
