/** The ledger seen from one account: reports refine a small abstract machine. */
module BanAccounts {
  import opened Text
  import opened BanTable
  import opened BanRuns

  /** What the ledger knows about one account. */
  datatype Account = Free | Isolated(status: int, reason: string, resetAt: Time, count: int)

  datatype Filing = Filing(now: Clock, authID: string, entry: Entry)

  function AccountOf(t: Table, m: string): Account {
    if m in t then AccountIn(t[m]) else Free
  }

  function Max(a: int, b: int): int { if a < b then b else a }

  /** One report, abstractly: the count goes up, the status becomes the latest;
      the window is replaced when either side is a 429 (or a recheck speaks),
      and is otherwise the longer of the two. */
  function Accept(a: Account, e: Entry, now: Clock): Account {
    var n := Normalize(e, now);
    match a
    case Free => Isolated(n.status, n.reason, n.resetAt, if e.failCount == 0 then 1 else e.failCount)
    case Isolated(status, reason, resetAt, count) =>
      if status == TOO_MANY || e.status == TOO_MANY || e.source == "recheck429" then
        Isolated(n.status, n.reason, n.resetAt, count + 1)
      else if e.status == 0 && resetAt > e.resetAt then
        Isolated(status, reason, resetAt, count + 1)
      else
        Isolated(e.status, e.reason, Max(resetAt, e.resetAt), count + 1)
  }

  function AccountIn(e: Entry): Account { Isolated(e.status, e.reason, e.resetAt, e.failCount) }

  lemma RequestedAccount(authID: string, entry: Entry, now: Clock)
    ensures var inc, n := Requested(authID, entry, now), Normalize(entry, now);
            && AccountIn(inc) == AccountIn(n) && inc.source == entry.source
            && Normalize(inc, now) == inc
  {
    hide StorageKey;
  }

  lemma RenewedAccount(cur: Entry, e: Entry, inc: Entry, now: Clock)
    requires AccountIn(inc) == AccountIn(Normalize(e, now)) && inc.source == e.source
    ensures AccountIn(Renewed(cur, inc, now)) == Accept(AccountIn(cur), e, now)
  {
    hide FirstNonEmpty, OrElse;
  }

  /** `set` refines the abstract machine on the account it reports. */
  lemma SetRefines(t: Table, authID: string, entry: Entry, now: Clock)
    requires StorageKey(entry.email, authID) != ""
    ensures var m := StorageKey(entry.email, authID);
            AccountOf(SetTable(t, authID, entry, now), m) == Accept(AccountOf(t, m), entry, now)
  {
    var m := StorageKey(entry.email, authID);
    RequestedAccount(authID, entry, now);
    if m in t { RenewedAccount(t[m], entry, Requested(authID, entry, now), now); }
    hide Renewed, Requested, StorageKey, Superseded;
  }

  function FiledUnder(f: Filing): string { StorageKey(f.entry.email, f.authID) }

  function SetAll(t: Table, fs: seq<Filing>): Table {
    if fs == [] then t
    else
      var f := fs[|fs| - 1];
      SetTable(SetAll(t, fs[..|fs| - 1]), f.authID, f.entry, f.now)
  }

  function AcceptAll(a: Account, fs: seq<Filing>, m: string): Account {
    if fs == [] then a
    else
      var f, before := fs[|fs| - 1], AcceptAll(a, fs[..|fs| - 1], m);
      if FiledUnder(f) == m then Accept(before, f.entry, f.now) else before
  }

  /** The report is filed under `m` or does not reach its row. */
  predicate Foreign(f: Filing, m: string) { !Strays(f.authID, f.entry, m) }

  lemma OtherReportFree(t: Table, f: Filing, m: string)
    requires m !in t && FiledUnder(f) != m
    ensures m !in SetTable(t, f.authID, f.entry, f.now)
  {}

  /** Any sequence of reports about any accounts leaves the account `m` as the
      abstract machine says from the reports about `m` alone. */
  lemma {:induction false} ReportsRefine(t: Table, fs: seq<Filing>, m: string)
    requires Spelled(t) && IsNormal(m) && m != ""
    requires forall i :: 0 <= i < |fs| ==> Foreign(fs[i], m)
    ensures Spelled(SetAll(t, fs))
    ensures AccountOf(SetAll(t, fs), m) == AcceptAll(AccountOf(t, m), fs, m)
  {
    if fs != [] {
      var f, before := fs[|fs| - 1], fs[..|fs| - 1];
      ReportsRefine(t, before, m);
      var u := SetAll(t, before);
      SetKeepsSpelled(u, f.authID, f.entry, f.now);
      if FiledUnder(f) == m {
        SetRefines(u, f.authID, f.entry, f.now);
      } else if m in u {
        OtherReport(u, f.authID, f.entry, f.now, m);
      } else {
        OtherReportFree(u, f, m);
      }
    }
  }

  // ---- Runs without a 429 ----

  /** A first-hand report with a non-429 code. */
  predicate Plain(f: Filing) {
    f.entry.status != TOO_MANY && f.entry.status != 0
    && f.entry.source != "recheck429" && f.entry.failCount == 0
  }

  function CountAbout(fs: seq<Filing>, m: string): nat {
    if fs == [] then 0
    else CountAbout(fs[..|fs| - 1], m) + (if FiledUnder(fs[|fs| - 1]) == m then 1 else 0)
  }

  predicate About(fs: seq<Filing>, m: string, i: int) { 0 <= i < |fs| && FiledUnder(fs[i]) == m }

  /** `r` is the latest reset any report about `m` asked for. */
  ghost predicate LatestReset(fs: seq<Filing>, m: string, r: Time) {
    && (forall i :: About(fs, m, i) ==> fs[i].entry.resetAt <= r)
    && (exists i :: About(fs, m, i) && fs[i].entry.resetAt == r)
  }

  /** `code` is the status of the last report about `m`. */
  ghost predicate LastCode(fs: seq<Filing>, m: string, code: int) {
    exists i :: About(fs, m, i) && fs[i].entry.status == code && forall j :: i < j ==> !About(fs, m, j)
  }

  lemma AboutPrefix(fs: seq<Filing>, m: string, k: nat)
    requires k == |fs| - 1
    ensures forall i :: i != k ==> (About(fs[..k], m, i) <==> About(fs, m, i))
    ensures !About(fs[..k], m, k)
  {}

  lemma LatestResetStep(fs: seq<Filing>, m: string, k: nat, r: Time)
    requires k == |fs| - 1 && LatestReset(fs[..k], m, r)
    ensures LatestReset(fs, m, if FiledUnder(fs[k]) == m then Max(r, fs[k].entry.resetAt) else r)
  {
    AboutPrefix(fs, m, k);
    var i :| About(fs[..k], m, i) && fs[..k][i].entry.resetAt == r;
    assert About(fs, m, i) && fs[i].entry.resetAt == r;
    if FiledUnder(fs[k]) == m { assert About(fs, m, k); }
  }

  lemma LastCodeStep(fs: seq<Filing>, m: string, k: nat, code: int)
    requires k == |fs| - 1
    requires if FiledUnder(fs[k]) == m then code == fs[k].entry.status else LastCode(fs[..k], m, code)
    ensures LastCode(fs, m, code)
  {
    AboutPrefix(fs, m, k);
    if FiledUnder(fs[k]) == m {
      assert About(fs, m, k);
    } else {
      var i :| About(fs[..k], m, i) && fs[..k][i].entry.status == code
               && forall j :: i < j ==> !About(fs[..k], m, j);
      assert About(fs, m, i) && fs[i].entry.status == code;
    }
  }

  /** In a run without a 429 the account holds the latest of all its reported
      resets, one count per report, and the code of its last report. */
  lemma {:induction false} QuietAccount(fs: seq<Filing>, m: string)
    requires forall i :: 0 <= i < |fs| ==> Plain(fs[i])
    ensures var a, n := AcceptAll(Free, fs, m), CountAbout(fs, m);
            && (a.Free? <==> n == 0)
            && (n == 0 ==> forall i :: !About(fs, m, i))
            && (n > 0 ==> a.count == n && a.status != TOO_MANY
                          && LatestReset(fs, m, a.resetAt) && LastCode(fs, m, a.status))
  {
    if fs != [] {
      var k := |fs| - 1;
      QuietAccount(fs[..k], m);
      AboutPrefix(fs, m, k);
      hide FiledUnder, LatestReset, LastCode;
      var b, a := AcceptAll(Free, fs[..k], m), AcceptAll(Free, fs, m);
      if b.Isolated? {
        LatestResetStep(fs, m, k, b.resetAt);
        LastCodeStep(fs, m, k, a.status);
      } else if FiledUnder(fs[k]) == m {
        FirstReport(fs, m, k);
      }
    }
  }

  lemma FirstReport(fs: seq<Filing>, m: string, k: nat)
    requires k == |fs| - 1 && FiledUnder(fs[k]) == m
    requires forall i :: !About(fs[..k], m, i)
    ensures LatestReset(fs, m, fs[k].entry.resetAt) && LastCode(fs, m, fs[k].entry.status)
  {
    AboutPrefix(fs, m, k);
    assert About(fs, m, k);
  }

  /** The same of the real ledger: starting without a row for `m`, its row
      stores the latest reported reset and counts every report. */
  lemma QuietLedger(t: Table, fs: seq<Filing>, m: string)
    requires Spelled(t) && IsNormal(m) && m != "" && m !in t
    requires forall i :: 0 <= i < |fs| ==> Foreign(fs[i], m) && Plain(fs[i])
    ensures var u, n := SetAll(t, fs), CountAbout(fs, m);
            && (m in u <==> n > 0)
            && (m in u ==>
                  && u[m].failCount == n
                  && LatestReset(fs, m, u[m].resetAt) && LastCode(fs, m, u[m].status))
  {
    ReportsRefine(t, fs, m);
    QuietAccount(fs, m);
  }
}
