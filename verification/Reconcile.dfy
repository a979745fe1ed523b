/** Reconciling the ledger with a batch of findings about accounts. A scan
    sync and a recheck pass are both batches of such acts. */
module Reconcile {
  import opened Text
  import opened BanTable
  import opened BanRuns
  import opened BanAccounts
  import opened Wrappers

  /** A key in the plugin's normal form: an e-mail address, or a name that stands
      in for one. */
  predicate IsAccount(m: string) { IsNormal(m) && m != "" }

  /** What a finding does to its account: release it, leave it alone, or file a
      report, on top of what is known or afresh. */
  datatype Verdict = Release | Leave | Write(anew: bool, entry: Entry, at: Clock)

  /** A finding: the account's normalised e-mail, the other names under which
      the act looks rows up, the auth id it reports, and what it does. */
  datatype Act = Act(mail: string, names: seq<string>, id: string, verdict: Verdict)

  function Decide(v: Verdict, a: Account): Account {
    match v
    case Release => Free
    case Leave => a
    case Write(anew, e, at) => Accept(if anew then Free else a, e, at)
  }

  /** The last known auth id of account `m`. */
  function RefOf(t: Table, m: string): string {
    if m in t then Trim(t[m].authRef) else ""
  }

  predicate Misses(q: string, m: string, ref: string) {
    q == "" || (q != m && ToLower(q) != m && q != ref)
  }

  /** None of the act's names, nor its auth id, names the account `m`. */
  predicate Apart(a: Act, m: string, ref: string) {
    && (forall i :: 0 <= i < |a.names| ==> Misses(Trim(a.names[i]), m, ref))
    && Misses(Trim(a.id), m, ref)
  }

  predicate SameRow(t: Table, u: Table, m: string) {
    (m in u <==> m in t) && (m in t ==> u[m] == t[m])
  }

  /** The act looks rows up, or files one, under the name `q`. */
  predicate NameOf(a: Act, q: string) {
    q != "" && (q == Trim(a.id) || exists i :: 0 <= i < |a.names| && Trim(a.names[i]) == q)
  }

  /** The row `e` at `k` answers to the name `q`, by key or e-mail in any letter case
      or by its auth id. */
  predicate Matches(q: string, k: string, e: Entry) {
    k == q || ToLower(q) in {k, Norm(k), Mailbox(e)} || Trim(e.authRef) == q
  }

  /** The act may reach the row `e` at `k`: it is filed under the act's e-mail or
      answers to one of its names. */
  ghost predicate Touches(a: Act, k: string, e: Entry) {
    (a.mail != "" && a.mail in {k, Norm(k), Mailbox(e)}) || exists q :: NameOf(a, q) && Matches(q, k, e)
  }

  /** Every row the act does not reach stays as it is, and a new row has the act's
      e-mail or auth id as its key. */
  ghost predicate Framed(t: Table, u: Table, a: Act) {
    && (forall k :: k in t && !Touches(a, k, t[k]) ==> k in u && u[k] == t[k])
    && (forall k :: k in u && k !in t ==> k in {a.mail, Trim(a.id)})
  }

  /** What an act does: its verdict on its own account, nothing to rows it does not reach. */
  ghost predicate Effect(t: Table, u: Table, a: Act) {
    && Framed(t, u, a)
    && (a.mail != "" ==>
          && AccountOf(u, a.mail) == Decide(a.verdict, AccountOf(t, a.mail))
          && (a.verdict.Leave? ==> SameRow(t, u, a.mail))
          && RefOf(u, a.mail) in {"", Trim(a.id), RefOf(t, a.mail)})
  }

  lemma LeaveEffect(t: Table, a: Act)
    requires a.verdict.Leave?
    ensures Effect(t, t, a)
  {}

  /** An act apart from an account does not reach its row. */
  lemma ApartStays(t: Table, u: Table, a: Act, m: string)
    requires Spelled(t) && Framed(t, u, a) && IsAccount(m) && a.mail != m && Apart(a, m, RefOf(t, m))
    ensures SameRow(t, u, m)
  {
    NormFacts(m);
    if m in t {
      assert RowFiled(m, t[m]);
      forall q | NameOf(a, q) ensures !Matches(q, m, t[m]) {
        assert Misses(q, m, RefOf(t, m));
        LowerBlank(q);
      }
      assert !Touches(a, m, t[m]);
    } else {
      assert Misses(Trim(a.id), m, "");
    }
  }

  lemma LowerBlank(q: string)
    ensures ToLower(q) == "" <==> q == ""
  {}

  // ---- Releasing ----

  /** So far only rows the act reaches are gone, in the end those of its own account. */
  ghost predicate Released(t: Table, u: Table, a: Act, own: bool) {
    && u.Keys <= t.Keys && (forall k :: k in u ==> u[k] == t[k])
    && (forall k :: k in t && !Touches(a, k, t[k]) ==> k in u)
    && (own && a.mail != "" ==> a.mail !in u)
  }

  lemma ReleaseByMail(t: Table, u: Table, a: Act, email: string, own: bool)
    requires Released(t, u, a, own) && a.mail == Norm(email)
    ensures a.mail != "" ==> Released(t, u - RowsOfEmail(u, email), a, true)
    ensures a.mail == "" ==> Released(t, u, a, true)
    ensures u - RowsOfEmail(u, email) != u <==> Tally(RowsOfEmail(u, email)) > 0
  {
    hide Norm, NameOf, Matches;
    var gone := RowsOfEmail(u, email);
    assert forall k :: k in gone ==> Touches(a, k, t[k]);
    if gone != {} {
      var k :| k in gone;
      assert k in u && k !in u - gone;
    }
  }

  /** Clearing by a name of the act only reaches rows that answer to it. */
  lemma ReleaseByName(t: Table, u: Table, a: Act, q: string, hit: Option<string>, own: bool)
    requires Released(t, u, a, own) && NameOf(a, q) && Trim(q) == q && MayAnswer(u, q, hit)
    ensures Released(t, ClearTable(u, hit), a, own)
    ensures hit.Some? ==> ClearTable(u, hit) != t
  {
    hide NameOf, ToLower, Trim;
    if hit.Some? {
      assert Matches(q, hit.value, t[hit.value]);
      assert Touches(a, hit.value, t[hit.value]);
      assert hit.value in t && hit.value !in ClearTable(u, hit);
    }
  }

  lemma ReleaseEffect(t: Table, u: Table, a: Act)
    requires Released(t, u, a, true) && a.verdict.Release?
    ensures Effect(t, u, a)
  {
    hide Touches;
  }

  // ---- Writing ----

  /** What a report does, possibly after releases by the same act. */
  lemma WriteEffect(t: Table, u: Table, a: Act)
    requires Spelled(u) && Released(t, u, a, a.verdict.Write? && a.verdict.anew) && a.verdict.Write?
    requires var e := a.verdict.entry;
             Norm(e.email) == a.mail && Trim(a.id) == a.id && (e.authRef == "" || e.authRef == a.id)
    requires a.verdict.anew || u == t
    ensures Effect(t, SetTable(u, a.id, a.verdict.entry, a.verdict.at), a)
  {
    var id, e, at := a.id, a.verdict.entry, a.verdict.at;
    WriteFrame(t, u, a);
    if a.mail != "" {
      SetRefines(u, id, e, at);
      WrittenRef(u, id, e, at, a.mail);
    }
    hide Touches, SetTable, Accept, Norm;
  }

  lemma NamedByID(a: Act)
    ensures Trim(a.id) != "" ==> NameOf(a, Trim(a.id))
  {}

  /** A report drops and stores only rows it reaches. */
  lemma WriteFrame(t: Table, u: Table, a: Act)
    requires a.verdict.Write? && Released(t, u, a, false)
    requires var e := a.verdict.entry; Norm(e.email) == a.mail && Trim(a.id) == a.id
    ensures Framed(t, SetTable(u, a.id, a.verdict.entry, a.verdict.at), a)
  {
    hide Requested, Renewed, FirstRow, NameOf, Norm, ToLower, Trim;
    var id, e, at := a.id, a.verdict.entry, a.verdict.at;
    NamedByID(a);
    RequestShape(id, e, at);
    forall k | k in t && !Touches(a, k, t[k])
      ensures k in SetTable(u, id, e, at) && SetTable(u, id, e, at)[k] == t[k]
    {
      assert id != "" ==> !Matches(id, k, t[k]);
    }
  }

  lemma WrittenRef(u: Table, id: string, e: Entry, at: Clock, m: string)
    requires StorageKey(e.email, id) == m != "" && Trim(id) == id && (e.authRef == "" || e.authRef == id)
    ensures RefOf(SetTable(u, id, e, at), m) in {id, RefOf(u, m)}
  {
    var w := SetTable(u, id, e, at);
    assert Requested(id, e, at).authRef == id;
    if m in u {
      assert w[m].authRef == OrElse(id, u[m].authRef);
    } else {
      assert w[m].authRef == id;
    }
  }

  // ---- Batches ----

  /** What a batch makes of account `m`, its acts in order. */
  function AccountAfter(acts: seq<Act>, start: Account, m: string): Account {
    if acts == [] then start
    else
      var a, before := acts[|acts| - 1], AccountAfter(acts[..|acts| - 1], start, m);
      if a.mail != m then before else Decide(a.verdict, before)
  }

  /** No act about another account names `m` or an auth id `m` is known by. */
  ghost predicate Disjoint(t: Table, acts: seq<Act>, m: string) {
    forall a :: a in acts && a.mail != m ==>
      && Apart(a, m, RefOf(t, m))
      && forall b :: b in acts && b.mail == m ==> Apart(a, m, Trim(b.id))
  }

  ghost predicate RefKnown(t: Table, acts: seq<Act>, m: string, ref: string) {
    ref == "" || ref == RefOf(t, m) || exists b :: b in acts && b.mail == m && Trim(b.id) == ref
  }

  /** Every act about `m` leaves it alone. */
  predicate Quiet(acts: seq<Act>, m: string) {
    forall a :: a in acts && a.mail == m ==> a.verdict.Leave?
  }

  /** Account `m` is what the acts make of it, and its very row stays if they
      leave it alone. */
  ghost predicate Reconciled(t: Table, u: Table, acts: seq<Act>, m: string) {
    && AccountOf(u, m) == AccountAfter(acts, AccountOf(t, m), m)
    && (Quiet(acts, m) ==> SameRow(t, u, m))
    && RefKnown(t, acts, m, RefOf(u, m))
  }

  /** Rows no act reaches stay as they are; every new row has the e-mail or auth id
      of some act as its key. */
  ghost predicate BatchFramed(t: Table, u: Table, acts: seq<Act>) {
    && (forall k :: k in t && (forall a :: a in acts ==> !Touches(a, k, t[k])) ==> k in u && u[k] == t[k])
    && (forall k :: k in u && k !in t ==> exists a :: a in acts && k in {a.mail, Trim(a.id)})
  }

  /** The batch leads from `t` to `u`: every account its other acts do not name is
      what its own acts make of it, and rows no act reaches stay. */
  ghost predicate Batch(t: Table, u: Table, acts: seq<Act>) {
    && BatchFramed(t, u, acts)
    && forall m :: IsAccount(m) && Disjoint(t, acts, m) ==> Reconciled(t, u, acts, m)
  }

  lemma EmptyBatch(t: Table)
    ensures Batch(t, t, [])
  {}

  lemma BatchOfOne(t: Table, u: Table, a: Act)
    requires Spelled(t) && Effect(t, u, a)
    ensures Batch(t, u, [a])
  {
    hide IsAccount, Apart, Decide, Touches, Spelled, Trim;
    assert a in [a];
    forall m | IsAccount(m) && Disjoint(t, [a], m) ensures Reconciled(t, u, [a], m) {
      if a.mail != m { ApartStays(t, u, a, m); }
      assert m != "" by { NotBlank(m); }
      assert [a][..0] == [] && AccountAfter([a], AccountOf(t, m), m)
          == if a.mail != m then AccountOf(t, m) else Decide(a.verdict, AccountOf(t, m));
    }
  }

  lemma NotBlank(m: string)
    requires IsAccount(m)
    ensures m != ""
  {}

  lemma {:induction false} AccountAfterBoth(a: seq<Act>, b: seq<Act>, start: Account, m: string)
    ensures AccountAfter(a + b, start, m) == AccountAfter(b, AccountAfter(a, start, m), m)
  {
    if b == [] {
      assert a + b == a;
    } else {
      var n := |b| - 1;
      assert (a + b)[..|a + b| - 1] == a + b[..n];
      AccountAfterBoth(a, b[..n], start, m);
    }
  }

  /** An act about another account stays apart from every auth id `m` is known by. */
  lemma ApartFromKnown(t: Table, acts: seq<Act>, a: Act, m: string, ref: string)
    requires a in acts && Disjoint(t, acts, m) && a.mail != m && RefKnown(t, acts, m, ref)
    ensures Apart(a, m, ref)
  {
    hide Trim, ToLower;
    if ref == "" {
      assert Apart(a, m, RefOf(t, m));
    } else if ref != RefOf(t, m) {
      var b :| b in acts && b.mail == m && Trim(b.id) == ref;
    }
  }

  lemma DisjointRest(t: Table, u: Table, a: seq<Act>, b: seq<Act>, m: string)
    requires Disjoint(t, a + b, m) && RefKnown(t, a, m, RefOf(u, m))
    ensures Disjoint(t, a, m) && Disjoint(u, b, m)
  {
    hide Apart, RefOf, Trim;
    assert RefKnown(t, a + b, m, RefOf(u, m));
    forall x | x in b && x.mail != m ensures Apart(x, m, RefOf(u, m)) {
      ApartFromKnown(t, a + b, x, m, RefOf(u, m));
    }
  }

  lemma DisjointFirst(t: Table, a: seq<Act>, b: seq<Act>, m: string)
    requires Disjoint(t, a + b, m)
    ensures Disjoint(t, a, m)
  {
    hide Apart, RefOf, Trim;
  }

  lemma ReconciledBoth(t: Table, u: Table, w: Table, a: seq<Act>, b: seq<Act>, m: string)
    requires Reconciled(t, u, a, m) && Reconciled(u, w, b, m)
    ensures Reconciled(t, w, a + b, m)
  {
    AccountAfterBoth(a, b, AccountOf(t, m), m);
    hide AccountAfter, AccountOf, RefOf, Trim;
    assert Quiet(a + b, m) ==> Quiet(a, m) && Quiet(b, m);
    assert forall x :: x in a || x in b ==> x in a + b;
  }

  lemma FramedBoth(t: Table, u: Table, w: Table, a: seq<Act>, b: seq<Act>)
    requires BatchFramed(t, u, a) && BatchFramed(u, w, b)
    ensures BatchFramed(t, w, a + b)
  {
    hide Touches, Trim;
    assert forall x :: x in a || x in b ==> x in a + b;
  }

  /** One batch after another is one batch: what the second finds of an account is
      what the first left of it. */
  lemma BatchesCompose(t: Table, u: Table, w: Table, a: seq<Act>, b: seq<Act>)
    requires Batch(t, u, a) && Batch(u, w, b)
    ensures Batch(t, w, a + b)
  {
    FramedBoth(t, u, w, a, b);
    hide IsAccount, Disjoint, Reconciled, BatchFramed;
    forall m | IsAccount(m) && Disjoint(t, a + b, m) ensures Reconciled(t, w, a + b, m) {
      DisjointFirst(t, a, b, m);
      KnownRef(t, u, a, m);
      DisjointRest(t, u, a, b, m);
      ReconciledBoth(t, u, w, a, b, m);
    }
  }

  /** One more finding extends a batch. */
  lemma BatchGrows(t: Table, u: Table, w: Table, acts: seq<Act>, n: nat)
    requires n < |acts| && Batch(t, u, acts[..n]) && Spelled(u) && Effect(u, w, acts[n])
    ensures Batch(t, w, acts[..n + 1])
  {
    hide *;
    BatchOfOne(u, w, acts[n]);
    BatchesCompose(t, u, w, acts[..n], [acts[n]]);
    assert acts[..n + 1] == acts[..n] + [acts[n]];
  }

  lemma KnownRef(t: Table, u: Table, acts: seq<Act>, m: string)
    requires Reconciled(t, u, acts, m)
    ensures RefKnown(t, acts, m, RefOf(u, m))
  {}

  lemma {:induction false} SilentActs(acts: seq<Act>, start: Account, m: string)
    requires forall a :: a in acts ==> a.mail != m
    ensures AccountAfter(acts, start, m) == start
  {
    if acts != [] { SilentActs(acts[..|acts| - 1], start, m); }
  }

  /** With one act per e-mail that act alone decides what becomes of the account. */
  lemma {:induction false} OneActDecides(acts: seq<Act>, k: nat, start: Account, m: string)
    requires k < |acts| && acts[k].mail == m
    requires forall i :: 0 <= i < |acts| && i != k ==> acts[i].mail != m
    ensures AccountAfter(acts, start, m) == Decide(acts[k].verdict, start)
    ensures Quiet(acts, m) <==> acts[k].verdict.Leave?
  {
    hide Decide;
    var n := |acts| - 1;
    if k == n {
      SilentActs(acts[..n], start, m);
    } else {
      OneActDecides(acts[..n], k, start, m);
    }
    assert acts[k] in acts;
  }

  /** In a batch with one finding about an account nobody else names, that finding
      alone decides what becomes of it. */
  lemma OneFindingSettles(t: Table, u: Table, acts: seq<Act>, k: nat, m: string)
    requires Batch(t, u, acts) && IsAccount(m) && Disjoint(t, acts, m)
    requires k < |acts| && acts[k].mail == m
    requires forall i :: 0 <= i < |acts| && i != k ==> acts[i].mail != m
    ensures AccountOf(u, m) == Decide(acts[k].verdict, AccountOf(t, m))
    ensures acts[k].verdict.Leave? ==> SameRow(t, u, m)
  {
    assert Reconciled(t, u, acts, m);
    OneActDecides(acts, k, AccountOf(t, m), m);
    hide Disjoint, Batch, Decide, AccountAfter, Quiet;
  }

  /** An account no finding of a batch is about, or names, keeps its very row. */
  lemma UnnamedStays(t: Table, u: Table, acts: seq<Act>, m: string)
    requires Batch(t, u, acts) && IsAccount(m) && Disjoint(t, acts, m) && forall a :: a in acts ==> a.mail != m
    ensures SameRow(t, u, m)
  {
    assert Reconciled(t, u, acts, m);
  }
}
