/** What a saved ledger holds, and how loading compacts it to one row per e-mail. */
module BanFile {
  import opened Text
  import opened BanTable

  // ---- Saving ----

  /** The rows a save writes: those not yet expired, 429 or not. */
  function SavedRows(t: Table, now: Clock): Table {
    map k | k in t && t[k].resetAt > now :: t[k]
  }

  // ---- Loading ----

  /** Rows worth loading: in force, or a 429 waiting for its recheck. */
  predicate Eligible(e: Entry, now: Clock) {
    e.resetAt != 0 && (e.resetAt > now || e.status == TOO_MANY)
  }

  /** The account a saved row is compacted under. */
  function Group(id: string, e: Entry): string {
    if Mailbox(e) != "" then Mailbox(e) else if '@' in id then ToLower(id) else Trim(id)
  }

  /** A saved row as it enters the competition for its group. */
  function Entrant(id: string, e: Entry, now: Clock): Entry {
    Normalize(e.(
      email := if Mailbox(e) == "" && '@' in id then ToLower(id) else e.email,
      authRef := if e.authRef == "" && id != Group(id, e) then id else e.authRef), now)
  }

  function Members(f: Table, now: Clock, g: string): set<string> {
    set id | id in f && Eligible(f[id], now) && Group(id, f[id]) == g
  }

  /** A possible winner of group `g`: some member with the latest reset, one with an
      e-mail if there is such a one, its fail count possibly raised to that of
      another member and no smaller than that of any it has tied with by e-mail. */
  ghost predicate Wins(f: Table, now: Clock, g: string, e: Entry) {
    && (exists id :: id in Members(f, now, g) && WinsAs(f, now, id, e))
    && (forall j :: j in Members(f, now, g) ==> Entrant(j, f[j], now).resetAt <= e.resetAt)
    && (exists j :: j in Members(f, now, g) && Entrant(j, f[j], now).failCount == e.failCount)
    && PrefersMail(f, now, g, e) && CountsTies(f, now, g, e)
  }

  /** A winner without an e-mail has tied with none that has one. */
  ghost predicate PrefersMail(f: Table, now: Clock, g: string, e: Entry) {
    Mailbox(e) == "" ==>
      forall j :: j in Members(f, now, g) && Entrant(j, f[j], now).resetAt == e.resetAt ==> MailLess(j, f[j])
  }

  /** Every member with an e-mail that ends with the winner has counted no more. */
  ghost predicate CountsTies(f: Table, now: Clock, g: string, e: Entry) {
    forall j :: j in Members(f, now, g) && Entrant(j, f[j], now).resetAt == e.resetAt && !MailLess(j, f[j]) ==>
      Entrant(j, f[j], now).failCount <= e.failCount
  }

  /** A saved row that names no e-mail, not even by its id. */
  predicate MailLess(id: string, e: Entry) { Norm(e.email) == "" && '@' !in id }

  predicate WinsAs(f: Table, now: Clock, id: string, e: Entry)
    requires id in f
  {
    var c := Entrant(id, f[id], now);
    e == c.(failCount := e.failCount) && c.failCount <= e.failCount
  }

  /** `t` is what loading `f` at `now` may leave, for some iteration order. */
  ghost predicate Compacted(f: Table, now: Clock, t: Table) {
    && (forall g :: g in t <==> g != "" && Members(f, now, g) != {})
    && (forall g :: g in t ==> Wins(f, now, g, t[g]))
  }

  /** One saved row meets the best rows so far. */
  function Contest(best: Table, id: string, e: Entry, now: Clock): Table {
    var g, c := Group(id, e), Entrant(id, e, now);
    if !Eligible(e, now) || g == "" then best
    else if g !in best then best[g := c]
    else if c.resetAt < best[g].resetAt then best
    else if c.resetAt == best[g].resetAt && Mailbox(e) == "" && '@' !in id then best
    else best[g := if c.failCount < best[g].failCount then c.(failCount := best[g].failCount) else c]
  }

  lemma MembersStep(f: Table, now: Clock, id: string, e: Entry, g: string)
    requires id !in f
    ensures Members(f[id := e], now, g)
         == Members(f, now, g) + (if Eligible(e, now) && Group(id, e) == g then {id} else {})
  {}

  lemma WinsStep(f: Table, now: Clock, id: string, e: Entry, g: string, prev: Entry)
    requires id !in f && Wins(f, now, g, prev)
    requires Members(f[id := e], now, g) == Members(f, now, g)
    ensures Wins(f[id := e], now, g, prev)
  {
    hide Entrant, Group, Eligible, MailLess;
    var u := f[id := e];
    var i :| i in Members(f, now, g) && WinsAs(f, now, i, prev);
    assert i in Members(u, now, g) && WinsAs(u, now, i, prev);
    var j :| j in Members(f, now, g) && Entrant(j, f[j], now).failCount == prev.failCount;
    assert j in Members(u, now, g) && Entrant(j, u[j], now).failCount == prev.failCount;
    assert forall j :: j in Members(u, now, g) ==> u[j] == f[j];
  }

  lemma EntrantMailLess(id: string, e: Entry, now: Clock)
    ensures Mailbox(Entrant(id, e, now)) == "" <==> MailLess(id, e)
  {
    NormFacts(id);
    EntrantMailbox(id, e, now);
    hide Entrant, Trim, ToLower;
  }

  lemma ContestPrefersMail(f: Table, now: Clock, id: string, e: Entry, best: Table)
    requires id !in f && Compacted(f, now, best) && Eligible(e, now) && Group(id, e) != ""
    ensures var g := Group(id, e); PrefersMail(f[id := e], now, g, Contest(best, id, e, now)[g])
  {
    hide Entrant, Group, Norm, Eligible, WinsAs;
    var u, g := f[id := e], Group(id, e);
    MembersStep(f, now, id, e, g);
    EntrantMailLess(id, e, now);
    assert forall j :: j in Members(f, now, g) ==> u[j] == f[j];
  }

  lemma ContestCountsTies(f: Table, now: Clock, id: string, e: Entry, best: Table)
    requires id !in f && Compacted(f, now, best) && Eligible(e, now) && Group(id, e) != ""
    ensures var g := Group(id, e); CountsTies(f[id := e], now, g, Contest(best, id, e, now)[g])
  {
    hide Entrant, Group, Norm, Eligible, WinsAs, PrefersMail;
    var u, g := f[id := e], Group(id, e);
    MembersStep(f, now, id, e, g);
    assert forall j :: j in Members(f, now, g) ==> u[j] == f[j];
  }

  /** A contest between the stored winner and a new member has the right winner. */
  lemma ContestWins(f: Table, now: Clock, id: string, e: Entry, best: Table)
    requires id !in f && Compacted(f, now, best)
    requires Eligible(e, now) && Group(id, e) != ""
    ensures var g, next := Group(id, e), Contest(best, id, e, now);
            g in next && Wins(f[id := e], now, g, next[g])
  {
    hide Entrant, Group, Norm, Eligible, PrefersMail, CountsTies;
    var u, g, c := f[id := e], Group(id, e), Entrant(id, e, now);
    var w := Contest(best, id, e, now)[g];
    MembersStep(f, now, id, e, g);
    ContestPrefersMail(f, now, id, e, best);
    ContestCountsTies(f, now, id, e, best);
    assert forall j :: j in Members(f, now, g) ==> u[j] == f[j];
    assert id in Members(u, now, g) && u[id] == e;
    if g in best {
      var prev := best[g];
      var i :| i in Members(f, now, g) && WinsAs(f, now, i, prev);
      var k :| k in Members(f, now, g) && Entrant(k, f[k], now).failCount == prev.failCount;
      assert i in Members(u, now, g) && (w == prev ==> WinsAs(u, now, i, w));
      assert k in Members(u, now, g) && Entrant(k, u[k], now).failCount == prev.failCount;
      assert w != prev ==> WinsAs(u, now, id, w);
    } else {
      assert WinsAs(u, now, id, w);
    }
  }

  lemma ContestTouches(best: Table, id: string, e: Entry, now: Clock)
    ensures var g, next := Group(id, e), Contest(best, id, e, now);
            && next.Keys == best.Keys + (if Eligible(e, now) && g != "" then {g} else {})
            && (forall h :: h in best && (h != g || !Eligible(e, now)) ==> next[h] == best[h])
  {}

  lemma ContestGroup(f: Table, now: Clock, id: string, e: Entry, best: Table, g: string)
    requires id !in f && Compacted(f, now, best) && g != ""
    ensures var u, next := f[id := e], Contest(best, id, e, now);
            && (g in next <==> Members(u, now, g) != {})
            && (g in next ==> Wins(u, now, g, next[g]))
  {
    hide Contest, Wins, Entrant, Norm;
    ContestTouches(best, id, e, now);
    MembersStep(f, now, id, e, g);
    if Eligible(e, now) && Group(id, e) == g {
      ContestWins(f, now, id, e, best);
    } else if g in best {
      WinsStep(f, now, id, e, g, best[g]);
    }
  }

  lemma ContestCompacts(f: Table, now: Clock, id: string, e: Entry, best: Table)
    requires id !in f && Compacted(f, now, best)
    ensures Compacted(f[id := e], now, Contest(best, id, e, now))
  {
    hide Contest, Wins, Entrant, Norm, Members;
    ContestTouches(best, id, e, now);
    forall g | g != ""
      ensures g in Contest(best, id, e, now) <==> Members(f[id := e], now, g) != {}
      ensures g in Contest(best, id, e, now) ==> Wins(f[id := e], now, g, Contest(best, id, e, now)[g])
    {
      ContestGroup(f, now, id, e, best, g);
    }
  }

  /** Every iteration order gives the same accounts with the same windows. */
  lemma CompactionIsOrderIndependent(f: Table, now: Clock, a: Table, b: Table)
    requires Compacted(f, now, a) && Compacted(f, now, b)
    ensures a.Keys == b.Keys
    ensures forall g :: g in a ==> a[g].resetAt == b[g].resetAt
  {
    hide Entrant, Group, Eligible;
    forall g | g in a ensures g in b && a[g].resetAt == b[g].resetAt {
      var i :| i in Members(f, now, g) && WinsAs(f, now, i, a[g]);
      var j :| j in Members(f, now, g) && WinsAs(f, now, j, b[g]);
    }
    assert forall g :: g in b ==> g in a;
  }

  /** Ids that stand in for a missing e-mail carry no stray white space. */
  ghost predicate IdsTrimmed(f: Table, now: Clock) {
    forall id :: id in f && Eligible(f[id], now) && Mailbox(f[id]) == "" && '@' in id ==> IsTrimmed(id)
  }

  lemma EntrantMailbox(id: string, e: Entry, now: Clock)
    ensures var g := Group(id, e);
            Mailbox(Entrant(id, e, now)) == (if Mailbox(e) == "" && '@' in id then Norm(id) else Mailbox(e))
    ensures Mailbox(e) == "" && '@' in id ==> (IsTrimmed(Group(id, e)) <==> IsTrimmed(id)) && Group(id, e) != ""
    ensures Mailbox(e) != "" || '@' !in id ==> IsTrimmed(Group(id, e))
    ensures Mailbox(e) == "" && '@' !in id ==> '@' !in Group(id, e)
    ensures Mailbox(e) == "" && '@' in id && IsTrimmed(id) ==> Norm(id) == Group(id, e)
  {
    NormFacts(id);
    NormFacts(e.email);
    TrimChars(id, '@');
    LowerAt(id);
  }

  /** A loaded ledger has one row per e-mail, under that e-mail, exactly when
      every id that stands in for an e-mail was saved trimmed. */
  lemma LoadKeepsTable(f: Table, now: Clock, t: Table)
    requires Compacted(f, now, t)
    ensures TableOK(t) <==> IdsTrimmed(f, now)
  {
    if IdsTrimmed(f, now) {
      forall g | g in t ensures RowOK(g, t[g]) {
        var i :| i in Members(f, now, g) && WinsAs(f, now, i, t[g]);
        EntrantMailbox(i, f[i], now);
      }
    } else {
      var id :| id in f && Eligible(f[id], now) && Mailbox(f[id]) == "" && '@' in id && !IsTrimmed(id);
      EntrantMailbox(id, f[id], now);
      assert id in Members(f, now, Group(id, f[id]));
      assert !RowOK(Group(id, f[id]), t[Group(id, f[id])]);
    }
  }

  lemma EntrantSpelled(id: string, e: Entry, now: Clock)
    ensures Group(id, e) != "" ==> RowFiled(Group(id, e), Entrant(id, e, now))
  {
    EntrantMailbox(id, e, now);
    NormFacts(id);
    NormFacts(e.email);
    if Mailbox(e) == "" && '@' in id { NormFacts(ToLower(id)); }
    hide ToLower, Trim, Normalize;
  }

  /** Whatever the file holds, every loaded row's key spells its e-mail. */
  lemma WinnersSpelled(f: Table, now: Clock, t: Table)
    requires Compacted(f, now, t)
    ensures Spelled(t)
  {
    forall g | g in t ensures RowFiled(g, t[g]) {
      var i :| i in Members(f, now, g) && WinsAs(f, now, i, t[g]);
      EntrantSpelled(i, f[i], now);
      assert Mailbox(t[g]) == Mailbox(Entrant(i, f[i], now));
    }
  }

  /** The e-mail a saved row stands for once loaded; "" if it has none. */
  function AccountOf(id: string, e: Entry): string {
    if Mailbox(e) == "" && '@' in id then Norm(id) else Mailbox(e)
  }

  predicate SameAccount(f: Table, now: Clock, i: string, j: string)
    requires i in f && j in f
  {
    Eligible(f[i], now) && Eligible(f[j], now) && AccountOf(i, f[i]) == AccountOf(j, f[j]) != ""
  }

  /** No account is compacted under two spellings. */
  ghost predicate OneGroupEach(f: Table, now: Clock) {
    forall i, j :: i in f && j in f && SameAccount(f, now, i, j) ==> Group(i, f[i]) == Group(j, f[j])
  }

  /** The rows of an address's group all stand for that address. */
  lemma GroupAccount(id: string, e: Entry, g: string)
    requires Group(id, e) == g && '@' in g
    ensures AccountOf(id, e) == Norm(g) != ""
  {
    NormFacts(id);
    NormFacts(e.email);
    TrimChars(id, '@');
    LowerAt(id);
    NormFacts(g);
    TrimChars(g, '@');
  }

  lemma LoadedAccount(f: Table, now: Clock, t: Table, i: string)
    requires Compacted(f, now, t) && i in f && Eligible(f[i], now) && AccountOf(i, f[i]) != ""
    ensures Group(i, f[i]) in t
    ensures '@' in Group(i, f[i]) ==> Mailbox(t[Group(i, f[i])]) == AccountOf(i, f[i])
  {
    var g := Group(i, f[i]);
    assert g != "" by { EntrantMailbox(i, f[i], now); }
    assert i in Members(f, now, g);
    if '@' in g {
      var k :| k in Members(f, now, g) && WinsAs(f, now, k, t[g]);
      EntrantMailbox(k, f[k], now);
      GroupAccount(i, f[i], g);
      GroupAccount(k, f[k], g);
    }
  }

  /** A loaded ledger has one row per e-mail exactly when its file spells no
      account in two ways. */
  lemma LoadKeepsFiled(f: Table, now: Clock, t: Table)
    requires Compacted(f, now, t)
    ensures Filed(t) <==> OneGroupEach(f, now)
  {
    WinnersSpelled(f, now, t);
    if OneGroupEach(f, now) {
      forall a, b | a in t && b in t && Mailbox(t[a]) != "" && Mailbox(t[a]) == Mailbox(t[b]) ensures a == b {
        var i :| i in Members(f, now, a) && WinsAs(f, now, i, t[a]);
        var j :| j in Members(f, now, b) && WinsAs(f, now, j, t[b]);
        EntrantMailbox(i, f[i], now);
        EntrantMailbox(j, f[j], now);
        assert SameAccount(f, now, i, j);
      }
    } else {
      var i, j :| i in f && j in f && SameAccount(f, now, i, j) && Group(i, f[i]) != Group(j, f[j]);
      LoadedAccount(f, now, t, i);
      LoadedAccount(f, now, t, j);
      GroupsHaveAt(i, f[i], j, f[j]);
    }
  }

  lemma GroupsHaveAt(i: string, a: Entry, j: string, b: Entry)
    requires AccountOf(i, a) == AccountOf(j, b) != "" && Group(i, a) != Group(j, b)
    ensures '@' in Group(i, a) && '@' in Group(j, b)
  {
    LowerChars(i, '@');
    LowerChars(j, '@');
    TrimChars(i, '@');
    TrimChars(j, '@');
    LowerTrim(i);
    LowerTrim(j);
    NormFacts(i);
    NormFacts(j);
    hide ToLower, Trim;
  }

  lemma WinnersSettled(f: Table, now: Clock, t: Table)
    requires Compacted(f, now, t)
    ensures Settled(t, now)
  {
    forall g | g in t ensures Normalize(t[g], now) == t[g] {
      var i :| i in Members(f, now, g) && WinsAs(f, now, i, t[g]);
    }
  }

  // ---- Round trip ----

  /** Every row is already in the normal form of time `now`. */
  ghost predicate Settled(t: Table, now: Clock) {
    forall k :: k in t ==> Normalize(t[k], now) == t[k]
  }

  function Survivors(t: Table, savedAt: Clock, loadedAt: Clock): Table {
    map k | k in t && t[k].resetAt > savedAt && (t[k].resetAt > loadedAt || t[k].status == TOO_MANY) :: t[k]
  }

  lemma EntrantUnchanged(k: string, e: Entry, saved: Clock, now: Clock)
    requires RowOK(k, e) && Normalize(e, saved) == e && saved <= now
    ensures Group(k, e) == k && Entrant(k, e, now) == e
  {
    NormalizeIdempotent(e, saved, now);
    NormFacts(e.email);
  }

  lemma FiledIdsTrimmed(t: Table, savedAt: Clock, now: Clock)
    requires Spelled(t)
    ensures IdsTrimmed(SavedRows(t, savedAt), now)
  {
    hide Norm;
    assert forall k :: k in t ==> RowFiled(k, t[k]);
  }

  /** Loading a saved ledger gives back exactly the surviving rows, every field
      unchanged and whatever the iteration order, if and only if each of them is
      kept under its normalised e-mail. What is loaded always is. */
  lemma SaveLoadRoundTrip(t: Table, savedAt: Clock, loadedAt: Clock, loaded: Table)
    requires Spelled(t) && Settled(t, savedAt) && savedAt <= loadedAt
    requires Compacted(SavedRows(t, savedAt), loadedAt, loaded)
    ensures TableOK(loaded)
    ensures loaded == Survivors(t, savedAt, loadedAt) <==> TableOK(Survivors(t, savedAt, loadedAt))
  {
    FiledIdsTrimmed(t, savedAt, loadedAt);
    LoadKeepsTable(SavedRows(t, savedAt), loadedAt, loaded);
    if TableOK(Survivors(t, savedAt, loadedAt)) { KeyedRoundTrip(t, savedAt, loadedAt, loaded); }
  }

  /** Each surviving row is its group's only member, as it was saved. */
  lemma OneMember(t: Table, savedAt: Clock, loadedAt: Clock, g: string)
    requires Settled(t, savedAt) && savedAt <= loadedAt && TableOK(Survivors(t, savedAt, loadedAt))
    ensures var f, back := SavedRows(t, savedAt), Survivors(t, savedAt, loadedAt);
            && Members(f, loadedAt, g) == (if g in back then {g} else {})
            && (g in back ==> Entrant(g, f[g], loadedAt) == f[g] == back[g] && g != "")
  {
    var f, back := SavedRows(t, savedAt), Survivors(t, savedAt, loadedAt);
    assert forall k :: k in f ==> (k in back <==> Eligible(f[k], loadedAt));
    forall k | k in back ensures Group(k, f[k]) == k && Entrant(k, f[k], loadedAt) == f[k] {
      EntrantUnchanged(k, f[k], savedAt, loadedAt);
    }
    assert g in back ==> RowOK(g, back[g]);
    hide Group, Entrant, Norm, Eligible, Normalize;
  }

  lemma KeyedRoundTrip(t: Table, savedAt: Clock, loadedAt: Clock, loaded: Table)
    requires Settled(t, savedAt) && savedAt <= loadedAt && TableOK(Survivors(t, savedAt, loadedAt))
    requires Compacted(SavedRows(t, savedAt), loadedAt, loaded)
    ensures loaded == Survivors(t, savedAt, loadedAt)
  {
    var f, back := SavedRows(t, savedAt), Survivors(t, savedAt, loadedAt);
    hide Group, Entrant, Norm, Members, SavedRows, Survivors, RowOK, Settled;
    forall g ensures g in loaded <==> g in back ensures g in loaded ==> loaded[g] == back[g] {
      OneMember(t, savedAt, loadedAt, g);
    }
  }

  /** A 429 waits for its recheck however long ago its window ended, but comes back
      from disk exactly when it had not ended at the save. */
  lemma LimitComesBackIff(t: Table, savedAt: Clock, loadedAt: Clock, loaded: Table, k: string)
    requires Settled(t, savedAt) && savedAt <= loadedAt && TableOK(Survivors(t, savedAt, loadedAt))
    requires Compacted(SavedRows(t, savedAt), loadedAt, loaded)
    requires k in t && t[k].status == TOO_MANY
    ensures InForce(t[k], savedAt)
    ensures k in loaded && loaded[k] == t[k] <==> t[k].resetAt > savedAt
  {
    KeyedRoundTrip(t, savedAt, loadedAt, loaded);
    hide Compacted, Settled, TableOK;
  }

  /** Such a row, in force and worth loading, that no save writes. */
  lemma LimitLostBySaving(savedAt: Clock, loadedAt: Clock)
    requires 1000 < savedAt <= loadedAt
    ensures var e := Entry(TOO_MANY, "rate_limited_2h", "usage", "a@x", "", "", 1, 100, 1);
            && InForce(e, savedAt) && Eligible(e, loadedAt)
            && forall loaded :: Compacted(SavedRows(map["a@x" := e], savedAt), loadedAt, loaded) ==> loaded == map[]
  {
    var e := Entry(TOO_MANY, "rate_limited_2h", "usage", "a@x", "", "", 1, 100, 1);
    assert SavedRows(map["a@x" := e], savedAt) == map[];
    forall loaded | Compacted(map[], loadedAt, loaded) ensures loaded == map[] {
      assert forall g :: g in loaded ==> Members(map[], loadedAt, g) == {};
    }
  }
}
