/** The durable vault of cookies, keyed by e-mail and, failing that, by cookie. */
module Vault {
  import opened Text
  import opened Sorting
  import opened SsoList

  datatype VaultEntry = VaultEntry(
    email: string, sso: string, updatedAt: string, lastOk: bool, lastError: string, lastHttp: int)

  /** The entries with the two position indexes an update builds over them. */
  datatype Indexed = Indexed(entries: seq<VaultEntry>, byMail: map<string, nat>, bySso: map<string, nat>)

  // ---- Indexes ----

  /** `k` is the lower-cased e-mail of the entry at `i`. */
  predicate MailAt(entries: seq<VaultEntry>, i: int, k: string) {
    0 <= i < |entries| && entries[i].email != "" && ToLower(entries[i].email) == k
  }

  ghost predicate Findable(entries: seq<VaultEntry>, k: string) { exists i :: MailAt(entries, i, k) }

  /** No two entries carry the same e-mail, whatever its letter case. */
  ghost predicate UniqueMails(entries: seq<VaultEntry>) {
    forall i, j, k :: MailAt(entries, i, k) && MailAt(entries, j, k) ==> i == j
  }

  predicate InRange(x: Indexed) {
    && (forall k :: k in x.byMail ==> x.byMail[k] < |x.entries|)
    && (forall s :: s in x.bySso ==> x.bySso[s] < |x.entries|)
  }

  /** Positions are in range, and an entry's own e-mail leads back to it. */
  ghost predicate Sound(x: Indexed) {
    && InRange(x)
    && (forall i, k :: MailAt(x.entries, i, k) ==> k in x.byMail && x.byMail[k] == i)
  }

  lemma SoundIsUnique(x: Indexed)
    requires Sound(x)
    ensures UniqueMails(x.entries)
  {}

  function IndexEntry(x: Indexed, i: nat): Indexed
    requires i < |x.entries|
  {
    var e := x.entries[i];
    x.(byMail := if e.email != "" then x.byMail[ToLower(e.email) := i] else x.byMail,
       bySso := if e.sso != "" then x.bySso[e.sso := i] else x.bySso)
  }

  function IndexUpTo(entries: seq<VaultEntry>, n: nat): (x: Indexed)
    requires n <= |entries|
    ensures x.entries == entries && InRange(x)
  {
    if n == 0 then Indexed(entries, map[], map[]) else IndexEntry(IndexUpTo(entries, n - 1), n - 1)
  }

  /** The indexes of the first `n` entries. */
  ghost predicate Exact(x: Indexed, n: nat) {
    && (forall i, k :: i < n && MailAt(x.entries, i, k) ==> k in x.byMail)
    && (forall k :: k in x.byMail ==> x.byMail[k] < n && MailAt(x.entries, x.byMail[k], k))
    && (forall s :: s in x.bySso ==> x.bySso[s] < n)
  }

  lemma {:induction false} IndexIsExact(entries: seq<VaultEntry>, n: nat)
    requires n <= |entries|
    ensures Exact(IndexUpTo(entries, n), n)
  {
    hide ToLower, InRange;
    if n > 0 { IndexIsExact(entries, n - 1); }
  }

  lemma ExactIsSound(x: Indexed)
    requires Exact(x, |x.entries|) && UniqueMails(x.entries)
    ensures Sound(x) && AllFindable(x)
    ensures forall k :: k in x.byMail <==> Findable(x.entries, k)
  {
    forall k | k in x.byMail ensures Findable(x.entries, k) { assert MailAt(x.entries, x.byMail[k], k); }
  }

  // ---- Merging one cookie ----

  /** The entry an item goes to, or -1. */
  function Target(x: Indexed, it: Item): int {
    var sso, email := Trim(it.sso), Trim(it.email);
    if email != "" && ToLower(email) in x.byMail then x.byMail[ToLower(email)]
    else if sso in x.bySso then x.bySso[sso]
    else -1
  }

  function Merge(x: Indexed, it: Item, now: string): (y: Indexed)
    requires InRange(x)
    ensures InRange(y)
  {
    var sso, email, idx := Trim(it.sso), Trim(it.email), Target(x, it);
    if sso == "" then x
    else if idx >= 0 then
      var e := x.entries[idx].(sso := sso, updatedAt := now);
      var e' := if email != "" then e.(email := email) else e;
      Indexed(x.entries[idx := e'],
              if e'.email != "" then x.byMail[ToLower(e'.email) := idx] else x.byMail,
              x.bySso[sso := idx])
    else
      var n := |x.entries|;
      Indexed(x.entries + [VaultEntry(email, sso, now, false, "", 0)],
              if email != "" then x.byMail[ToLower(email) := n] else x.byMail,
              x.bySso[sso := n])
  }

  /** The item takes over an entry that carries another e-mail. */
  predicate TakesOver(x: Indexed, it: Item) {
    var email, idx := Trim(it.email), Target(x, it);
    && Trim(it.sso) != "" && email != "" && 0 <= idx < |x.entries|
    && x.entries[idx].email != "" && ToLower(x.entries[idx].email) != ToLower(email)
  }

  /** The lower-cased e-mail a non-blank item brings. */
  predicate Brings(it: Item, k: string) {
    Trim(it.sso) != "" && Trim(it.email) != "" && ToLower(Trim(it.email)) == k
  }

  /** A merge keeps the indexes sound and every indexed position, adds at most
      one entry, and indexes exactly the e-mail it brings. */
  lemma MergeKeeps(x: Indexed, it: Item, now: string)
    requires Sound(x)
    ensures var y := Merge(x, it, now);
            && Sound(y) && |x.entries| <= |y.entries| <= |x.entries| + 1
            && (forall k :: k in y.byMail <==> k in x.byMail || Brings(it, k))
            && (forall k :: k in x.byMail ==> y.byMail[k] == x.byMail[k])
  {
    var y, email, idx := Merge(x, it, now), Trim(it.email), Target(x, it);
    hide Trim, ToLower;
    if Trim(it.sso) != "" {
      var at := if idx >= 0 then idx else |x.entries|;
      if idx >= 0 && email == "" && x.entries[idx].email != "" {
        assert MailAt(x.entries, idx, ToLower(x.entries[idx].email));
      }
      forall i, k | MailAt(y.entries, i, k) ensures k in y.byMail && y.byMail[k] == i {
        if i != at { assert MailAt(x.entries, i, k); }
      }
    }
  }

  /** What a merge writes. An item without a cookie writes nothing. Any other writes
      one entry: the one its e-mail is indexed at, else the one its cookie is, else
      a new one. The entry gets the cookie, the time and, if the item has one, the
      e-mail, and is indexed under them; it keeps the rest. */
  lemma MergeWrites(x: Indexed, it: Item, now: string)
    requires InRange(x)
    ensures Trim(it.sso) == "" ==> Merge(x, it, now) == x
    ensures Trim(it.sso) != "" ==>
              var y, c, m := Merge(x, it, now), Trim(it.sso), Trim(it.email);
              var at := if m != "" && ToLower(m) in x.byMail then x.byMail[ToLower(m)]
                        else if c in x.bySso then x.bySso[c] else |x.entries|;
              var was := if at < |x.entries| then x.entries[at] else VaultEntry("", "", "", false, "", 0);
              && |y.entries| == (if at < |x.entries| then |x.entries| else |x.entries| + 1)
              && y.entries[at] == was.(sso := c, updatedAt := now, email := if m != "" then m else was.email)
              && (forall i :: 0 <= i < |x.entries| && i != at ==> y.entries[i] == x.entries[i])
              && y.bySso == x.bySso[c := at]
              && var mail := y.entries[at].email;
              y.byMail == (if mail != "" then x.byMail[ToLower(mail) := at] else x.byMail)
  {
    hide Trim, ToLower;
  }

  /** A cookie without an e-mail renews the last entry that has it, or gets an entry
      of its own. */
  lemma LoneCookie(entries: seq<VaultEntry>, it: Item, now: string)
    requires Trim(it.sso) != "" && Trim(it.email) == ""
    ensures var c, after := Trim(it.sso), Merge(IndexUpTo(entries, |entries|), it, now).entries;
            && (forall i ::
                  (0 <= i < |entries| && entries[i].sso == c && forall j :: i < j < |entries| ==> entries[j].sso != c)
                  ==> after == entries[i := entries[i].(updatedAt := now)])
            && ((forall i :: 0 <= i < |entries| ==> entries[i].sso != c) ==>
                  after == entries + [VaultEntry("", c, now, false, "", 0)])
  {
    BuiltHolders(entries, |entries|);
    hide Trim, ToLower, IndexUpTo;
  }

  /** After a merge an e-mail has an entry exactly when the item brings it, or it
      had one that the item does not take over. */
  lemma MergeFinds(x: Indexed, it: Item, now: string, k: string)
    requires Sound(x)
    ensures Findable(Merge(x, it, now).entries, k) <==>
              Brings(it, k) || (Findable(x.entries, k) && !(TakesOver(x, it) && MailAt(x.entries, Target(x, it), k)))
  {
    var y, idx := Merge(x, it, now), Target(x, it);
    MergeKeeps(x, it, now);
    hide Trim, ToLower;
    if Trim(it.sso) != "" {
      var at := if idx >= 0 then idx else |x.entries|;
      if Brings(it, k) { assert MailAt(y.entries, at, k); }
      if i :| MailAt(x.entries, i, k) { assert i != at || Trim(it.email) == "" ==> MailAt(y.entries, i, k); }
      if i :| MailAt(y.entries, i, k) { assert i != at || Trim(it.email) == "" ==> MailAt(x.entries, i, k); }
    }
  }

  /** The merged cookie is stored under its e-mail, in one entry that keeps its
      import history; every other entry stays. */
  lemma MergeStores(x: Indexed, it: Item, now: string, k: string)
    requires InRange(x) && Brings(it, k)
    ensures var y := Merge(x, it, now);
            && k in y.byMail
            && var at := y.byMail[k];
            && y.entries[at].email == Trim(it.email) && y.entries[at].sso == Trim(it.sso)
            && (forall i :: 0 <= i < |x.entries| && i != at ==> y.entries[i] == x.entries[i])
            && (at < |x.entries| ==>
                  && |y.entries| == |x.entries| && y.entries[at].lastOk == x.entries[at].lastOk
                  && y.entries[at].lastError == x.entries[at].lastError
                  && y.entries[at].lastHttp == x.entries[at].lastHttp)
            && (k in x.byMail ==> at == x.byMail[k])
  {
    hide Trim, ToLower;
  }

  // ---- Merging a list ----

  function MergeAll(x: Indexed, items: seq<Item>, now: string): (y: Indexed)
    requires InRange(x)
    ensures InRange(y) && (Sound(x) ==> Sound(y))
  {
    if items == [] then x
    else
      var y, it := MergeAll(x, items[..|items| - 1], now), items[|items| - 1];
      assert Sound(x) ==> Sound(Merge(y, it, now)) by { if Sound(x) { MergeKeeps(y, it, now); } }
      Merge(y, it, now)
  }

  ghost predicate NoneTakenOver(x: Indexed, items: seq<Item>, now: string)
    requires InRange(x)
  {
    items == [] ||
    (var init := items[..|items| - 1];
     NoneTakenOver(x, init, now) && !TakesOver(MergeAll(x, init, now), items[|items| - 1]))
  }

  ghost predicate BringsAny(items: seq<Item>, k: string) { exists i :: 0 <= i < |items| && Brings(items[i], k) }

  /** `k` is an e-mail of the indexed vault or of one of the items. */
  ghost predicate Known(x: Indexed, items: seq<Item>, k: string) {
    k in x.byMail || BringsAny(items, k)
  }

  /** The vault never shrinks, no indexed position ever changes, and the index
      knows exactly the e-mails of the vault and of the items. */
  lemma {:induction false} RunKeeps(x: Indexed, items: seq<Item>, now: string)
    requires Sound(x)
    ensures var y := MergeAll(x, items, now);
            && UniqueMails(y.entries) && |x.entries| <= |y.entries| <= |x.entries| + |items|
            && (forall k :: k in y.byMail <==> Known(x, items, k))
            && (forall k :: k in x.byMail ==> y.byMail[k] == x.byMail[k])
  {
    SoundIsUnique(MergeAll(x, items, now));
    hide Merge, Sound, UniqueMails, Brings;
    if items != [] {
      var n := |items| - 1;
      RunKeeps(x, items[..n], now);
      MergeKeeps(MergeAll(x, items[..n], now), items[n], now);
      forall k ensures Known(x, items, k) <==> Known(x, items[..n], k) || Brings(items[n], k) {
        KnownSplits(x, items, k);
      }
    }
  }

  lemma KnownSplits(x: Indexed, items: seq<Item>, k: string)
    requires items != []
    ensures Known(x, items, k) <==> Known(x, items[..|items| - 1], k) || Brings(items[|items| - 1], k)
  {
    var init := items[..|items| - 1];
    hide Brings;
    if i :| 0 <= i < |init| && Brings(items[i], k) { assert Brings(init[i], k); }
    if i :| 0 <= i < |init| && Brings(init[i], k) { assert Brings(items[i], k); }
  }

  /** Two e-mails indexed at one position: only one of them can be found, now and
      after any further merge. */
  lemma SharedPosition(x: Indexed, k: string, l: string)
    requires Sound(x) && k in x.byMail && l in x.byMail && k != l && x.byMail[k] == x.byMail[l]
    ensures !(Findable(x.entries, k) && Findable(x.entries, l))
  {}

  ghost predicate AllFindable(x: Indexed) { forall k :: k in x.byMail ==> Findable(x.entries, k) }

  /** Once an entry has been taken over, two known e-mails share a position. */
  lemma {:induction false} TakeOverShares(x: Indexed, items: seq<Item>, now: string) returns (k: string, l: string)
    requires Sound(x) && !NoneTakenOver(x, items, now)
    ensures var y := MergeAll(x, items, now);
            k in y.byMail && l in y.byMail && k != l && y.byMail[k] == y.byMail[l]
  {
    var n := |items| - 1;
    var init, it := items[..n], items[n];
    var y := MergeAll(x, init, now);
    MergeKeeps(y, it, now);
    if NoneTakenOver(x, init, now) {
      hide ToLower, Trim;
      k, l := ToLower(y.entries[Target(y, it)].email), ToLower(Trim(it.email));
      assert MailAt(y.entries, Target(y, it), k);
    } else {
      k, l := TakeOverShares(x, init, now);
    }
  }

  lemma {:induction false} NoTakeOverFinds(x: Indexed, items: seq<Item>, now: string)
    requires Sound(x) && AllFindable(x) && NoneTakenOver(x, items, now)
    ensures AllFindable(MergeAll(x, items, now))
  {
    if items != [] {
      var n := |items| - 1;
      NoTakeOverFinds(x, items[..n], now);
      var y := MergeAll(x, items[..n], now);
      MergeKeeps(y, items[n], now);
      forall k | k in Merge(y, items[n], now).byMail ensures Findable(Merge(y, items[n], now).entries, k) {
        MergeFinds(y, items[n], now, k);
      }
    }
  }

  // ---- Which lists take an entry over ----

  /** The last entry that holds the cookie `c` carries an e-mail. */
  ghost predicate CookieHasMail(entries: seq<VaultEntry>, c: string) {
    exists i :: 0 <= i < |entries| && entries[i].sso == c && entries[i].email != ""
                && forall j :: i < j < |entries| ==> entries[j].sso != c
  }

  /** One of the items pairs the cookie `c` with an e-mail. */
  ghost predicate PairsCookie(items: seq<Item>, c: string) {
    exists i :: 0 <= i < |items| && Trim(items[i].sso) == c && Trim(items[i].email) != ""
  }

  /** Item `j` is the first to bring its e-mail, with a cookie that an earlier item
      pairs with an e-mail or that the vault last holds with one. */
  ghost predicate Clashes(entries: seq<VaultEntry>, items: seq<Item>, j: int) {
    && 0 <= j < |items|
    && var c, k := Trim(items[j].sso), ToLower(Trim(items[j].email));
       && Brings(items[j], k) && !Findable(entries, k) && !BringsAny(items[..j], k)
       && (PairsCookie(items[..j], c) || CookieHasMail(entries, c))
  }

  /** No item is the first to bring its e-mail with a cookie that already has one. */
  ghost predicate NoClash(entries: seq<VaultEntry>, items: seq<Item>) { forall j :: !Clashes(entries, items, j) }

  /** What the indexes say of the cookies: an indexed entry without e-mail holds the
      very cookie that leads to it, and every e-mail leads to an entry with one. */
  ghost predicate CookiesLead(x: Indexed) {
    && InRange(x)
    && (forall c :: c in x.bySso && x.entries[x.bySso[c]].email == "" ==> x.entries[x.bySso[c]].sso == c)
    && (forall k :: k in x.byMail ==> x.entries[x.byMail[k]].email != "")
  }

  /** The cookie `c` leads to an entry with an e-mail. */
  predicate LeadsToMail(x: Indexed, c: string)
    requires InRange(x)
  {
    c in x.bySso && x.entries[x.bySso[c]].email != ""
  }

  lemma MergeKeepsLead(x: Indexed, it: Item, now: string)
    requires CookiesLead(x)
    ensures CookiesLead(Merge(x, it, now))
  {
    hide Trim, ToLower;
  }

  /** After a merge a cookie leads to an e-mail exactly if it did, or the item pairs
      it with one. */
  lemma MergeLeads(x: Indexed, it: Item, now: string)
    requires CookiesLead(x)
    ensures CookiesLead(Merge(x, it, now))
    ensures forall c :: c != "" ==>
              (LeadsToMail(Merge(x, it, now), c) <==>
                 LeadsToMail(x, c) || (Trim(it.sso) == c && Trim(it.email) != ""))
  {
    hide Trim, ToLower;
    MergeKeepsLead(x, it, now);
  }

  lemma PairsMore(items: seq<Item>, c: string)
    requires items != []
    ensures var n := |items| - 1;
            PairsCookie(items, c) <==>
              PairsCookie(items[..n], c) || (Trim(items[n].sso) == c && Trim(items[n].email) != "")
  {
    hide Trim;
    var init := items[..|items| - 1];
    if i :| 0 <= i < |init| && Trim(items[i].sso) == c && Trim(items[i].email) != "" { assert init[i] == items[i]; }
    if i :| 0 <= i < |init| && Trim(init[i].sso) == c && Trim(init[i].email) != "" { assert init[i] == items[i]; }
  }

  lemma {:induction false} RunLeads(x: Indexed, items: seq<Item>, now: string)
    requires CookiesLead(x)
    ensures CookiesLead(MergeAll(x, items, now))
    ensures forall c :: c != "" ==>
              (LeadsToMail(MergeAll(x, items, now), c) <==> LeadsToMail(x, c) || PairsCookie(items, c))
  {
    LeadInRange(x);
    hide Merge, LeadsToMail, PairsCookie, CookiesLead, Trim;
    if items == [] {
      forall c ensures !PairsCookie([], c) { NoPair(c); }
    } else {
      var n := |items| - 1;
      RunLeads(x, items[..n], now);
      LeadInRange(MergeAll(x, items[..n], now));
      MergeLeads(MergeAll(x, items[..n], now), items[n], now);
      forall c | c != "" ensures PairsCookie(items, c) <==>
                                   PairsCookie(items[..n], c) || (Trim(items[n].sso) == c && Trim(items[n].email) != "")
      {
        PairsMore(items, c);
      }
    }
  }

  lemma LeadInRange(x: Indexed)
    requires CookiesLead(x)
    ensures InRange(x)
  {}

  lemma NoPair(c: string)
    ensures !PairsCookie([], c)
  {}

  /** Among the first `n` entries each indexed cookie leads to its last holder. */
  ghost predicate LastHolders(x: Indexed, n: nat) {
    && n <= |x.entries|
    && (forall i :: 0 <= i < n && x.entries[i].sso != "" ==> x.entries[i].sso in x.bySso)
    && (forall c :: c in x.bySso ==>
          c != "" && x.bySso[c] < n && x.entries[x.bySso[c]].sso == c
          && forall j :: x.bySso[c] < j < n ==> x.entries[j].sso != c)
  }

  lemma IndexedHolders(x: Indexed, n: nat)
    requires InRange(x) && n < |x.entries| && LastHolders(x, n)
    ensures LastHolders(IndexEntry(x, n), n + 1)
  {
    hide ToLower, InRange;
  }

  lemma {:induction false} BuiltHolders(entries: seq<VaultEntry>, n: nat)
    requires n <= |entries|
    ensures LastHolders(IndexUpTo(entries, n), n)
  {
    hide InRange, IndexEntry;
    if n > 0 {
      BuiltHolders(entries, n - 1);
      IndexedHolders(IndexUpTo(entries, n - 1), n - 1);
    }
  }

  lemma BuiltLeads(entries: seq<VaultEntry>)
    ensures CookiesLead(IndexUpTo(entries, |entries|))
  {
    BuiltHolders(entries, |entries|);
    IndexIsExact(entries, |entries|);
    HoldersLead(IndexUpTo(entries, |entries|));
  }

  lemma HoldersLead(x: Indexed)
    requires InRange(x) && LastHolders(x, |x.entries|) && Exact(x, |x.entries|)
    ensures CookiesLead(x)
  {
    hide ToLower;
    assert forall k :: k in x.byMail ==> MailAt(x.entries, x.byMail[k], k);
  }

  lemma CookieMailIsLead(entries: seq<VaultEntry>, c: string)
    requires c != ""
    ensures LeadsToMail(IndexUpTo(entries, |entries|), c) <==> CookieHasMail(entries, c)
  {
    var x := IndexUpTo(entries, |entries|);
    BuiltHolders(entries, |entries|);
    hide IndexUpTo;
    if CookieHasMail(entries, c) {
      var i :| 0 <= i < |entries| && entries[i].sso == c && entries[i].email != ""
               && forall j :: i < j < |entries| ==> entries[j].sso != c;
      assert c in x.bySso && x.bySso[c] == i;
    }
  }

  /** While nothing has been taken over, an item takes an entry over exactly if it
      is the first to bring its e-mail and its cookie leads to one. */
  lemma TakesOverIf(x: Indexed, it: Item)
    requires Sound(x) && AllFindable(x)
    ensures TakesOver(x, it) <==>
              var c, k := Trim(it.sso), ToLower(Trim(it.email));
              Brings(it, k) && k !in x.byMail && LeadsToMail(x, c)
  {
    hide Trim, ToLower;
    var c, k := Trim(it.sso), ToLower(Trim(it.email));
    if k in x.byMail {
      var i :| MailAt(x.entries, i, k);
    } else if LeadsToMail(x, c) {
      assert MailAt(x.entries, x.bySso[c], ToLower(x.entries[x.bySso[c]].email));
    }
  }

  lemma {:induction false} NoneTakenIff(entries: seq<VaultEntry>, items: seq<Item>, now: string)
    requires UniqueMails(entries)
    ensures Sound(IndexUpTo(entries, |entries|))
    ensures NoneTakenOver(IndexUpTo(entries, |entries|), items, now) <==> NoClash(entries, items)
  {
    var x := IndexUpTo(entries, |entries|);
    IndexIsExact(entries, |entries|);
    ExactIsSound(x);
    hide IndexUpTo, UniqueMails, Sound, AllFindable, Findable;
    if items != [] {
      var n := |items| - 1;
      NoneTakenIff(entries, items[..n], now);
      ClashPrefix(entries, items);
      if NoneTakenOver(x, items[..n], now) { LastClashes(entries, items, now); }
    }
  }

  lemma ClashPrefix(entries: seq<VaultEntry>, items: seq<Item>)
    requires items != []
    ensures NoClash(entries, items) <==>
              NoClash(entries, items[..|items| - 1]) && !Clashes(entries, items, |items| - 1)
  {
    hide Clashes;
    var n := |items| - 1;
    forall j ensures Clashes(entries, items[..n], j) <==> j != n && Clashes(entries, items, j) {
      EarlierClash(entries, items, j);
      ClashInRange(entries, items[..n], j);
    }
    if NoClash(entries, items[..n]) && !Clashes(entries, items, n) {
      forall j ensures !Clashes(entries, items, j) { EarlierClash(entries, items, j); }
    }
  }

  lemma ClashInRange(entries: seq<VaultEntry>, items: seq<Item>, j: int)
    ensures Clashes(entries, items, j) ==> 0 <= j < |items|
  {}

  lemma EarlierClash(entries: seq<VaultEntry>, items: seq<Item>, j: int)
    requires items != []
    ensures var n := |items| - 1;
            j != n ==> (Clashes(entries, items, j) <==> Clashes(entries, items[..n], j))
  {
    hide Trim, ToLower, Brings, Findable, BringsAny, PairsCookie, CookieHasMail;
    var n := |items| - 1;
    if 0 <= j < n { assert items[..n][..j] == items[..j]; }
  }

  /** The last item clashes exactly if it takes an entry over. */
  lemma LastClashes(entries: seq<VaultEntry>, items: seq<Item>, now: string)
    requires UniqueMails(entries) && items != []
    requires InRange(IndexUpTo(entries, |entries|)) && Sound(IndexUpTo(entries, |entries|))
    requires NoneTakenOver(IndexUpTo(entries, |entries|), items[..|items| - 1], now)
    ensures var n := |items| - 1;
            TakesOver(MergeAll(IndexUpTo(entries, |entries|), items[..n], now), items[n])
            <==> Clashes(entries, items, n)
  {
    var n, x := |items| - 1, IndexUpTo(entries, |entries|);
    var init, it := items[..n], items[n];
    var y := MergeAll(x, init, now);
    var c, k := Trim(it.sso), ToLower(Trim(it.email));
    IndexIsExact(entries, |entries|);
    ExactIsSound(x);
    BuiltLeads(entries);
    NoTakeOverFinds(x, init, now);
    TakesOverIf(y, it);
    RunLeads(x, init, now);
    RunKeeps(x, init, now);
    if c != "" { CookieMailIsLead(entries, c); }
    hide IndexUpTo, UniqueMails, Sound, AllFindable, MergeAll, LeadsToMail;
    hide PairsCookie, CookieHasMail, Trim, ToLower, Findable;
    assert k in x.byMail <==> Findable(entries, k);
    assert k in y.byMail <==> Known(x, init, k);
    assert Brings(it, k) ==> c != "";
  }

  /** After a list has been merged, every e-mail of the vault and of the list is
      found exactly when no item clashes; what a take-over loses never comes back
      beside the e-mail that replaced it. */
  lemma AllFoundIff(entries: seq<VaultEntry>, items: seq<Item>, now: string)
    requires UniqueMails(entries)
    ensures var after := MergeAll(IndexUpTo(entries, |entries|), items, now).entries;
            (forall k :: Findable(entries, k) || BringsAny(items, k) ==> Findable(after, k))
            <==> NoClash(entries, items)
  {
    IndexIsExact(entries, |entries|);
    var x := IndexUpTo(entries, |entries|);
    ExactIsSound(x);
    NoneTakenIff(entries, items, now);
    var y := MergeAll(x, items, now);
    RunKeeps(x, items, now);
    hide IndexUpTo, MergeAll, UniqueMails, Clashes, Sound, Brings;
    forall k ensures k in y.byMail <==> Findable(entries, k) || BringsAny(items, k) {
      assert k in x.byMail <==> Findable(entries, k);
    }
    if NoneTakenOver(x, items, now) {
      NoTakeOverFinds(x, items, now);
    } else {
      var k, l := TakeOverShares(x, items, now);
      SharedPosition(y, k, l);
    }
  }

  lemma MergeBoth(x: Indexed, a: Item, b: Item, now: string)
    requires InRange(x)
    ensures MergeAll(x, [a, b], now) == Merge(Merge(x, a, now), b, now)
  {
    hide Merge;
    assert [a, b][..1] == [a] && [a][..0] == [];
    assert MergeAll(x, [a], now) == Merge(x, a, now);
  }

  /** Two accounts listed with one cookie: the first e-mail is gone. */
  lemma SharedCookieLosesMail(now: string)
    ensures var items := [Item("t", "a"), Item("t", "b")];
            var after := MergeAll(Indexed([], map[], map[]), items, now).entries;
            !Findable(after, "a") && Findable(after, "b")
  {
    var x := Indexed([], map[], map[]);
    var items := [Item("t", "a"), Item("t", "b")];
    var y := Merge(x, items[0], now);
    MergeBoth(x, items[0], items[1], now);
    hide MergeAll;
    LowerAt("a");
    LowerAt("b");
    assert ToLower("a") == "a" && ToLower("b") == "b";
    assert MailAt(y.entries, 0, "a");
    MergeFinds(y, items[1], now, "a");
    MergeFinds(y, items[1], now, "b");
  }

  // ---- The file ----

  predicate EntryBefore(a: VaultEntry, b: VaultEntry) {
    var x, y := ToLower(a.email), ToLower(b.email);
    if x != y then Before(x, y) else Before(a.sso, b.sso)
  }

  lemma EntryOrders()
    ensures Order(EntryBefore)
  {
    forall a, b, c
      ensures EntryBefore(a, b) ==> !EntryBefore(b, a)
      ensures !EntryBefore(b, a) && !EntryBefore(c, b) ==> !EntryBefore(c, a)
    {
      BeforeIsOrder(ToLower(a.email), ToLower(b.email), ToLower(c.email));
      BeforeIsOrder(ToLower(b.email), ToLower(c.email), ToLower(a.email));
      BeforeIsOrder(ToLower(c.email), ToLower(a.email), ToLower(b.email));
      BeforeIsOrder(a.sso, b.sso, c.sso);
      hide ToLower, Before;
    }
  }

  /** Saved entries stand by e-mail in lower case, then by cookie, in code-point order. */
  lemma SavedOrder(entries: seq<VaultEntry>, i: nat, j: nat)
    requires i < j < |Saved(entries)|
    ensures var a, b := Saved(entries)[i], Saved(entries)[j];
            && !Before(ToLower(b.email), ToLower(a.email))
            && (ToLower(a.email) == ToLower(b.email) ==> !Before(b.sso, a.sso))
  {
    EntryOrders();
    SortSorts(EntryBefore, entries);
    BeforeIsOrder(ToLower(Saved(entries)[i].email), ToLower(Saved(entries)[j].email), "");
    hide Sort, Before, ToLower;
  }

  /** The saved order. */
  function Saved(entries: seq<VaultEntry>): seq<VaultEntry> { Sort(EntryBefore, entries) }

  lemma {:induction false} TwoPlaces(s: seq<VaultEntry>, e: VaultEntry) returns (i: nat, j: nat)
    requires multiset(s)[e] >= 2
    ensures i < j < |s| && s[i] == e == s[j]
  {
    assert s == [s[0]] + s[1..];
    if s[0] == e {
      assert e in multiset(s[1..]);
      i, j := 0, 1;
      while s[j] != e
        invariant 0 < j < |s| && exists k :: j <= k < |s| && s[k] == e
        decreases |s| - j
      { j := j + 1; }
    } else {
      i, j := TwoPlaces(s[1..], e);
      i, j := i + 1, j + 1;
    }
  }

  lemma PermutedMails(s: seq<VaultEntry>, t: seq<VaultEntry>)
    requires multiset(s) == multiset(t)
    ensures UniqueMails(s) ==> UniqueMails(t)
    ensures forall k :: Findable(s, k) ==> Findable(t, k)
  {
    hide ToLower;
    forall k | Findable(s, k) ensures Findable(t, k) {
      var i :| MailAt(s, i, k);
      assert s[i] in multiset(t);
      var j :| 0 <= j < |t| && t[j] == s[i];
      assert MailAt(t, j, k);
    }
    if UniqueMails(s) {
      forall i, j, k | MailAt(t, i, k) && MailAt(t, j, k) ensures i == j {
        if i != j { SameMailTwice(s, t, i, j, k); }
      }
    }
  }

  /** Two entries with one e-mail come from two such entries. */
  lemma SameMailTwice(s: seq<VaultEntry>, t: seq<VaultEntry>, i: int, j: int, k: string)
    requires multiset(s) == multiset(t) && MailAt(t, i, k) && MailAt(t, j, k) && i != j
    ensures !UniqueMails(s)
  {
    hide ToLower;
    assert t[i] in multiset(s) && t[j] in multiset(s);
    var p, q :| 0 <= p < |s| && 0 <= q < |s| && s[p] == t[i] && s[q] == t[j];
    assert MailAt(s, p, k) && MailAt(s, q, k);
    if p == q {
      var lo, hi := if i < j then i else j, if i < j then j else i;
      assert t == t[..hi] + t[hi..] && t[lo] in t[..hi] && t[hi] in t[hi..];
      var a, b := TwoPlaces(s, t[i]);
      assert MailAt(s, a, k) && MailAt(s, b, k);
    }
  }

  /** What an update promises of the saved file, given a vault with unique
      e-mails: they stay unique, no entry is lost, and every known e-mail is
      found exactly when no item clashes. */
  lemma UpsertPromise(entries: seq<VaultEntry>, items: seq<Item>, now: string)
    requires UniqueMails(entries)
    ensures var saved := Saved(MergeAll(IndexUpTo(entries, |entries|), items, now).entries);
            && UniqueMails(saved) && |entries| <= |saved| <= |entries| + |items| && Sorted(EntryBefore, saved)
            && ((forall k :: Findable(entries, k) || BringsAny(items, k) ==> Findable(saved, k))
                <==> NoClash(entries, items))
  {
    var x := IndexUpTo(entries, |entries|);
    var after := MergeAll(x, items, now).entries;
    IndexIsExact(entries, |entries|);
    ExactIsSound(x);
    AllFoundIff(entries, items, now);
    RunKeeps(x, items, now);
    EntryOrders();
    SortSorts(EntryBefore, after);
    PermutedMails(after, Saved(after));
    PermutedMails(Saved(after), after);
    assert |multiset(after)| == |multiset(Saved(after))|;
    hide IndexUpTo, MergeAll, UniqueMails, Clashes, Findable, BringsAny;
  }

  /** The two position indexes of the loaded entries. */
  method BuildIndexes(entries: seq<VaultEntry>) returns (byMail: map<string, nat>, bySso: map<string, nat>)
    ensures Indexed(entries, byMail, bySso) == IndexUpTo(entries, |entries|)
  {
    byMail, bySso := map[], map[];
    hide ToLower, InRange;
    for i := 0 to |entries|
      invariant Indexed(entries, byMail, bySso) == IndexUpTo(entries, i)
    {
      var e := entries[i];
      if e.email != "" { byMail := byMail[ToLower(e.email) := i]; }
      if e.sso != "" { bySso := bySso[e.sso := i]; }
    }
  }

  /** One turn of the update loop. */
  method MergeOne(entries: seq<VaultEntry>, byMail0: map<string, nat>, bySso0: map<string, nat>, it: Item, now: string)
    returns (v: seq<VaultEntry>, byMail: map<string, nat>, bySso: map<string, nat>)
    requires InRange(Indexed(entries, byMail0, bySso0))
    ensures Indexed(v, byMail, bySso) == Merge(Indexed(entries, byMail0, bySso0), it, now)
  {
    v, byMail, bySso := entries, byMail0, bySso0;
    hide Trim, ToLower;
    var sso, email := Trim(it.sso), Trim(it.email);
    if sso == "" { return; }
    var idx := -1;
    if email != "" && ToLower(email) in byMail { idx := byMail[ToLower(email)]; }
    if idx < 0 && sso in bySso { idx := bySso[sso]; }
    if idx >= 0 {
      var e := v[idx].(sso := sso);
      if email != "" { e := e.(email := email); }
      e := e.(updatedAt := now);
      v := v[idx := e];
      if e.email != "" { byMail := byMail[ToLower(e.email) := idx]; }
      bySso := bySso[sso := idx];
      return;
    }
    v := v + [VaultEntry(email, sso, now, false, "", 0)];
    var n := |v| - 1;
    if email != "" { byMail := byMail[ToLower(email) := n]; }
    bySso := bySso[sso := n];
  }

  /** The vault file. */
  class VaultFile {
    var entries: seq<VaultEntry>

    constructor (loaded: seq<VaultEntry>)
      ensures entries == loaded
    {
      entries := loaded;
    }

    /** upsertVaultSSO. */
    method Upsert(items: seq<Item>, now: string)
      modifies this
      ensures entries ==
                if items == [] then old(entries)
                else Saved(MergeAll(IndexUpTo(old(entries), |old(entries)|), items, now).entries)
    {
      if |items| == 0 { return; }
      var v := entries;
      var byMail, bySso := BuildIndexes(v);
      ghost var start := IndexUpTo(v, |v|);
      hide IndexUpTo, Merge, InRange;
      for j := 0 to |items|
        invariant Indexed(v, byMail, bySso) == MergeAll(start, items[..j], now)
        invariant entries == old(entries)
      {
        assert items[..j + 1][..j] == items[..j];
        v, byMail, bySso := MergeOne(v, byMail, bySso, items[j], now);
      }
      assert items[..|items|] == items;
      entries := Saved(v);
    }
  }
}
