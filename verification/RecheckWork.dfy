/** The work list of a recheck pass: which accounts it is about, and which rows
    are released on the way because their credential file is gone. */
module RecheckWork {
  import opened Text
  import opened BanTable
  import opened BanLaws
  import opened BanLedger
  import opened BanRuns
  import opened Reconcile
  import opened ScanSync
  import opened Wrappers

  datatype AuthFile = AuthFile(
    id: string, authIndex: string, name: string, path: string, email: string, account: string,
    labelText: string, provider: string, kind: string)

  /** `want` holds the selected ids, as given and in lower case; empty selects by row. */
  datatype Options = Options(want: set<string>, status: int, manual: bool)

  datatype WorkItem = WorkItem(banID: string, email: string)

  datatype Action = Still429 | Reclassified | Unbanned | Skipped

  datatype Detail = Detail(banID: string, email: string, http: int, action: Action)

  predicate IsXaiFile(f: AuthFile) {
    var provider := ToLower(FirstNonEmpty([f.provider, f.kind]));
    var name := ToLower(FirstNonEmpty([f.name, f.id]));
    provider == "xai" || provider == "x-ai" || provider == "grok" || HasPrefix(name, "xai-") || HasPrefix(name, "xai.")
  }

  predicate Wanted(want: set<string>, c: string) {
    Trim(c) != "" && (Trim(c) in want || ToLower(Trim(c)) in want)
  }

  predicate Selected(f: AuthFile, want: set<string>) {
    && IsXaiFile(f)
    && exists c :: c in {f.id, f.authIndex, f.name, f.path, FileBase(f.path), f.email, f.account, f.labelText}
                   && Wanted(want, c)
  }

  function FileKeys(f: AuthFile): set<string> {
    {f.id, f.authIndex, f.name, f.path, FileBase(f.path)}
  }

  /** The file index the source builds as two maps: a key or e-mail some xai
      file answers to. */
  predicate KnownKey(files: seq<AuthFile>, key: string) {
    exists f, k :: f in files && k in FileKeys(f) && IsXaiFile(f) && Trim(k) != ""
                   && (key == Trim(k) || key == ToLower(Trim(k)))
  }

  predicate KnownMail(files: seq<AuthFile>, m: string) {
    m != "" && exists f :: f in files && IsXaiFile(f) && Norm(FirstNonEmpty([f.email, f.account, f.labelText])) == m
  }

  predicate HasFile(files: seq<AuthFile>, id: string, e: Entry) {
    || KnownMail(files, Norm(FirstNonEmpty([e.email, id])))
    || KnownKey(files, id)
    || (e.authRef != "" && KnownKey(files, e.authRef))
  }

  /** Rows the pass is about when no ids were selected. */
  predicate IsTarget(e: Entry, opts: Options, now: Clock) {
    if opts.status > 0 then e.status == opts.status
    else e.status == TOO_MANY && (opts.manual || e.resetAt <= now)
  }

  /** Which credential files are xai's: by provider or kind, else by file name. */
  lemma XaiFiles(f: AuthFile)
    ensures var kind, name := ToLower(FirstNonEmpty([f.provider, f.kind])), ToLower(FirstNonEmpty([f.name, f.id]));
            IsXaiFile(f) <==> kind in {"xai", "x-ai", "grok"} || "xai-" <= name || "xai." <= name
  {
    hide ToLower, FirstNonEmpty;
  }

  /** `c` is one of the names of the file, wanted as it is or in lower case. */
  ghost predicate WantedName(f: AuthFile, want: set<string>, c: string) {
    && c in {f.id, f.authIndex, f.name, f.path, FileBase(f.path), f.email, f.account, f.labelText}
    && Trim(c) != "" && (Trim(c) in want || ToLower(Trim(c)) in want)
  }

  /** A selection picks the xai files that carry a wanted name. */
  lemma SelectionPicks(f: AuthFile, want: set<string>)
    ensures Selected(f, want) <==> IsXaiFile(f) && exists c :: WantedName(f, want, c)
  {
    hide IsXaiFile, Trim, ToLower, FileBase;
    if Selected(f, want) {
      var c :| Wanted(want, c)
        && c in {f.id, f.authIndex, f.name, f.path, FileBase(f.path), f.email, f.account, f.labelText};
      assert WantedName(f, want, c);
    } else if c :| WantedName(f, want, c) {
      assert Wanted(want, c);
    }
  }

  /** `x` is the id, or the id in lower case. */
  predicate Spells(id: string, x: string) {
    Trim(id) != "" && (x == Trim(id) || x == ToLower(Trim(id)))
  }

  /** A name is wanted exactly when it is one of the ids, whatever the letter case of
      either. */
  lemma WantedFolds(ids: seq<string>, want: set<string>, c: string)
    requires forall x :: x in want <==> exists id :: id in ids && Spells(id, x)
    ensures Wanted(want, c) <==>
              Trim(c) != "" && exists id :: id in ids && Trim(id) != "" && ToLower(Trim(id)) == ToLower(Trim(c))
  {
    NormFacts(c);
    forall id ensures ToLower(ToLower(Trim(id))) == ToLower(Trim(id)) { NormFacts(id); }
    hide Trim, ToLower;
    if id :| id in ids && Trim(id) != "" && ToLower(Trim(id)) == ToLower(Trim(c)) {
      assert Spells(id, ToLower(Trim(c)));
    }
  }

  /** banProbeWantKeys. */
  method WantKeys(authID: string, ids: seq<string>) returns (want: set<string>)
    ensures forall c :: Wanted(want, c) <==>
              Trim(c) != "" &&
              exists id :: id in [authID] + ids && Trim(id) != "" && ToLower(Trim(id)) == ToLower(Trim(c))
  {
    hide Trim, ToLower, Wanted;
    want := {};
    var all := [authID] + ids;
    for i := 0 to |all|
      invariant forall x :: x in want <==> exists id :: id in all[..i] && Spells(id, x)
    {
      var s := Trim(all[i]);
      assert all[..i + 1] == all[..i] + [all[i]];
      ghost var before := want;
      if s != "" { want := want + {s, ToLower(s)}; }
      assert forall x :: x in want <==> x in before || Spells(all[i], x);
    }
    assert all[..|all|] == all;
    forall c ensures Wanted(want, c) <==>
      Trim(c) != "" && exists id :: id in all && Trim(id) != "" && ToLower(Trim(id)) == ToLower(Trim(c))
    {
      WantedFolds(all, want, c);
    }
  }

  /** Without a selection the rows of the asked code are due, or the 429 rows, unless
      asked for by hand only those that have ended. */
  lemma DueRows(e: Entry, opts: Options, now: Clock)
    ensures opts.status > 0 ==> (IsTarget(e, opts, now) <==> e.status == opts.status)
    ensures opts.status <= 0 ==> (IsTarget(e, opts, now) <==> e.status == 429 && (now < e.resetAt ==> opts.manual))
  {}

  /** A row has a credential file when an xai file has its e-mail, or goes by its key
      or auth id, in this or in lower case. */
  lemma FilesOfRow(files: seq<AuthFile>, id: string, e: Entry)
    ensures HasFile(files, id, e) <==> exists f :: f in files && IsXaiFile(f) && FileOf(f, id, e)
  {
    hide IsXaiFile, FirstNonEmpty, Trim, ToLower, FileBase;
  }

  /** The file `f` has the row's e-mail, or goes by its key or auth id. */
  ghost predicate FileOf(f: AuthFile, id: string, e: Entry) {
    var m := Norm(FirstNonEmpty([e.email, id]));
    || (m != "" && Norm(FirstNonEmpty([f.email, f.account, f.labelText])) == m)
    || exists k :: && k in {f.id, f.authIndex, f.name, f.path, FileBase(f.path)} && Trim(k) != ""
                   && (id in {Trim(k), ToLower(Trim(k))} || e.authRef in {Trim(k), ToLower(Trim(k))} - {""})
  }

  /** What a work item is called: by its e-mail, else by name or id. */
  lemma ItemNames(f: AuthFile, id: string, e: Entry)
    ensures var item, mail := SelectedItem(f), Norm(FirstNonEmpty([f.email, f.account]));
            && item.banID == (if mail != "" then mail else FirstNonEmpty([f.name, f.id, f.authIndex, FileBase(f.path)]))
            && item.email == FirstNonEmpty([f.email, f.account])
    ensures var item, mail := RowItem(id, e), Norm(FirstNonEmpty([e.email, id]));
            && item.banID == (if mail != "" then mail else Trim(id))
            && item.email == (if Trim(e.email) != "" then Trim(e.email) else mail)
  {
    var mail, own := Norm(FirstNonEmpty([f.email, f.account])), Norm(FirstNonEmpty([e.email, id]));
    NormFacts(FirstNonEmpty([f.email, f.account]));
    NormFacts(FirstNonEmpty([e.email, id]));
    FirstOrRest([mail, f.name, f.id, f.authIndex, FileBase(f.path)]);
    FirstOrRest([own, id]);
    FirstOrRest([e.email, own]);
    FirstOrRest([e.email, id]);
    FirstOrRest([f.email, f.account, mail]);
    FirstOrRest([f.account, mail]);
    FirstOrRest([f.email, f.account]);
    FirstOrRest([f.account]);
    FirstOrRest([id]);
    FirstOrRest([own]);
    FirstOrRest([mail]);
    FirstOrRest([]);
    hide FirstNonEmpty, Trim, ToLower, FileBase;
  }

  /** No two work items name the same account. */
  predicate Distinct(work: seq<WorkItem>) {
    forall i, j :: 0 <= i < j < |work| ==> ToLower(work[i].banID) != ToLower(work[j].banID)
  }

  predicate Covers(work: seq<WorkItem>, id: string) {
    exists i :: 0 <= i < |work| && ToLower(work[i].banID) == ToLower(id)
  }

  predicate SeenIs(seen: set<string>, work: seq<WorkItem>) {
    && Distinct(work)
    && (forall i :: 0 <= i < |work| ==> ToLower(work[i].banID) in seen)
    && (forall x :: x in seen ==> exists i :: 0 <= i < |work| && ToLower(work[i].banID) == x)
  }

  lemma CoversMore(work: seq<WorkItem>, item: WorkItem, id: string)
    ensures Covers(work, id) ==> Covers(work + [item], id)
    ensures Covers(work + [item], item.banID)
  {
    if Covers(work, id) {
      var i :| 0 <= i < |work| && ToLower(work[i].banID) == ToLower(id);
      assert (work + [item])[i] == work[i];
    }
    assert (work + [item])[|work|] == item;
  }

  /** Add an item unless its account is already listed. */
  method AddWork(work: seq<WorkItem>, seen: set<string>, item: WorkItem) returns (w: seq<WorkItem>, s: set<string>)
    requires SeenIs(seen, work)
    ensures SeenIs(s, w) && Covers(w, item.banID)
    ensures forall id :: Covers(work, id) ==> Covers(w, id)
    ensures w == work || w == work + [item]
  {
    var key := ToLower(item.banID);
    if key in seen { return work, seen; }
    w, s := work + [item], seen + {key};
    hide ToLower;
    forall id ensures Covers(work, id) ==> Covers(w, id) { CoversMore(work, item, id); }
    CoversMore(work, item, item.banID);
    forall x | x in s ensures exists i :: 0 <= i < |w| && ToLower(w[i].banID) == x {
      if x in seen {
        var i :| 0 <= i < |work| && ToLower(work[i].banID) == x;
        assert w[i] == work[i];
      } else {
        assert w[|work|] == item;
      }
    }
  }

  // ---- Selected credential files ----

  function SelectedID(f: AuthFile): string {
    FirstNonEmpty([Norm(FirstNonEmpty([f.email, f.account])), f.name, f.id, f.authIndex, FileBase(f.path)])
  }

  function SelectedItem(f: AuthFile): WorkItem {
    WorkItem(SelectedID(f), FirstNonEmpty([f.email, f.account, Norm(FirstNonEmpty([f.email, f.account]))]))
  }

  /** The item is listed for some selected file. */
  ghost predicate AskedFor(files: seq<AuthFile>, want: set<string>, item: WorkItem) {
    exists f :: f in files && Selected(f, want) && item == SelectedItem(f)
  }

  /** Selected ids: the matching credential files, isolated or not. */
  method CollectSelected(files: seq<AuthFile>, want: set<string>) returns (work: seq<WorkItem>)
    ensures Distinct(work)
    ensures forall i :: 0 <= i < |files| && Selected(files[i], want) ==> Covers(work, SelectedID(files[i]))
    ensures forall w :: w in work ==> AskedFor(files, want, w)
  {
    work := [];
    var seen: set<string> := {};
    hide Selected, SelectedItem, SelectedID, Norm, FirstNonEmpty, ToLower;
    for n := 0 to |files|
      invariant SeenIs(seen, work)
      invariant forall i :: 0 <= i < n && Selected(files[i], want) ==> Covers(work, SelectedID(files[i]))
      invariant forall w :: w in work ==> AskedFor(files, want, w)
    {
      hide SeenIs, Covers;
      var f := files[n];
      if Selected(f, want) {
        work, seen := AddWork(work, seen, SelectedItem(f));
        assert SelectedItem(f).banID == SelectedID(f) by { SelectedName(f); }
        assert AskedFor(files, want, SelectedItem(f));
      }
    }
  }

  lemma SelectedName(f: AuthFile)
    ensures SelectedItem(f).banID == SelectedID(f)
  {}

  // ---- Target rows ----

  function RowID(id: string, e: Entry): string {
    FirstNonEmpty([Norm(FirstNonEmpty([e.email, id])), id])
  }

  function RowItem(id: string, e: Entry): WorkItem {
    WorkItem(RowID(id, e), FirstNonEmpty([e.email, Norm(FirstNonEmpty([e.email, id]))]))
  }

  /** The item is listed for some target row that has a credential file. */
  ghost predicate Targeted(files: seq<AuthFile>, snap: Table, opts: Options, now: Clock, item: WorkItem) {
    exists id :: id in snap && IsTarget(snap[id], opts, now) && HasFile(files, id, snap[id])
                 && item == RowItem(id, snap[id])
  }

  /** The target rows without a credential file. */
  function Gone(files: seq<AuthFile>, snap: Table, opts: Options, now: Clock): set<string> {
    set id | id in snap && IsTarget(snap[id], opts, now) && !HasFile(files, id, snap[id])
  }

  function DropDetail(id: string, e: Entry): Detail { Detail(id, e.email, 0, Action.Unbanned) }

  /** The details name exactly the given rows, each once. */
  ghost predicate Drops(details: seq<Detail>, snap: Table, gone: set<string>) {
    && (forall d :: d in details ==> d.banID in gone && d.banID in snap && d == DropDetail(d.banID, snap[d.banID]))
    && (forall id :: id in gone ==> exists d :: d in details && d.banID == id)
    && (forall i, j :: 0 <= i < j < |details| ==> details[i].banID != details[j].banID)
    && |details| == Tally(gone)
  }

  lemma DropsMore(details: seq<Detail>, snap: Table, gone: set<string>, id: string)
    requires Drops(details, snap, gone) && id in snap && id !in gone
    ensures Drops(details + [DropDetail(id, snap[id])], snap, gone + {id})
  {
    var d := DropDetail(id, snap[id]);
    var more := details + [d];
    TallyAdd(gone, id);
    hide Tally;
    assert d in more && forall x :: x in details ==> x in more;
    forall k | k in gone + {id} ensures exists x :: x in more && x.banID == k {
      if k != id {
        var x :| x in details && x.banID == k;
        assert x in more;
      }
    }
    forall i | 0 <= i < |details| ensures details[i].banID != id { assert details[i] in details; }
  }

  /** What releasing a row without a credential file amounts to. */
  function DropAct(d: Detail): Act {
    Act(Norm(FirstNonEmpty([d.email, d.banID])), [d.banID], "", Release)
  }

  function DropActs(details: seq<Detail>): (acts: seq<Act>)
    ensures |acts| == |details| && forall i :: 0 <= i < |details| ==> acts[i] == DropAct(details[i])
  {
    seq(|details|, i requires 0 <= i < |details| => DropAct(details[i]))
  }

  /** Release a target whose credential file is gone. */
  method DropTarget(s: BanState, id: string, e: Entry)
    requires s.Valid() && RowFiled(id, e) && (id in s.bans ==> s.bans[id] == e)
    modifies s
    ensures s.Valid() && (old(s.Exact()) ==> s.Exact()) && Shrunk(old(s.bans), s.bans) && id !in s.bans
    ensures Effect(old(s.bans), s.bans, DropAct(DropDetail(id, e)))
  {
    ghost var t := s.bans;
    var c := s.Clear(id);
    ghost var hit: Option<string> :| MayAnswer(t, id, hit) && c == hit.Some? && s.bans == ClearTable(t, hit);
    DropSettles(t, id, e, hit);
    hide Spelled, Filed, ScanIndex, Listing, MayAnswer, Norm, FirstNonEmpty, RowsOfEmail;
    hide Effect, ClearTable, Shrunk, DropAct;
    var em := Norm(FirstNonEmpty([e.email, id]));
    if em != "" { var n := s.ClearByEmail(em); }
  }

  /** What the two releases leave. */
  function DropTable(t: Table, id: string, e: Entry, hit: Option<string>): Table {
    var u, em := ClearTable(t, hit), Norm(FirstNonEmpty([e.email, id]));
    if em != "" then u - RowsOfEmail(u, em) else u
  }

  lemma DropSettles(t: Table, id: string, e: Entry, hit: Option<string>)
    requires RowFiled(id, e) && (id in t ==> t[id] == e) && MayAnswer(t, id, hit)
    ensures var w := DropTable(t, id, e, hit);
            && Shrunk(t, w) && id !in w
            && Effect(t, w, DropAct(DropDetail(id, e)))
  {
    var act, w := DropAct(DropDetail(id, e)), DropTable(t, id, e, hit);
    var email, u := FirstNonEmpty([e.email, id]), ClearTable(t, hit);
    DropClears(t, id, act, hit);
    SameRows(u, email);
    DropReaches(t, u, id, e, hit);
    ReleaseByMail(t, u, act, email, false);
    assert w == u - (if Norm(email) != "" then RowsOfEmail(u, email) else {});
    assert act.mail == Norm(email) && act.verdict.Release?;
    hide *;
    assert Released(t, w, act, true);
    LessShrunk(t, u, w);
    ReleaseEffect(t, w, act);
  }

  lemma LessShrunk(t: Table, u: Table, w: Table)
    requires Shrunk(t, u) && exists gone: set<string> :: w == u - gone
    ensures Shrunk(t, w) && w.Keys <= t.Keys
  {}

  lemma SameRows(t: Table, email: string)
    ensures RowsOfEmail(t, Norm(email)) == RowsOfEmail(t, email)
  {
    NormFacts(email);
  }

  lemma DropClears(t: Table, id: string, act: Act, hit: Option<string>)
    requires act.names == [id] && MayAnswer(t, id, hit)
    ensures Released(t, ClearTable(t, hit), act, false) && Shrunk(t, ClearTable(t, hit))
  {
    NothingReleased(t, act);
    ClearShrinks(t, hit);
    if Trim(id) != "" {
      assert MayAnswer(t, Trim(id), hit);
      assert Trim(act.names[0]) == Trim(id) && NameOf(act, Trim(id));
      ReleaseByName(t, t, act, Trim(id), hit, false);
    }
  }

  /** Either lookup reaches the row: a mail-less key is trimmed, any other row has
      the e-mail that is cleared. */
  lemma DropReaches(t: Table, u: Table, id: string, e: Entry, hit: Option<string>)
    requires RowFiled(id, e) && (id in t ==> t[id] == e) && MayAnswer(t, id, hit) && u == ClearTable(t, hit)
    ensures var email := FirstNonEmpty([e.email, id]);
            id in u ==> Norm(email) != "" && id in RowsOfEmail(u, email)
  {
    NormFacts(e.email);
    if Mailbox(e) != "" {
      assert FirstNonEmpty([e.email, id]) == Trim(e.email);
    } else if id in t {
      assert MayFind(t, id, id);
    }
  }

  /** So far every target row outside `todo` is listed or released, and the ledger
      is what the releases made of the snapshot. */
  ghost predicate Collecting(files: seq<AuthFile>, snap: Table, opts: Options, now: Clock, todo: set<string>,
                             work: seq<WorkItem>, dropped: seq<Detail>, bans: Table) {
    && Drops(dropped, snap, Gone(files, snap, opts, now) - todo)
    && (forall id :: id in snap && IsTarget(snap[id], opts, now) && id !in todo ==>
          if HasFile(files, id, snap[id]) then Covers(work, RowID(id, snap[id])) else id !in bans)
    && (forall w :: w in work ==> Targeted(files, snap, opts, now, w))
    && Shrunk(snap, bans) && Batch(snap, bans, DropActs(dropped))
  }

  lemma StartCollecting(files: seq<AuthFile>, snap: Table, opts: Options, now: Clock)
    ensures Collecting(files, snap, opts, now, Targets(snap, opts, now), [], [], snap)
  {
    EmptyBatch(snap);
    hide Batch, IsTarget, HasFile;
    assert DropActs([]) == [];
    assert Gone(files, snap, opts, now) - Targets(snap, opts, now) == {};
  }

  function Targets(snap: Table, opts: Options, now: Clock): set<string> {
    set id | id in snap && IsTarget(snap[id], opts, now)
  }

  lemma ListOne(files: seq<AuthFile>, snap: Table, opts: Options, now: Clock, todo: set<string>, id: string,
                work: seq<WorkItem>, more: seq<WorkItem>, dropped: seq<Detail>, bans: Table)
    requires Collecting(files, snap, opts, now, todo, work, dropped, bans)
    requires id in todo && id in Targets(snap, opts, now) && HasFile(files, id, snap[id])
    requires Covers(more, RowID(id, snap[id])) && forall x :: Covers(work, x) ==> Covers(more, x)
    requires more == work || more == work + [RowItem(id, snap[id])]
    ensures Collecting(files, snap, opts, now, todo - {id}, more, dropped, bans)
  {
    hide Batch, IsTarget, HasFile, RowID, RowItem, Covers, Drops, Shrunk;
    assert Gone(files, snap, opts, now) - (todo - {id}) == Gone(files, snap, opts, now) - todo;
    assert Targeted(files, snap, opts, now, RowItem(id, snap[id]));
  }

  lemma DropOne(files: seq<AuthFile>, snap: Table, opts: Options, now: Clock, todo: set<string>, id: string,
                work: seq<WorkItem>, dropped: seq<Detail>, bans: Table, after: Table)
    requires Collecting(files, snap, opts, now, todo, work, dropped, bans)
    requires id in todo && id in Targets(snap, opts, now) && !HasFile(files, id, snap[id])
    requires Shrunk(bans, after) && id !in after
    requires Spelled(bans) && Effect(bans, after, DropAct(DropDetail(id, snap[id])))
    ensures Collecting(files, snap, opts, now, todo - {id}, work, dropped + [DropDetail(id, snap[id])], after)
  {
    hide Batch, IsTarget, HasFile, RowID, RowItem, Covers, Drops, Effect, DropActs, DropAct, DropDetail;
    hide Spelled, Shrunk;
    var d, gone := DropDetail(id, snap[id]), Gone(files, snap, opts, now);
    BatchOfOne(bans, after, DropAct(d));
    BatchesCompose(snap, bans, after, DropActs(dropped), [DropAct(d)]);
    DropActsGrow(dropped, d);
    DropsMore(dropped, snap, gone - todo, id);
    assert gone - (todo - {id}) == (gone - todo) + {id};
    ShrunkFurther(snap, bans, after, "");
    StaysGone(bans, after);
  }

  lemma StaysGone(t: Table, u: Table)
    requires Shrunk(t, u)
    ensures forall k :: k !in t ==> k !in u
  {}

  lemma DropActsGrow(details: seq<Detail>, d: Detail)
    ensures DropActs(details + [d]) == DropActs(details) + [DropAct(d)]
  {
    hide DropAct;
  }

  /** No selection: the rows of the asked status, or the 429 rows. Targets are
      visited in an arbitrary order. */
  method CollectRows(s: BanState, files: seq<AuthFile>, opts: Options, now: Clock)
    returns (work: seq<WorkItem>, dropped: seq<Detail>)
    requires s.Valid()
    modifies s
    ensures s.Valid() && (old(s.Exact()) ==> s.Exact()) && Distinct(work)
    ensures Collecting(files, SnapTable(old(s.bans), now), opts, now, {}, work, dropped, s.bans)
  {
    ghost var t := s.bans;
    var rows := s.Snapshot(now);
    SnapKeepsSpelled(t, now);
    work, dropped := [], [];
    var seen: set<string> := {};
    var todo := Targets(rows, opts, now);
    StartCollecting(files, rows, opts, now);
    assert SeenIs(seen, work);
    hide Collecting, IsTarget, HasFile, RowID, RowItem, Covers, Spelled;
    hide RowFiled, ScanIndex, SnapTable, SeenIs, Effect, Shrunk;
    while todo != {}
      invariant s.Valid() && (old(s.Exact()) ==> s.Exact()) && SeenIs(seen, work) && todo <= Targets(rows, opts, now)
      invariant Collecting(files, rows, opts, now, todo, work, dropped, s.bans)
    {
      var id :| id in todo;
      if HasFile(files, id, rows[id]) {
        ghost var listed := work;
        work, seen := AddWork(work, seen, RowItem(id, rows[id]));
        RowName(id, rows[id]);
        ListOne(files, rows, opts, now, todo, id, listed, work, dropped, s.bans);
      } else {
        ghost var before := s.bans;
        RowOfTarget(files, rows, opts, now, todo, id, work, dropped, before);
        DropTarget(s, id, rows[id]);
        DropOne(files, rows, opts, now, todo, id, work, dropped, before, s.bans);
        dropped := dropped + [DropDetail(id, rows[id])];
      }
      todo := todo - {id};
    }
    assert Distinct(work) by { SeenDistinct(seen, work); }
  }

  lemma RowName(id: string, e: Entry)
    ensures RowItem(id, e).banID == RowID(id, e)
  {}

  lemma SeenDistinct(seen: set<string>, work: seq<WorkItem>)
    requires SeenIs(seen, work)
    ensures Distinct(work)
  {}

  lemma RowOfTarget(files: seq<AuthFile>, snap: Table, opts: Options, now: Clock, todo: set<string>, id: string,
                    work: seq<WorkItem>, dropped: seq<Detail>, bans: Table)
    requires Spelled(snap) && id in snap && Collecting(files, snap, opts, now, todo, work, dropped, bans)
    ensures RowFiled(id, snap[id]) && (id in bans ==> bans[id] == snap[id])
  {
    hide RowFiled, Batch, IsTarget, HasFile;
  }

  /** The table a pass starts from: the ledger as it is when ids were selected, a
      snapshot of it otherwise. */
  function Base(t: Table, opts: Options, now: Clock): Table {
    if opts.want != {} then t else SnapTable(t, now)
  }

  /** A selection leaves the ledger as it is; otherwise it holds the rows that have not
      ended and every 429. */
  lemma BaseShows(t: Table, opts: Options, now: Clock, k: string)
    ensures opts.want != {} ==> Base(t, opts, now) == t
    ensures opts.want == {} ==>
              (k in Base(t, opts, now) <==> k in t && (now < t[k].resetAt || t[k].status == 429))
              && (k in Base(t, opts, now) && t[k].status != 429 ==> Base(t, opts, now)[k] == t[k])
  {
    SnapshotShows(t, now, k);
    hide SnapTable;
  }

  /** What collecting the work list did. */
  ghost predicate Collected(files: seq<AuthFile>, base: Table, opts: Options, now: Clock,
                            work: seq<WorkItem>, dropped: seq<Detail>, after: Table) {
    && Distinct(work)
    && if opts.want != {} then
         && after == base && dropped == []
         && (forall i :: 0 <= i < |files| && Selected(files[i], opts.want) ==> Covers(work, SelectedID(files[i])))
         && (forall w :: w in work ==> AskedFor(files, opts.want, w))
       else
         Collecting(files, base, opts, now, {}, work, dropped, after)
  }

  method Collect(s: BanState, files: seq<AuthFile>, opts: Options, now: Clock)
    returns (work: seq<WorkItem>, dropped: seq<Detail>)
    requires s.Valid()
    modifies s
    ensures s.Valid() && (old(s.Exact()) ==> s.Exact())
    ensures Collected(files, Base(old(s.bans), opts, now), opts, now, work, dropped, s.bans)
  {
    dropped := [];
    if opts.want != {} {
      work := CollectSelected(files, opts.want);
    } else {
      work, dropped := CollectRows(s, files, opts, now);
    }
  }

  /** Collecting is a batch of releases, one for each dropped row. */
  lemma CollectedBatch(files: seq<AuthFile>, base: Table, opts: Options, now: Clock,
                       work: seq<WorkItem>, dropped: seq<Detail>, after: Table)
    requires Collected(files, base, opts, now, work, dropped, after)
    ensures Batch(base, after, DropActs(dropped))
    ensures forall d :: d in dropped ==> d.action == Action.Unbanned
  {
    hide Batch, Distinct, Selected;
    if opts.want != {} {
      EmptyBatch(base);
      assert DropActs([]) == [];
    }
  }
}
