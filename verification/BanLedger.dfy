/** The mutex-protected ledger object. Every method is one locked section; the
    loops visit a map's keys in an arbitrary order, as Go's map iteration does. */
module BanLedger {
  import opened Text
  import opened BanTable
  import opened BanFile
  import opened Wrappers

  class BanState {
    var bans: Table
    var emailIndex: EmailIndex
    var dirty: bool

    /** The secondary index is the linear scan. */
    ghost predicate Indexed()
      reads this`bans, this`emailIndex
    {
      emailIndex == ScanIndex(bans)
    }

    /** Every key spells its row's e-mail, and the index lists no row wrongly. Every
        call keeps this; the index may miss rows after a heal or a load that leaves
        two rows with one e-mail. */
    ghost predicate Valid()
      reads this`bans, this`emailIndex
    {
      Spelled(bans) && Listing(bans, emailIndex)
    }

    /** One row per e-mail, and the index lists them all. */
    ghost predicate Exact()
      reads this`bans, this`emailIndex
    {
      Filed(bans) && Indexed()
    }

    constructor ()
      ensures Valid() && Exact() && bans == map[] && !dirty
    {
      bans, emailIndex, dirty := map[], map[], false;
    }

    method IndexEmail(key: string, email: string)
      modifies this`emailIndex
      ensures emailIndex == Reindex(old(emailIndex), key, email)
    {
      var m := Norm(email);
      if m == "" { return; }
      emailIndex := emailIndex[m := {key}];
    }

    method UnindexKey(key: string, email: string)
      modifies this`emailIndex
      ensures emailIndex == Unindex(old(emailIndex), key, email)
    {
      var m := Norm(email);
      if m == "" || m !in emailIndex { return; }
      var rest := emailIndex[m] - {key};
      emailIndex := if rest == {} then emailIndex - {m} else emailIndex[m := rest];
    }

    /** Unindex and delete one row. */
    method Drop(key: string)
      requires Listing(bans, emailIndex) && key in bans
      modifies this`bans, this`emailIndex
      ensures Listing(bans, emailIndex) && (old(Indexed()) ==> Indexed())
      ensures bans == old(bans) - {key}
    {
      UnindexLists(bans, emailIndex, key);
      UnindexScan(bans, key);
      hide *;
      UnindexKey(key, bans[key].email);
      bans := bans - {key};
    }

    /** Store one row and index it. The index stays exact if and only if no other
        row has the e-mail. */
    method Put(key: string, e: Entry)
      requires Listing(bans, emailIndex)
      requires key in bans ==> Mailbox(bans[key]) == "" || Mailbox(bans[key]) == Mailbox(e)
      modifies this
      ensures dirty && bans == old(bans)[key := e] && Listing(bans, emailIndex)
      ensures old(Indexed()) ==> (Indexed() <==> Mailbox(e) == "" || KeysOf(old(bans), Mailbox(e)) <= {key})
    {
      ReindexLists(bans, emailIndex, key, e);
      ReindexScan(bans, key, e);
      bans := bans[key := e];
      IndexEmail(key, e.email);
      dirty := true;
    }

    /** Drop every other row of the e-mail `m`, and the row kept under the auth id. */
    method DropStale(key: string, id: string, m: string)
      requires Listing(bans, emailIndex)
      modifies this`bans, this`emailIndex
      ensures Listing(bans, emailIndex) && (old(Indexed()) ==> Indexed())
      ensures bans == old(bans) - Stale(old(bans), key, id, m)
    {
      hide Norm, Indexed, Listing;
      DropRivals(key, m);
      if id != "" && id != key && id in bans { Drop(id); }
      assert bans == old(bans) - Stale(old(bans), key, id, m);
    }

    /** Drop every other row of the e-mail `m`, by its row or by its key. */
    method DropRivals(key: string, m: string)
      requires Listing(bans, emailIndex)
      modifies this`bans, this`emailIndex
      ensures Listing(bans, emailIndex) && (old(Indexed()) ==> Indexed())
      ensures bans == old(bans) - Stale(old(bans), key, "", m)
    {
      hide Norm, Indexed, Listing;
      ghost var all, gone := Stale(bans, key, "", m), {};
      if m != "" {
        var todo := bans.Keys;
        while todo != {}
          invariant todo <= bans.Keys && Listing(bans, emailIndex) && (old(Indexed()) ==> Indexed())
          invariant gone == all - todo && bans == old(bans) - gone
        {
          var k :| k in todo;
          todo := todo - {k};
          if k != key && (Mailbox(bans[k]) == m || Norm(k) == m) {
            Drop(k);
            gone := gone + {k};
          }
        }
      }
      assert gone == all;
    }

    /** Record a failure report. One row per e-mail survives it; keyed by the
        normalised e-mail exactly when the report is canonical. */
    method Set(authID: string, entry: Entry, now: Clock)
      requires Valid()
      modifies this
      ensures Valid() && (old(Exact()) ==> Exact())
      ensures bans == SetTable(old(bans), authID, entry, now)
      ensures old(TableOK(bans)) ==> (TableOK(bans) <==> CanonicalReport(authID, entry))
      ensures dirty == (old(dirty) || StorageKey(entry.email, authID) != "")
    {
      if TableOK(bans) { SetKeepsTable(bans, authID, entry, now); }
      if Filed(bans) { SetKeepsFiled(bans, authID, entry, now); }
      SetKeepsSpelled(bans, authID, entry, now);
      RequestShape(authID, entry, now);
      var id, key := Trim(authID), StorageKey(entry.email, authID);
      if key == "" { return; }
      SetRow(bans, authID, entry, now);
      ReportStores(bans, authID, entry, now);
      if Filed(bans) { MailboxSettled(bans, authID, entry, now); }
      var inc := Requested(authID, entry, now);
      hide Filed, TableOK, Spelled, RowFiled, CanonicalReport, Norm, Trim, StorageKey, Requested, Renewed, FirstRow;
      hide KeysOf, ScanIndex, Listing;
      DropStale(key, id, Mailbox(inc));
      Put(key, if key in bans then Renewed(bans[key], inc, now) else FirstRow(inc, now));
    }

    /** Resolve an id or e-mail to a row; the AuthRef scan may answer any match. */
    method Lookup(idOrEmail: string) returns (key: string, entry: Entry, ok: bool)
      requires Valid()
      ensures ok ==> key in bans && entry == bans[key]
      ensures MayAnswer(bans, idOrEmail, if ok then Some(key) else None)
      ensures Indexed() ==> Finds(bans, idOrEmail, if ok then Some(key) else None)
    {
      hide Trim, ToLower, Spelled, ScanIndex;
      var blank := Entry(0, "", "", "", "", "", 0, 0, 0);
      var q := Trim(idOrEmail);
      if q == "" { return "", blank, false; }
      if q in bans { return q, bans[q], true; }
      var low := ToLower(q);
      if low in bans { return low, bans[low], true; }
      ScanHas(bans, low);
      if low in emailIndex {
        // Every indexed key is a row, so the first one is the answer.
        assert emailIndex[low] <= KeysOf(bans, low) && emailIndex[low] != {};
        var k :| k in emailIndex[low];
        return k, bans[k], true;
      }
      var rest := bans.Keys;
      while rest != {}
        invariant rest <= bans.Keys
        invariant forall k :: k in bans && Trim(bans[k].authRef) == q ==> k in rest
      {
        var k :| k in rest;
        rest := rest - {k};
        if Trim(bans[k].authRef) == q { return k, bans[k], true; }
      }
      return "", blank, false;
    }

    /** Whether a credential is isolated at `now`. An expired row is dropped
        unless it is a 429, which stays until a recheck decides. */
    method Active(authID: string, now: Clock) returns (banned: bool)
      requires Valid()
      modifies this
      ensures Valid() && (old(Indexed()) ==> Indexed()) && (old(Exact()) ==> Exact())
      ensures exists hit: Option<string> ::
                && Answers(old(bans), authID, hit, old(Indexed()))
                && banned == AskAnswer(old(bans), hit, now)
                && bans == AskTable(old(bans), hit, now)
      ensures bans == old(bans) || dirty
    {
      hide Spelled, Filed, Indexed, Listing, MayAnswer, Finds;
      var key, entry, ok := Lookup(authID);
      ghost var hit: Option<string> := if ok then Some(key) else None;
      assert Answers(bans, authID, hit, Indexed());
      if !ok { return false; }
      RemovalKeeps(bans, {key});
      if now < entry.resetAt { return true; }
      if entry.status == TOO_MANY { return true; }
      Drop(key);
      dirty := true;
      return false;
    }

    method Clear(authID: string) returns (cleared: bool)
      requires Valid()
      modifies this
      ensures Valid() && (old(Indexed()) ==> Indexed()) && (old(Exact()) ==> Exact())
      ensures exists hit: Option<string> ::
                && Answers(old(bans), authID, hit, old(Indexed()))
                && cleared == hit.Some?
                && bans == ClearTable(old(bans), hit)
      ensures dirty == (old(dirty) || cleared)
    {
      hide Spelled, Filed, Indexed, Listing, MayAnswer, Finds;
      var key, entry, ok := Lookup(authID);
      ghost var hit: Option<string> := if ok then Some(key) else None;
      assert Answers(bans, authID, hit, Indexed());
      if !ok { return false; }
      RemovalKeeps(bans, {key});
      Drop(key);
      dirty := true;
      return true;
    }

    method ClearAll() returns (n: nat)
      modifies this
      ensures Valid() && Exact() && bans == map[] && n == |old(bans)| && dirty
    {
      n := |bans|;
      bans, emailIndex, dirty := map[], map[], true;
    }

    method ClearStatus(status: int) returns (removed: nat)
      requires Valid()
      modifies this
      ensures Valid() && (old(Indexed()) ==> Indexed()) && (old(Exact()) ==> Exact())
      ensures bans == old(bans) - RowsOfStatus(old(bans), status)
      ensures removed == Tally(RowsOfStatus(old(bans), status))
      ensures dirty == (old(dirty) || removed > 0)
    {
      hide Spelled, Filed, Indexed, Listing;
      RemovalKeeps(bans, RowsOfStatus(bans, status));
      removed := 0;
      var todo := bans.Keys;
      ghost var all, gone := RowsOfStatus(bans, status), {};
      while todo != {}
        invariant todo <= bans.Keys && Listing(bans, emailIndex) && (old(Indexed()) ==> Indexed())
        invariant gone == all - todo && dirty == old(dirty)
        invariant bans == old(bans) - gone && removed == Tally(gone)
      {
        var k :| k in todo;
        todo := todo - {k};
        if bans[k].status == status {
          Drop(k);
          TallyAdd(gone, k);
          removed, gone := removed + 1, gone + {k};
        }
      }
      assert gone == all;
      if removed > 0 { dirty := true; }
    }

    method ClearMany(authIDs: seq<string>) returns (removed: nat)
      requires Valid()
      modifies this
      ensures Valid() && (old(Indexed()) ==> Indexed()) && (old(Exact()) ==> Exact())
      ensures bans == old(bans) - RowsNamed(old(bans), authIDs)
      ensures removed == Tally(RowsNamed(old(bans), authIDs))
      ensures dirty == (old(dirty) || removed > 0)
    {
      hide Spelled, Filed, Indexed, Listing;
      RemovalKeeps(bans, RowsNamed(bans, authIDs));
      removed := 0;
      ghost var gone := {};
      for i := 0 to |authIDs|
        invariant Listing(bans, emailIndex) && (old(Indexed()) ==> Indexed()) && dirty == old(dirty)
        invariant gone == RowsNamed(old(bans), authIDs[..i])
        invariant bans == old(bans) - gone && removed == Tally(gone)
      {
        var id := Trim(authIDs[i]);
        RowsNamedStep(old(bans), authIDs, i);
        if id != "" && id in bans {
          Drop(id);
          TallyAdd(gone, id);
          removed, gone := removed + 1, gone + {id};
        }
      }
      assert authIDs[..|authIDs|] == authIDs;
      if removed > 0 { dirty := true; }
    }

    /** Release an account: its keyed row, its indexed rows and every alias row. */
    method ClearByEmail(email: string) returns (removed: nat)
      requires Valid()
      modifies this
      ensures Valid() && (old(Indexed()) ==> Indexed()) && (old(Exact()) ==> Exact())
      ensures bans == old(bans) - RowsOfEmail(old(bans), email)
      ensures removed == Tally(RowsOfEmail(old(bans), email))
      ensures dirty == (old(dirty) || removed > 0)
    {
      hide Spelled, Filed, Indexed, Listing;
      if Norm(email) == "" { return 0; }
      RemovalKeeps(bans, RowsOfEmail(bans, email));
      removed := DropEmail(email);
      if removed > 0 { dirty := true; }
    }

    /** Drop the row keyed by the e-mail, those the index lists and those a scan finds. */
    method DropEmail(email: string) returns (removed: nat)
      requires Listing(bans, emailIndex) && Norm(email) != ""
      modifies this`bans, this`emailIndex
      ensures Listing(bans, emailIndex) && (old(Indexed()) ==> Indexed())
      ensures bans == old(bans) - RowsOfEmail(old(bans), email)
      ensures removed == Tally(RowsOfEmail(old(bans), email))
    {
      hide *;
      var m := Norm(email);
      removed := 0;
      KeyedDropped(bans, m);
      if m in bans {
        Drop(m);
        removed := 1;
      }
      var listed, gone := DropIndexed(m);
      var strays := DropMailbox(m);
      ReleaseSplits(old(bans), email, gone);
      removed := removed + listed + strays;
    }

    /** Drop the rows the index lists for `m`; with an exact index, all of its rows. */
    method DropIndexed(m: string) returns (removed: nat, ghost gone: set<string>)
      requires Listing(bans, emailIndex)
      modifies this`bans, this`emailIndex
      ensures Listing(bans, emailIndex) && (old(Indexed()) ==> Indexed())
      ensures gone <= KeysOf(old(bans), m) && (old(Indexed()) && m != "" ==> gone == KeysOf(old(bans), m))
      ensures bans == old(bans) - gone && removed == Tally(gone)
    {
      hide Norm, ScanIndex, KeysOf;
      IndexLists(bans, emailIndex, m);
      ghost var all := if m in emailIndex then emailIndex[m] else {};
      removed, gone := 0, {};
      if m in emailIndex {
        var ids := emailIndex[m];
        while ids != {}
          invariant Listing(bans, emailIndex) && (old(Indexed()) ==> Indexed())
          invariant ids <= all <= old(bans).Keys && gone == all - ids
          invariant bans == old(bans) - gone && removed == Tally(gone)
        {
          var k :| k in ids;
          ids := ids - {k};
          if k in bans {
            Drop(k);
            TallyAdd(gone, k);
            removed, gone := removed + 1, gone + {k};
          }
        }
      }
      assert gone == all;
    }

    /** Drop the rows filed under `m`, found by a linear scan. */
    method DropMailbox(m: string) returns (removed: nat)
      requires Listing(bans, emailIndex)
      modifies this`bans, this`emailIndex
      ensures Listing(bans, emailIndex) && (old(Indexed()) ==> Indexed())
      ensures bans == old(bans) - KeysOf(old(bans), m)
      ensures removed == Tally(KeysOf(old(bans), m))
    {
      hide Norm, Indexed, Listing;
      ghost var all, gone := KeysOf(bans, m), {};
      removed := 0;
      var todo := bans.Keys;
      while todo != {}
        invariant todo <= bans.Keys && Listing(bans, emailIndex) && (old(Indexed()) ==> Indexed())
        invariant gone == all - todo
        invariant bans == old(bans) - gone && removed == Tally(gone)
      {
        var k :| k in todo;
        todo := todo - {k};
        if Mailbox(bans[k]) == m {
          Drop(k);
          TallyAdd(gone, k);
          removed, gone := removed + 1, gone + {k};
        }
      }
      assert gone == all;
    }

    /** The rows still in force; heals 429 rows beyond the cap and purges the rest. */
    method Snapshot(now: Clock) returns (rows: Table)
      requires Valid()
      modifies this
      ensures Valid() && (old(Indexed()) ==> Indexed()) && (old(Exact()) ==> Exact())
      ensures rows == bans == SnapTable(old(bans), now)
      ensures dirty == (old(dirty) || bans != old(bans))
    {
      SnapChanged(bans, now);
      SnapKeepsSpelled(bans, now);
      if Filed(bans) { SnapKeepsFiled(bans, now); }
      var changed;
      rows, changed := SnapRows(now);
      if changed { dirty := true; }
    }

    /** Visit every row once, collecting those still in force. */
    method SnapRows(now: Clock) returns (rows: Table, changed: bool)
      requires Listing(bans, emailIndex)
      modifies this`bans, this`emailIndex
      ensures Listing(bans, emailIndex) && (old(Indexed()) ==> Indexed())
      ensures rows == bans == SnapTable(old(bans), now)
      ensures changed <==> ChangedRows(old(bans), now) != {}
    {
      hide *;
      ghost var t := bans;
      SnapEnds(t, now);
      rows, changed := map[], false;
      var todo := bans.Keys;
      while todo != {}
        invariant Listing(bans, emailIndex) && (old(Indexed()) ==> Indexed())
        invariant todo <= t.Keys && bans == HalfSnapped(t, now, todo) && rows == SnapTable(t - todo, now)
        invariant changed <==> ChangedRows(t, now) - todo != {}
      {
        var id :| id in todo;
        SnapNext(t, now, todo, id);
        todo := todo - {id};
        var entry, kept, touched := SnapRow(id, now);
        if kept { rows := rows[id := entry]; }
        changed := changed || touched;
      }
    }

    /** Heal one row beyond the 429 cap, then keep or purge it. */
    method SnapRow(id: string, now: Clock) returns (entry: Entry, kept: bool, touched: bool)
      requires Listing(bans, emailIndex) && id in bans
      modifies this`bans, this`emailIndex
      ensures Listing(bans, emailIndex) && (old(Indexed()) ==> Indexed())
      ensures entry == Normalize(old(bans)[id], now) && kept == InForce(entry, now)
      ensures bans == if kept then old(bans)[id := entry] else old(bans) - {id}
      ensures touched == SnapChanges(old(bans)[id], now)
    {
      touched := false;
      entry := bans[id];
      if entry.status == TOO_MANY {
        var clamped := Normalize(entry, now);
        if clamped.resetAt != entry.resetAt || clamped.reason != entry.reason {
          entry := clamped;
          HealScan(bans, emailIndex, id, entry);
          bans := bans[id := entry];
          touched := true;
        }
      }
      kept := now < entry.resetAt || entry.status == TOO_MANY;
      if kept {
        assert bans == old(bans)[id := entry];
      } else {
        Drop(id);
        touched := true;
      }
    }

    /** Move the row of an auth id to the e-mail it turned out to belong to. An exact
        index, and with it one row per e-mail, survives exactly when the move fits. */
    method AttachEmail(oldKey: string, email: string, now: Clock) returns (moved: bool)
      requires Valid()
      modifies this
      ensures Valid()
      ensures bans == AttachTable(old(bans), oldKey, email, now)
      ensures old(Indexed()) ==> (Indexed() <==> Fits(old(bans), oldKey, email))
      ensures old(Exact()) ==> (Exact() <==> Fits(old(bans), oldKey, email))
      ensures old(TableOK(bans)) ==> TableOK(bans) && Fits(old(bans), oldKey, email)
      ensures moved == Attachable(old(bans), oldKey, email)
      ensures dirty == (old(dirty) || moved)
    {
      var m, from := Norm(email), Trim(oldKey);
      AttachKeepsSpelled(bans, oldKey, email, now);
      if Filed(bans) { AttachKeepsFiled(bans, oldKey, email, now); }
      if TableOK(bans) {
        AttachKeepsTable(bans, oldKey, email, now);
        AttachFits(bans, oldKey, email);
      }
      if m == "" || from == "" || m == from || from !in bans { return false; }
      MoveRow(oldKey, email, now);
      return true;
    }

    /** The move itself: the row leaves its key and joins or becomes the e-mail's. */
    method MoveRow(oldKey: string, email: string, now: Clock)
      requires Valid() && Attachable(bans, oldKey, email)
      modifies this
      ensures Listing(bans, emailIndex) && dirty
      ensures bans == AttachTable(old(bans), oldKey, email, now)
      ensures old(Indexed()) ==> (Indexed() <==> Fits(old(bans), oldKey, email))
    {
      hide Spelled, Filed, Norm, Trim, Listing, ScanIndex, Fits, KeysOf, Normalize, Joined, OrElse;
      var m, from := Norm(email), Trim(oldKey);
      AttachReady(bans, oldKey, email, now);
      var e := bans[from].(authRef := OrElse(bans[from].authRef, from), email := m);
      Drop(from);
      Put(m, Normalize(if m in bans then Joined(bans[m], e, m) else e, now));
    }

    /** Drop rows whose credential is gone; a no-op when the host list failed. */
    method Prune(live: Option<LiveIndex>) returns (removed: nat, total: nat, ok: bool)
      requires Valid()
      modifies this
      ensures Valid() && (old(Indexed()) ==> Indexed()) && (old(Exact()) ==> Exact())
      ensures ok == live.Some? && total == |old(bans)|
      ensures live.None? ==> removed == 0 && bans == old(bans)
      ensures live.Some? ==> bans == old(bans) - Orphans(old(bans), live.value)
                             && removed == Tally(Orphans(old(bans), live.value))
      ensures dirty == (old(dirty) || removed > 0)
    {
      hide Spelled, Filed, Indexed, Listing, Orphans;
      total := |bans|;
      if live.None? { return 0, total, false; }
      RemovalKeeps(bans, Orphans(bans, live.value));
      removed := DropOrphans(live.value);
      if removed > 0 { dirty := true; }
      ok := true;
    }

    method DropOrphans(idx: LiveIndex) returns (removed: nat)
      requires Listing(bans, emailIndex)
      modifies this`bans, this`emailIndex
      ensures Listing(bans, emailIndex) && (old(Indexed()) ==> Indexed())
      ensures bans == old(bans) - Orphans(old(bans), idx)
      ensures removed == Tally(Orphans(old(bans), idx))
    {
      hide MatchesLive, Indexed, Listing;
      removed := 0;
      var todo := bans.Keys;
      ghost var all, gone := Orphans(bans, idx), {};
      while todo != {}
        invariant todo <= bans.Keys && Listing(bans, emailIndex) && (old(Indexed()) ==> Indexed())
        invariant gone == all - todo
        invariant bans == old(bans) - gone && removed == Tally(gone)
      {
        var k :| k in todo;
        todo := todo - {k};
        if !MatchesLive(k, bans[k], idx) {
          Drop(k);
          TallyAdd(gone, k);
          removed, gone := removed + 1, gone + {k};
        }
      }
      assert gone == all;
    }

    /** The rows to write to disk, when anything changed since the last save. */
    method Save(now: Clock) returns (file: Option<Table>)
      modifies this`dirty
      ensures file == if old(dirty) then Some(SavedRows(bans, now)) else None
      ensures !dirty
    {
      if !dirty { return None; }
      var snap: Table := map[];
      var todo := bans.Keys;
      while todo != {}
        invariant todo <= bans.Keys
        invariant snap == SavedRows(bans - todo, now)
      {
        var k :| k in todo;
        todo := todo - {k};
        if bans[k].resetAt > now { snap := snap[k := bans[k]]; }
      }
      assert bans - todo == bans;
      dirty := false;
      return Some(snap);
    }

    /** Replace the ledger by a saved one, compacted to one row per account. */
    method Load(file: Table, now: Clock)
      modifies this
      ensures Valid() && Compacted(file, now, bans)
      ensures Exact() <==> OneGroupEach(file, now)
      ensures TableOK(bans) <==> IdsTrimmed(file, now)
      ensures dirty == (|bans| < |file|)
    {
      var best := Compact(file, now);
      LoadKeepsTable(file, now, best);
      LoadKeepsFiled(file, now, best);
      WinnersSettled(file, now, best);
      WinnersSpelled(file, now, best);
      Install(best, now);
      dirty := |bans| < |file|;
    }

    /** The best row of every account in the file. */
    static method Compact(file: Table, now: Clock) returns (best: Table)
      ensures Compacted(file, now, best)
    {
      hide Compacted;
      best := map[];
      assert Compacted(map[], now, best) by { EmptyCompacts(now); }
      var todo := file.Keys;
      assert file - todo == map[];
      while todo != {}
        invariant todo <= file.Keys
        invariant Compacted(file - todo, now, best)
      {
        var id :| id in todo;
        assert file - (todo - {id}) == (file - todo)[id := file[id]];
        ContestCompacts(file - todo, now, id, file[id], best);
        todo := todo - {id};
        best := Contest(best, id, file[id], now);
      }
      assert file - todo == file;
    }

    /** Store the winners and index them. */
    method Install(best: Table, now: Clock)
      requires Settled(best, now)
      modifies this`bans, this`emailIndex
      ensures bans == best && Listing(bans, emailIndex)
      ensures Filed(best) ==> Indexed()
    {
      hide ScanIndex, Norm, RowOK;
      bans, emailIndex := map[], map[];
      assert Indexed() by { EmptyScan(); }
      var todo := best.Keys;
      while todo != {}
        invariant todo <= best.Keys && bans == best - todo
        invariant Listing(bans, emailIndex) && (Filed(best) ==> Indexed())
      {
        var g :| g in todo;
        var e := Normalize(best[g], now);
        if Filed(best) { InstallStep(best, todo, g); }
        ReindexLists(bans, emailIndex, g, e);
        todo := todo - {g};
        bans := bans[g := e];
        IndexEmail(g, e.email);
        assert bans == best - todo;
      }
    }
  }

  // ---- Proof steps of the loops above ----

  /** A report stores its row over one with the same e-mail or none. */
  lemma ReportStores(t: Table, authID: string, entry: Entry, now: Clock)
    requires Spelled(t) && StorageKey(entry.email, authID) != ""
    ensures var key := StorageKey(entry.email, authID);
            key in t ==> Mailbox(t[key]) in {"", Mailbox(SetTable(t, authID, entry, now)[key])}
  {
    var key := StorageKey(entry.email, authID);
    RequestShape(authID, entry, now);
    SetRow(t, authID, entry, now);
    NormFacts(key);
    NormFacts(entry.email);
    if key in t { assert RowFiled(key, t[key]); }
    hide Requested, SetTable, Norm, RowFiled;
  }

  /** After the stale rows are gone the reported row is the only one of its mailbox. */
  lemma MailboxSettled(t: Table, authID: string, entry: Entry, now: Clock)
    requires Filed(t) && StorageKey(entry.email, authID) != ""
    ensures var key := StorageKey(entry.email, authID);
            var row := SetTable(t, authID, entry, now)[key];
            Mailbox(row) == "" || KeysOf(t - Superseded(t, authID, entry, now), Mailbox(row)) <= {key}
  {
    hide Norm, Requested, StorageKey, SetTable, RowFiled;
    NoRivals(t, authID, entry, now);
  }

  /** What a move finds once the row has left its old key. */
  lemma AttachReady(t: Table, oldKey: string, email: string, now: Clock)
    requires Spelled(t) && Attachable(t, oldKey, email)
    ensures var m, left := Norm(email), t - {Trim(oldKey)};
            && Mailbox(AttachTable(t, oldKey, email, now)[m]) == m != ""
            && (m in left ==> Mailbox(left[m]) == "" || Mailbox(left[m]) == m)
            && (KeysOf(left, m) <= {m} <==> Fits(t, oldKey, email))
  {
    NormFacts(email);
    AttachedMail(t, oldKey, email, now);
    AttachIndexes(t, Norm(email), Trim(oldKey));
    hide Spelled, Norm, Trim, Normalize, Joined;
  }

  /** The moved row's new e-mail is free, but for the row under that key, exactly
      when the move fits. */
  lemma AttachIndexes(t: Table, m: string, from: string)
    requires Spelled(t) && m != "" && m != from && IsNormal(m)
    ensures KeysOf(t - {from}, m) <= {m} <==> KeysOf(t, m) <= {m, from}
    ensures m in t ==> Mailbox(t[m]) == "" || Mailbox(t[m]) == m
  {
    NormFacts(m);
    if m in t { assert RowFiled(m, t[m]); }
    hide Norm, RowFiled;
    assert KeysOf(t - {from}, m) == KeysOf(t, m) - {from};
  }

  /** The row kept under the key `m`, if there is one. */
  function KeyedRow(t: Table, m: string): set<string> {
    if m in t then {m} else {}
  }

  /** The rows an index lists for `m` are rows of `m`, and all of them if it is exact. */
  lemma IndexLists(t: Table, index: EmailIndex, m: string)
    requires Listing(t, index)
    ensures var listed := if m in index then index[m] else {};
            && listed <= KeysOf(t, m) <= t.Keys
            && (index == ScanIndex(t) && m != "" ==> listed == KeysOf(t, m))
  {
    ScanHas(t, m);
  }

  lemma KeyedDropped(t: Table, m: string)
    ensures t - KeyedRow(t, m) == if m in t then t - {m} else t
    ensures Tally(KeyedRow(t, m)) == if m in t then 1 else 0
  {
    TallyIs(KeyedRow(t, m));
  }

  /** Releasing an e-mail is dropping its keyed row, then some rows of its mailbox
      and then the rest of them. */
  lemma ReleaseSplits(t: Table, email: string, gone: set<string>)
    requires Norm(email) != "" && gone <= KeysOf(t - KeyedRow(t, Norm(email)), Norm(email))
    ensures var m := Norm(email);
            var left := t - KeyedRow(t, m) - gone;
            && left - KeysOf(left, m) == t - RowsOfEmail(t, email)
            && Tally(RowsOfEmail(t, email)) == Tally(KeyedRow(t, m)) + Tally(gone) + Tally(KeysOf(left, m))
  {
    var m := Norm(email);
    var first := KeyedRow(t, m);
    var rest := KeysOf(t - first - gone, m);
    hide Norm, Tally;
    assert RowsOfEmail(t, email) == first + gone + rest;
    TallyUnion(first, gone);
    TallyUnion(first + gone, rest);
  }

  lemma EmptyScan()
    ensures ScanIndex(map[]) == map[]
  {}

  lemma EmptyCompacts(now: Clock)
    ensures Compacted(map[], now, map[])
  {}

  lemma InstallStep(best: Table, todo: set<string>, g: string)
    requires Filed(best) && g in todo && todo <= best.Keys
    ensures Reindex(ScanIndex(best - todo), g, best[g].email) == ScanIndex((best - todo)[g := best[g]])
  {
    hide Spelled, ScanIndex, Norm;
    ReindexScan(best - todo, g, best[g]);
  }

  lemma RowsNamedStep(t: Table, ids: seq<string>, i: nat)
    requires i < |ids|
    ensures var k := Trim(ids[i]);
            RowsNamed(t, ids[..i + 1]) == RowsNamed(t, ids[..i]) + (if k != "" && k in t then {k} else {})
  {
    var a, b := ids[..i], ids[..i + 1];
    forall k | k in t && k != ""
      ensures k in RowsNamed(t, b) <==> k in RowsNamed(t, a) || k == Trim(ids[i])
    {
      if k in RowsNamed(t, a) {
        var j :| 0 <= j < |a| && Trim(a[j]) == k;
        assert Trim(b[j]) == k;
      }
      if k == Trim(ids[i]) { assert Trim(b[i]) == k; }
    }
  }

  ghost function ChangedRows(t: Table, now: Clock): set<string> {
    set k | k in t && SnapChanges(t[k], now)
  }

  lemma SnapChanged(t: Table, now: Clock)
    ensures SnapTable(t, now) != t <==> ChangedRows(t, now) != {}
  {
    if ChangedRows(t, now) == {} {
      forall k | k in t ensures !SnapChanges(t[k], now) { assert k !in ChangedRows(t, now); }
      assert SnapTable(t, now) == t;
    } else {
      var k :| k in ChangedRows(t, now);
      assert k !in SnapTable(t, now) || SnapTable(t, now)[k] != t[k];
    }
  }

  /** A row's e-mail is all the index knows of it. */
  lemma HealScan(t: Table, index: EmailIndex, k: string, e: Entry)
    requires k in t && Mailbox(e) == Mailbox(t[k])
    ensures ScanIndex(t[k := e]) == ScanIndex(t)
    ensures Listing(t, index) ==> Listing(t[k := e], index)
  {
    var u := t[k := e];
    hide Norm;
    forall m ensures KeysOf(u, m) == KeysOf(t, m) && (m in ScanIndex(u) <==> m in ScanIndex(t)) {
      ScanHas(t, m);
      ScanHas(u, m);
    }
  }

  /** The table a snapshot leaves while the rows in `todo` are still as they were. */
  function HalfSnapped(t: Table, now: Clock, todo: set<string>): Table {
    map k | k in t && (k in todo || InForce(Normalize(t[k], now), now)) ::
      if k in todo then t[k] else Normalize(t[k], now)
  }

  lemma SnapEnds(t: Table, now: Clock)
    ensures HalfSnapped(t, now, t.Keys) == t
    ensures HalfSnapped(t, now, {}) == SnapTable(t, now)
    ensures SnapTable(t - t.Keys, now) == map[]
    ensures t - {} == t && ChangedRows(t, now) - t.Keys == {}
  {
    hide Normalize, InForce;
  }

  /** One turn of the snapshot's loop. */
  lemma SnapNext(t: Table, now: Clock, todo: set<string>, id: string)
    requires id in todo && todo <= t.Keys
    ensures var half, e, rest := HalfSnapped(t, now, todo), Normalize(t[id], now), todo - {id};
            var rows := SnapTable(t - todo, now);
            && id in half && half[id] == t[id]
            && HalfSnapped(t, now, rest) == (if InForce(e, now) then half[id := e] else half - {id})
            && SnapTable(t - rest, now) == (if InForce(e, now) then rows[id := e] else rows)
            && (ChangedRows(t, now) - rest != {} <==> ChangedRows(t, now) - todo != {} || SnapChanges(t[id], now))
  {
    hide Normalize, InForce, SnapChanges;
    var c := ChangedRows(t, now);
    assert c - (todo - {id}) == (c - todo) + (if SnapChanges(t[id], now) then {id} else {});
  }
}
