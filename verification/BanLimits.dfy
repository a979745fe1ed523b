/** Concrete runs that leave the guarantees once their side conditions fail. */
module BanLimits {
  import opened Text
  import opened BanTable
  import opened BanRuns

  function Row(status: int, email: string, resetAt: Time): Entry {
    Entry(status, "", "usage", email, "", "", 1, resetAt, 1)
  }

  lemma LowerOf(s: string, low: string)
    requires |s| == |low| && forall i :: 0 <= i < |s| ==> LowerChar(s[i]) == low[i]
    ensures ToLower(s) == low
  {
    LowerAt(s);
  }

  lemma Spellings()
    ensures ToLower("E@x") == "e@x" && ToLower("e@x") == "e@x" && ToLower("auth-1") == "auth-1"
    ensures Norm("E@x") == "e@x" && Norm("e@x") == "e@x" && Norm("auth-1") == "auth-1"
    ensures "E@x" != "e@x" && '@' in "E@x" && "auth-1" != "E@x" && "auth-1" != "e@x"
  {
    LowerOf("E@x", "e@x");
    LowerOf("e@x", "e@x");
    LowerOf("auth-1", "auth-1");
    assert "E@x"[1] == '@' && "E@x"[0] == 'E' && "e@x"[0] == 'e' && "auth-1"[0] == 'a';
  }

  lemma ReportUnderUpperCaseId(now: Clock)
    requires now > 10
    ensures SetTable(map["auth-1" := Row(401, "", 5)], "E@x", Row(402, "", now + PAYMENT), now)
         == map["auth-1" := Row(401, "", 5),
                "E@x" := Row(402, "E@x", now + PAYMENT).(authRef := "E@x")]
    ensures !CanonicalReport("E@x", Row(402, "", now + PAYMENT))
  {
    Spellings();
    hide ToLower;
    assert Norm("") == "";
    assert Superseded(map["auth-1" := Row(401, "", 5)], "E@x", Row(402, "", now + PAYMENT), now) == {};
  }

  lemma HealIntoLowerCase(now: Clock, paid: Entry)
    ensures AttachTable(map["auth-1" := Row(401, "", 5), "E@x" := paid], "auth-1", "e@x", now)
         == map["E@x" := paid, "e@x" := Row(401, "e@x", 5).(authRef := "auth-1")]
  {
    Spellings();
  }

  lemma OneMaillessRow()
    ensures TableOK(map["auth-1" := Row(401, "", 5)])
  {
    assert Norm("") == "";
  }

  lemma HealCollides(now: Clock)
    requires now > 10
    ensures var t1 := SetTable(map["auth-1" := Row(401, "", 5)], "E@x", Row(402, "", now + PAYMENT), now);
            Filed(t1) && !Fits(t1, "auth-1", "e@x")
  {
    hide SetTable, ToLower, Filed, TableOK, RowOK, Requested, Renewed, FirstRow, CanonicalReport;
    var t0: Table := map["auth-1" := Row(401, "", 5)];
    var t1 := SetTable(t0, "E@x", Row(402, "", now + PAYMENT), now);
    Spellings();
    ReportUnderUpperCaseId(now);
    OneMaillessRow();
    OKIsFiled(t0);
    SetKeepsFiled(t0, "E@x", Row(402, "", now + PAYMENT), now);
    assert "E@x" in KeysOf(t1, "e@x");
  }

  /** A mail-less report whose id is an upper-case address, then a heal: the
      address owns two rows, and the question finds the expired one. */
  lemma UpperCaseIdSplitsTheAccount(now: Clock)
    requires now > 10
    ensures var t0: Table := map["auth-1" := Row(401, "", 5)];
            var t1 := SetTable(t0, "E@x", Row(402, "", now + PAYMENT), now);
            var t2 := AttachTable(t1, "auth-1", "e@x", now);
            && TableOK(t0) && Filed(t1) && !CanonicalReport("E@x", Row(402, "", now + PAYMENT))
            && !Fits(t1, "auth-1", "e@x")
            && KeysOf(t2, "e@x") == {"E@x", "e@x"} && InForce(t2["E@x"], now)
            && forall hit :: MayAnswer(t2, "e@x", hit) ==> !AskAnswer(t2, hit, now)
  {
    hide SetTable, AttachTable, ToLower, Fits, Filed, TableOK, CanonicalReport, MayAnswer;
    var paid := Row(402, "E@x", now + PAYMENT).(authRef := "E@x");
    var t2: Table := map["E@x" := paid, "e@x" := Row(401, "e@x", 5).(authRef := "auth-1")];
    Spellings();
    OneMaillessRow();
    ReportUnderUpperCaseId(now);
    HealIntoLowerCase(now, paid);
    HealCollides(now);
    assert KeysOf(t2, "e@x") == {"E@x", "e@x"};
    assert IsNormal("e@x");
    forall hit | MayAnswer(t2, "e@x", hit) ensures !AskAnswer(t2, hit, now) {
      FindsByEmail(t2, "e@x", hit);
    }
  }

  // ---- Names without an `@` ----

  /** From event `k` on, the account `m` is held and every event spares it. */
  ghost predicate SparingRun(s: Ledger, evs: seq<Event>, k: nat, m: string, since: Time) {
    && Sound(s) && LegalRun(s, evs) && k <= |evs|
    && Held(Run(s, evs[..k]).bans, m, since + RATE_FIXED)
    && forall i :: k <= i < |evs| ==> Spares(evs[i], m) && InWindow(evs[i], m, since)
  }

  /** Every run that spares an isolated account `m` leaves it isolated. */
  ghost predicate IsolationLasts(m: string) {
    forall s: Ledger, evs: seq<Event>, k: nat, since: Time ::
      SparingRun(s, evs, k, m, since) ==> Held(Run(s, evs).bans, m, since + RATE_FIXED)
  }

  /** A heal collects the mail-less row `m`; a report gives that very name a
      402; the heal then moves the row to the address it had resolved. */
  function HealedAway(m: string): seq<Event> {
    [HealCollect, Report(10, "", Row(402, m, 10 + PAYMENT)), HealAttach(10, m, "a@x")]
  }

  function Mailless(m: string): Ledger { Ledger(map[m := Row(401, "", 5)], {}) }

  lemma RunOfThree(s: Ledger, a: Event, b: Event, c: Event)
    ensures Run(s, [a]) == Step(s, a) && Run(s, [a, b]) == Step(Step(s, a), b)
    ensures Run(s, [a, b, c]) == Step(Step(Step(s, a), b), c)
    ensures LegalRun(s, [a, b, c]) <==> Legal(s, a) && Legal(Step(s, a), b) && Legal(Step(Step(s, a), b), c)
  {
    assert [a, b, c][..2] == [a, b] && [a, b][..1] == [a] && [a][..0] == [];
    hide Step, Legal;
    assert Run(s, []) == s && LegalRun(s, []);
    assert Run(s, [a]) == Step(s, a) && LegalRun(s, [a]) == Legal(s, a);
    assert Run(s, [a, b]) == Step(Step(s, a), b);
    assert LegalRun(s, [a, b]) == (Legal(s, a) && Legal(Step(s, a), b));
  }

  lemma PaidRow(m: string)
    requires IsNormal(m) && m != "" && '@' !in m
    ensures SetTable(Mailless(m).bans, "", Row(402, m, 10 + PAYMENT), 10)
         == map[m := Row(402, m, 10 + PAYMENT).(failCount := 2)]
    ensures Trim("") == "" && Norm(m) == m && Mailbox(Row(401, "", 5)) == ""
  {
    NormFacts(m);
    assert Norm("") == "";
    hide ToLower;
    assert Superseded(Mailless(m).bans, "", Row(402, m, 10 + PAYMENT), 10) == {};
  }

  lemma HealMoves(m: string)
    requires IsNormal(m) && m != "" && '@' !in m
    ensures var t := map[m := Row(402, m, 10 + PAYMENT).(failCount := 2)];
            m !in AttachTable(t, m, "a@x", 10)
  {
    LowerOf("a@x", "a@x");
    assert Norm("a@x") == "a@x" && "a@x"[1] == '@';
    hide ToLower, Normalize;
  }

  lemma BareNameIsHealedAway(m: string)
    requires IsNormal(m) && m != "" && '@' !in m
    ensures SparingRun(Mailless(m), HealedAway(m), 2, m, 10)
    ensures m !in Run(Mailless(m), HealedAway(m)).bans
  {
    var s, evs := Mailless(m), HealedAway(m);
    RunOfThree(s, evs[0], evs[1], evs[2]);
    PaidRow(m);
    HealMoves(m);
    assert evs[..2] == [evs[0], evs[1]];
    assert Sound(s) by { assert RowFiled(m, Row(401, "", 5)); }
    hide SetTable, AttachTable, Sound, LegalRun, Run, ToLower;
  }

  /** A normalised name keeps its isolation over every sparing run if and only if
      it is an address. */
  lemma IsolationLastsIff(m: string)
    requires IsNormal(m) && m != ""
    ensures IsolationLasts(m) <==> '@' in m
  {
    if '@' in m {
      forall s: Ledger, evs: seq<Event>, k: nat, since: Time | SparingRun(s, evs, k, m, since)
        ensures Held(Run(s, evs).bans, m, since + RATE_FIXED)
      {
        IsolationOverRuns(s, evs, k, m, since);
      }
    } else {
      BareNameIsHealedAway(m);
      hide Run, SparingRun;
      assert !Held(Run(Mailless(m), HealedAway(m)).bans, m, 10 + RATE_FIXED);
    }
  }
}
