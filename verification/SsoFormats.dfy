/** The line formats users paste: an e-mail and a cookie, in either order, with
    any of the documented separators. */
module SsoFormats {
  import opened Text
  import opened SsoList
  import opened SsoExport
  import opened Wrappers

  /** A one-word e-mail that no format takes for anything else. */
  ghost predicate WordMail(m: string) {
    && '@' in m && PlainMail(m) && !HasPrefix(m, "eyJ")
    && (forall c :: c in m ==> !IsSpace(c)) && '|' !in m && ',' !in m
  }

  lemma WordIsTrimmed(m: string)
    requires WordMail(m)
    ensures IsTrimmed(m) && Trim(m) == m && '\t' !in m && ' ' !in m && !LooksLikeJWT(m) && !Contains(m, "---")
  {
    hide LooksLikeJWT, Contains, HasPrefix;
    assert m[0] in m && m[|m| - 1] in m;
    assert IsSpace('\t') && IsSpace(' ');
  }

  lemma NoTripleAcross(a: string, sep: char, b: string)
    requires !Contains(a, "---") && !Contains(b, "---") && sep != '-'
    ensures !Contains(a + [sep] + b, "----")
  {
    var line := a + [sep] + b;
    TripleFree(a);
    TripleFree(b);
    TripleFree(line);
    hide Contains;
    forall i ensures !TripleAt(line, i) {
      if 0 <= i && i + 3 <= |a| {
        assert !TripleAt(a, i);
      } else if 0 <= i <= |a| {
        assert line[|a|] == sep;
      } else {
        assert !TripleAt(b, i - |a| - 1);
      }
    }
  }

  lemma CutAt(a: string, sep: char, b: string)
    requires sep !in a && IsTrimmed(a) && IsTrimmed(b)
    ensures Cut(a + [sep] + b, sep) == (a, b)
  {
    var line := a + [sep] + b;
    hide Trim, IsSpace;
    assert MatchesAt(line, [sep], |a|);
    var i := Index(line, [sep]);
    assert line[i..i + 1][0] == line[i];
    assert forall j :: 0 <= j < |a| ==> line[j] == a[j] && a[j] in a;
    assert line[..i] == a && line[i + 1..] == b;
  }

  lemma {:induction false} CountAppend(s: string, t: string, c: char)
    ensures Count(s + t, c) == Count(s, c) + Count(t, c)
  {
    if s == "" {
      assert s + t == t;
    } else {
      CountAppend(s[1..], t, c);
      assert (s + t)[1..] == s[1..] + t;
    }
  }

  lemma {:induction false} TwoWords(a: string, b: string)
    requires a != "" && b != "" && (forall c :: c in a ==> !IsSpace(c)) && (forall c :: c in b ==> !IsSpace(c))
    ensures Fields(a + [' '] + b) == [a, b]
  {
    var line := a + [' '] + b;
    assert a[0] in a;
    if |a| == 1 {
      WordIsOneField(b);
      assert line[1..] == [' '] + b && line[1..][1..] == b;
      assert [a[0]] == a;
    } else {
      assert a[1] in a && line[1] == a[1];
      TwoWords(a[1..], b);
      assert line[1..] == a[1..] + [' '] + b;
      assert [a[0]] + a[1..] == a;
    }
  }

  /** A line of two parts reaches the format switch as it is. */
  lemma ReachesSwitch(a: string, sep: char, b: string)
    requires a != "" && b != "" && IsTrimmed(a) && IsTrimmed(b) && a[0] != BOM[0] && a[0] != '#'
    requires !Contains(a, "---") && !Contains(b, "---") && sep != '-'
    ensures var line := a + [sep] + b;
            && ReadLine(line) == Admit(LineFields(line).0, LineFields(line).1)
            && !Contains(line, "----")
  {
    var line := a + [sep] + b;
    NoTripleAcross(a, sep, b);
    assert line[0] == a[0] && line[|line| - 1] == b[|b| - 1];
    NotPrefix(line, BOM);
    NotPrefix(line, "#");
    hide LineFields, Admit, Contains, HasPrefix, IsSpace;
    assert IsTrimmed(line);
  }

  /** What every format below relies on. */
  lemma PairFacts(m: string, sso: string)
    requires IsToken(sso) && WordMail(m)
    ensures Trim(m) == m && Admit(sso, m) == Some(Item(sso, m))
    ensures sso != "" && m != "" && sso[0] == 'e' && m[0] != BOM[0] && m[0] != '#'
    ensures !Contains(m, "---") && !Contains(sso, "---") && !LooksLikeJWT(m) && LooksLikeJWT(sso)
    ensures IsTrimmed(m) && IsTrimmed(sso) && '@' in m && '@' !in sso
    ensures '|' !in m && '|' !in sso && '\t' !in m && '\t' !in sso && ',' !in m && ',' !in sso
  {
    TokenFacts(sso);
    WordIsTrimmed(m);
    TokenAdmits(sso, m);
    hide Contains, LooksLikeJWT, Admit, Trim, Pieces, DashParts, Count, IsSpace;
    assert !TokenChar(',');
  }

  /** The characters of a two-part line. */
  lemma PartChars(a: string, sep: char, b: string, c: char)
    ensures c in a + [sep] + b <==> c in a || c == sep || c in b
  {
    assert (a + [sep] + b)[|a|] == sep;
  }

  /** How the separators of a line without a long dash run are tried. */
  lemma SwitchOn(a: string, sep: char, b: string)
    requires !Contains(a + [sep] + b, "----") && sep !in a && IsTrimmed(a) && IsTrimmed(b)
    requires '|' !in a && '|' !in b && '\t' !in a && '\t' !in b
    ensures var f := LineFields(a + [sep] + b);
            && (sep == '|' ==> f == if LooksLikeJWT(a) || ('@' !in a && '@' in b) then (a, b)
                                    else if LooksLikeJWT(b) then (b, a) else (a, b))
            && (sep == '\t' ==> f == if LooksLikeJWT(b) || '@' in a then (b, a) else (a, b))
            && (sep != '|' && sep != '\t' ==>
                  var line := a + [sep] + b;
                  if Count(line, ',') == 1 && !HasPrefix(line, "eyJ") then
                    sep == ',' ==> f == if LooksLikeJWT(b) || '@' in a then (b, a) else (a, b)
                  else f == WordFields(line))
  {
    CutAt(a, sep, b);
    PartChars(a, sep, b, '|');
    PartChars(a, sep, b, '\t');
    hide Contains, LooksLikeJWT, Cut, WordFields, Count, HasPrefix, IsTrimmed;
  }

  lemma PipeReads(m: string, sso: string)
    requires IsToken(sso) && WordMail(m)
    ensures ReadLine(m + ['|'] + sso) == ReadLine(sso + ['|'] + m) == Some(Item(sso, m))
  {
    PairFacts(m, sso);
    ReachesSwitch(m, '|', sso);
    ReachesSwitch(sso, '|', m);
    hide IsToken, WordMail, Contains, LooksLikeJWT, Admit, ReadLine, Trim, LineFields, WordFields, Count, IsTrimmed;
    SwitchOn(m, '|', sso);
    SwitchOn(sso, '|', m);
  }

  lemma TabReads(m: string, sso: string)
    requires IsToken(sso) && WordMail(m)
    ensures ReadLine(m + ['\t'] + sso) == ReadLine(sso + ['\t'] + m) == Some(Item(sso, m))
  {
    PairFacts(m, sso);
    ReachesSwitch(m, '\t', sso);
    ReachesSwitch(sso, '\t', m);
    hide IsToken, WordMail, Contains, LooksLikeJWT, Admit, ReadLine, Trim, LineFields, WordFields, Count, IsTrimmed;
    SwitchOn(m, '\t', sso);
    SwitchOn(sso, '\t', m);
  }

  lemma Commas(a: string, sep: char, b: string)
    requires ',' !in a && ',' !in b
    ensures Count(a + [sep] + b, ',') == if sep == ',' then 1 else 0
  {
    CountAppend(a + [sep], b, ',');
    CountAppend(a, [sep], ',');
    assert [sep][1..] == "" && Count("", ',') == 0;
  }

  lemma CommaReads(m: string, sso: string)
    requires IsToken(sso) && WordMail(m)
    ensures ReadLine(m + [','] + sso) == Some(Item(sso, m))
  {
    PairFacts(m, sso);
    ReachesSwitch(m, ',', sso);
    Commas(m, ',', sso);
    MailStartsOtherwise(m, ',', sso);
    hide IsToken, WordMail, Contains, LooksLikeJWT, Admit, ReadLine;
    hide Trim, LineFields, WordFields, Count, IsTrimmed, HasPrefix;
    SwitchOn(m, ',', sso);
  }

  lemma MailStartsOtherwise(m: string, sep: char, sso: string)
    requires !HasPrefix(m, "eyJ") && sep !in "eyJ"
    ensures !HasPrefix(m + [sep] + sso, "eyJ")
  {
    var line := m + [sep] + sso;
    if |m| >= 3 {
      assert m[..3] == line[..3];
    } else if |line| >= 3 {
      assert line[..3][|m|] == sep;
      assert "eyJ"[|m|] in "eyJ";
    }
  }

  lemma PairWords(m: string, sso: string)
    requires IsToken(sso) && WordMail(m)
    ensures WordFields(m + [' '] + sso) == WordFields(sso + [' '] + m) == (sso, m)
  {
    PairFacts(m, sso);
    WordChars(m, sso);
    TwoWords(m, sso);
    TwoWords(sso, m);
    hide IsToken, WordMail, Contains, LooksLikeJWT, Admit, Fields, Trim, IsSpace, IsTrimmed, Join;
    OneJoined(m);
    OneJoined(sso);
    assert [m, sso][..1] == [m] && [sso, m][..1] == [sso];
  }

  lemma WordChars(m: string, sso: string)
    requires IsToken(sso) && WordMail(m)
    ensures (forall c :: c in m ==> !IsSpace(c)) && (forall c :: c in sso ==> !IsSpace(c))
  {
    TokenFacts(sso);
  }

  lemma OneJoined(s: string)
    ensures Join([s], "") == s
  {}

  lemma WordsRead(m: string, sso: string)
    requires IsToken(sso) && WordMail(m)
    ensures ReadLine(m + [' '] + sso) == ReadLine(sso + [' '] + m) == Some(Item(sso, m))
  {
    PairFacts(m, sso);
    PairWords(m, sso);
    ReachesSwitch(m, ' ', sso);
    ReachesSwitch(sso, ' ', m);
    Commas(m, ' ', sso);
    Commas(sso, ' ', m);
    NoSpaces(m, sso);
    hide IsToken, WordMail, Contains, LooksLikeJWT, Admit, ReadLine;
    hide Trim, LineFields, WordFields, Count, IsTrimmed, HasPrefix;
    SwitchOn(m, ' ', sso);
    SwitchOn(sso, ' ', m);
  }

  lemma NoSpaces(m: string, sso: string)
    requires IsToken(sso) && WordMail(m)
    ensures ' ' !in m && ' ' !in sso
  {
    TokenFacts(sso);
    WordIsTrimmed(m);
    hide IsToken, WordMail, Contains, LooksLikeJWT, Trim, Pieces, DashParts;
    assert IsSpace(' ');
  }

  /** Every documented separator but the comma reads an e-mail and a token in
      either order; the comma reads them with the e-mail first. */
  lemma FormatsRead(m: string, sso: string)
    requires IsToken(sso) && WordMail(m)
    ensures ReadLine(m + ['|'] + sso) == ReadLine(sso + ['|'] + m) == Some(Item(sso, m))
    ensures ReadLine(m + ['\t'] + sso) == ReadLine(sso + ['\t'] + m) == Some(Item(sso, m))
    ensures ReadLine(m + [' '] + sso) == ReadLine(sso + [' '] + m) == Some(Item(sso, m))
    ensures ReadLine(m + [','] + sso) == ReadLine(m + After(sso)) == Some(Item(sso, m))
  {
    PipeReads(m, sso);
    TabReads(m, sso);
    WordsRead(m, sso);
    CommaReads(m, sso);
    WordIsTrimmed(m);
    PlainReadsBack(m, sso);
  }

  // ---- Dashed lines in other orders ----

  lemma DashedReads(line: string, parts: seq<string>, m: string, sso: string)
    requires Admit(sso, m) == Some(Item(sso, m))
    requires line != "" && IsTrimmed(line) && line[0] != BOM[0] && line[0] != '#' && Contains(line, "----")
    requires DashParts(line) == parts && DashFields(parts) == (sso, m)
    ensures ReadLine(line) == Some(Item(sso, m))
  {
    NotPrefix(line, BOM);
    NotPrefix(line, "#");
    hide Contains, Admit, DashFields, DashParts, LooksLikeJWT, HasPrefix, IsTrimmed;
    ReadsFrom(line, line);
  }

  /** The text without the dashes at its end. */
  function Undash(s: string): (r: string)
    ensures r == "" || r[|r| - 1] != '-'
    ensures r != s ==> s != "" && s[|s| - 1] == '-'
    ensures |r| <= |s| && s == r + Dashes(|s| - |r|)
  {
    if s != "" && s[|s| - 1] == '-' then
      var r := Undash(s[..|s| - 1]);
      assert Dashes(|s| - |r|) == Dashes(|s| - 1 - |r|) + "-";
      r
    else s
  }

  lemma {:induction false} UndashToken(s: string)
    requires IsToken(s)
    ensures IsToken(Undash(s))
    decreases |s|
  {
    TokenHead(s);
    if s[|s| - 1] == '-' {
      var init := s[..|s| - 1];
      assert s[..3] == "eyJ" && s[2] == s[..3][2];
      assert init[..3] == s[..3] && s == init + "-";
      CountAppend(init, "-", '.');
      assert Count("-", '.') == 0;
      NoTripleInside(s, 0, |s| - 1);
      assert s[0..|s| - 1] == init;
      UndashToken(init);
    }
  }

  /** The e-mail without the dashes at its start. */
  function Mailpart(m: string): string { m[DashRun(m)..] }

  lemma MailpartFacts(m: string)
    requires WordMail(m)
    ensures var p := Mailpart(m);
            && p != "" && p[0] != '-' && '@' in p && IsTrimmed(p) && Trim(p) == p && Pieces(p) == [p]
            && (p == m <==> m[0] != '-')
  {
    var n := DashRun(m);
    WordIsTrimmed(m);
    var i :| 0 <= i < |m| && m[i] == '@';
    assert i >= n && m[n..][i - n] == '@';
    NoTripleInside(m, n, |m|);
    OnePiece(m[n..]);
    hide Contains, Pieces, LooksLikeJWT, PlainMail, IsSpace, HasPrefix;
    assert m[n..][0] in m && m[n..][|m| - n - 1] in m;
  }

  lemma CookieFirstFields(m: string, sso: string)
    requires IsToken(sso) && '@' in m && Trim(m) == m
    ensures DashFields([sso, m]) == (sso, m)
  {
    TokenFacts(sso);
    hide IsToken, Contains, LooksLikeJWT, Pieces, DashParts, IsSpace;
    assert [sso, m][1..] == [m] && [m][1..] == [];
    assert ScanParts([m], sso, "") == ScanParts([], sso, m) == (sso, m);
    assert ScanParts([sso, m], "", "") == ScanParts([m], sso, "");
  }

  lemma OneLongRun(y: string, n: nat, p: string)
    requires !Contains(y, "---") && (y != "" ==> y[|y| - 1] != '-') && n >= 3
    requires p != "" && p[0] != '-' && Pieces(p) == [p]
    ensures DashParts(y + (Dashes(n) + p)) == [y, p]
  {
    hide Dashes, Contains, Pieces;
    RunSplits(y, n, p);
    assert [y] + [p] == [y, p];
  }

  lemma UndashEnds(sso: string)
    requires IsToken(sso)
    ensures var y := Undash(sso); !Contains(y, "---") && (y != "" ==> y[|y| - 1] != '-')
  {
    UndashToken(sso);
    hide Contains;
  }

  /** The dashes around the separator of `sso----email` all belong to one run. */
  lemma OneRun(m: string, sso: string)
    requires IsToken(sso) && WordMail(m)
    ensures DashParts(sso + After(m)) == [Undash(sso), Mailpart(m)]
  {
    MailpartFacts(m);
    UndashEnds(sso);
    RunsJoin(m, sso);
    hide *;
    OneLongRun(Undash(sso), TouchingRun(m, sso), Mailpart(m));
  }

  /** How many dashes stand between the cookie's text and the e-mail's. */
  function TouchingRun(m: string, sso: string): (n: nat)
    ensures n >= 4
  {
    |sso| - |Undash(sso)| + 4 + DashRun(m)
  }

  lemma RunsJoin(m: string, sso: string)
    ensures sso + After(m) == Undash(sso) + (Dashes(TouchingRun(m, sso)) + Mailpart(m))
  {
    hide Undash, Dashes, DashRun, After;
    var y, d, e := Undash(sso), DashRun(m), |sso| - |Undash(sso)|;
    RunIsDashes(m);
    JoinRuns(e, 4, d);
    FourDashes(m);
    Regroup(y, Dashes(e), Dashes(4), Dashes(d), m[d..]);
  }

  lemma Regroup(a: string, b: string, c: string, d: string, e: string)
    ensures (a + b) + (c + (d + e)) == a + ((b + c + d) + e)
  {}

  lemma JoinRuns(a: nat, b: nat, c: nat)
    ensures Dashes(a) + Dashes(b) + Dashes(c) == Dashes(a + b + c)
  {}

  /** `sso----email` loses the dashes that touch its separator, and nothing else. */
  lemma CookieFirstReads(m: string, sso: string)
    requires IsToken(sso) && WordMail(m)
    ensures ReadLine(sso + After(m)) == Some(Item(Undash(sso), Mailpart(m)))
  {
    var y, p, line := Undash(sso), Mailpart(m), sso + After(m);
    OneRun(m, sso);
    MailpartFacts(m);
    UndashToken(sso);
    TokenAdmits(y, p);
    CookieFirstFields(p, y);
    SeparatorIsSeen(sso, m);
    PairFacts(m, sso);
    EndsTrimmed(sso, m);
    assert line[0] == sso[0];
    hide IsToken, WordMail, Contains, Admit, LooksLikeJWT, Pieces;
    hide IsTrimmed, DashFields, ReadLine, Undash, Mailpart, Trim;
    DashedReads(line, [y, p], p, y);
  }

  /** It reads as its pair if and only if no dash of either touches the separator. */
  lemma CookieFirstReadsIff(m: string, sso: string)
    requires IsToken(sso) && WordMail(m)
    ensures ReadLine(sso + After(m)) == Some(Item(sso, m)) <==> sso[|sso| - 1] != '-' && m[0] != '-'
  {
    CookieFirstReads(m, sso);
    MailpartFacts(m);
    hide IsToken, WordMail, ReadLine, Mailpart;
  }

  lemma PasswordFields(m: string, pass: string, sso: string)
    requires IsToken(sso) && WordMail(m) && IsTrimmed(pass) && '@' !in pass && !LooksLikeJWT(pass)
    ensures DashFields([m, pass, sso]) == (sso, m)
  {
    PairFacts(m, sso);
    hide IsToken, WordMail, Contains, Admit, LooksLikeJWT;
    assert [m, pass, sso][1..] == [pass, sso] && [pass, sso][1..] == [sso] && [sso][1..] == [];
    assert ScanParts([sso], "", m) == ScanParts([], sso, m) == (sso, m);
    assert ScanParts([pass, sso], "", m) == ScanParts([sso], "", m);
    assert ScanParts([m, pass, sso], "", "") == ScanParts([pass, sso], "", m);
  }

  /** A text the separator leaves whole. */
  predicate Segment(x: string) {
    x != "" && !Contains(x, "---") && x[0] != '-' && x[|x| - 1] != '-'
  }

  lemma ThreeParts(m: string, pass: string, sso: string)
    requires IsToken(sso) && Segment(pass) && m != "" && !Contains(m, "---") && m[|m| - 1] != '-'
    ensures DashParts(m + After(pass + After(sso))) == [m, pass, sso]
  {
    var rest := pass + After(sso);
    TokenFacts(sso);
    assert rest[0] == pass[0];
    SeparatorSplits(pass, sso);
    SeparatorSplits(m, rest);
    hide IsToken, Contains, LooksLikeJWT, Pieces, After;
    assert [m] + ([pass] + [sso]) == [m, pass, sso];
  }

  lemma ThreeStand(m: string, pass: string, sso: string)
    requires m != "" && pass != "" && sso != "" && IsTrimmed(m) && IsTrimmed(pass) && IsTrimmed(sso)
    ensures var line := m + After(pass + After(sso)); line != "" && line[0] == m[0] && IsTrimmed(line)
  {
    EndsTrimmed(pass, sso);
    EndsTrimmed(m, pass + After(sso));
    hide IsTrimmed;
  }

  /** `email----password----sso`: the password is ignored. */
  lemma PasswordIgnored(m: string, pass: string, sso: string)
    requires IsToken(sso) && WordMail(m)
    requires Segment(pass) && IsTrimmed(pass) && '@' !in pass && !LooksLikeJWT(pass)
    ensures ReadLine(m + After(pass + After(sso))) == Some(Item(sso, m))
  {
    PairFacts(m, sso);
    assert m[|m| - 1] != '-';
    hide IsToken, WordMail, Contains, Admit, LooksLikeJWT, IsTrimmed, DashFields, DashParts, After, ReadLine;
    ThreeParts(m, pass, sso);
    ThreeStand(m, pass, sso);
    SeparatorIsSeen(m, pass + After(sso));
    PasswordFields(m, pass, sso);
    DashedReads(m + After(pass + After(sso)), [m, pass, sso], m, sso);
  }

  /** The documented `sso,email` never splits: a line that starts like a token is
      not cut at its comma, and the whole line becomes the cookie. */
  lemma CommaAfterTokenIsLost(m: string, sso: string)
    requires IsToken(sso) && WordMail(m)
    ensures ReadLine(sso + [','] + m) == Some(Item(sso + [','] + m, ""))
  {
    PairFacts(m, sso);
    ReachesSwitch(sso, ',', m);
    OneLongWord(m, sso);
    hide IsToken, WordMail, Contains, LooksLikeJWT, Admit, ReadLine;
    hide Trim, LineFields, WordFields, Count, IsTrimmed, HasPrefix;
    SwitchOn(sso, ',', m);
  }

  lemma TokenThenMore(sso: string, more: string)
    requires IsToken(sso)
    ensures HasPrefix(sso + more, "eyJ") && Count(sso + more, '.') >= 2
  {
    CountAppend(sso, more, '.');
    hide Count, Contains, TokenChar;
    assert (sso + more)[..3] == sso[..3];
  }

  lemma OneLongWord(m: string, sso: string)
    requires IsToken(sso) && WordMail(m)
    ensures var line := sso + [','] + m;
            HasPrefix(line, "eyJ") && WordFields(line) == (line, "") && Admit(line, "") == Some(Item(line, ""))
  {
    var line := sso + [','] + m;
    assert line == sso + ([','] + m);
    PairFacts(m, sso);
    hide IsToken, WordMail, Contains, LooksLikeJWT, Trim, Count, Fields, Admit, IsSpace, HasPrefix, IsTrimmed;
    NoTripleAcross(sso, ',', m);
    TokenThenMore(sso, [','] + m);
    LongWord(m, sso);
    TokenLikeAdmits(line);
  }

  lemma LongWord(m: string, sso: string)
    requires IsToken(sso) && WordMail(m)
    ensures var line := sso + [','] + m;
            line != "" && IsTrimmed(line) && Fields(line) == [line]
  {
    var line := sso + [','] + m;
    TokenFacts(sso);
    hide IsToken, Contains, LooksLikeJWT, Trim, Pieces, DashParts, PlainMail;
    assert !IsSpace(',');
    assert forall c :: c in line ==> !IsSpace(c);
    hide IsSpace;
    assert line[0] in line && line[|line| - 1] in line;
    WordIsOneField(line);
  }

  lemma TokenLikeAdmits(s: string)
    requires HasPrefix(s, "eyJ") && Count(s, '.') >= 2 && IsTrimmed(s) && !Contains(s, "----")
    ensures Admit(s, "") == Some(Item(s, ""))
  {
    TokenHead(s);
    LowerAt(s);
    NotPrefix(ToLower(s), "sso=");
    hide LooksLikeJWT, ToLower, Count;
  }

  /** A token-like cookie, whether or not it starts with `eyJ`. */
  ghost predicate IsCookie(s: string) {
    LooksLikeJWT(s) && (forall c :: c in s ==> TokenChar(c)) && !Contains(s, "---")
  }

  lemma CookieFacts(s: string)
    requires IsCookie(s)
    ensures s != "" && IsTrimmed(s) && Trim(s) == s && s[0] != BOM[0] && s[0] != '#'
    ensures '@' !in s && '|' !in s && '\t' !in s && ',' !in s && '=' !in s
    ensures HasPrefix(s, "eyJ") <==> IsToken(s)
  {
    TokenChars(s);
    assert !LooksLikeJWT("") by { assert Trim("") == ""; }
    assert !TokenChar(',') && !TokenChar('=') && !TokenChar('#') && !TokenChar(BOM[0]);
    assert s[0] in s && s[|s| - 1] in s;
    hide Contains, Split, IsSpace, TokenChar, Count;
    assert Trim(s) == s;
  }

  lemma CookieAdmits(s: string, email: string)
    requires IsCookie(s)
    ensures Admit(s, email) == Some(Item(s, Trim(email)))
  {
    CookieFacts(s);
    LowerAt(s);
    TripleFree(s);
    assert !HasPrefix(ToLower(s), "sso=") by {
      if |s| >= 4 { assert ToLower(s)[..4][3] == LowerChar(s[3]) && s[3] in s; }
    }
    hide LooksLikeJWT, Trim, ToLower;
  }

  lemma CookieCut(m: string, c: string)
    requires IsCookie(c) && WordMail(m) && !HasPrefix(c, "eyJ")
    ensures ReadLine(c + [','] + m) == Some(Item(c, m))
  {
    CookieFacts(c);
    CookieAdmits(c, m);
    WordIsTrimmed(m);
    Commas(c, ',', m);
    MailStartsOtherwise(c, ',', m);
    ReachesSwitch(c, ',', m);
    hide IsToken, WordMail, Contains, Admit, ReadLine, Trim, LineFields, WordFields, Count, IsTrimmed, HasPrefix;
    hide TokenChar, LooksLikeJWT;
    SwitchOn(c, ',', m);
  }

  /** `cookie,email` is cut at its comma if and only if the line does not start
      with `eyJ`. */
  lemma CommaFormatIff(m: string, c: string)
    requires IsCookie(c) && WordMail(m)
    ensures ReadLine(c + [','] + m) == Some(Item(c, m)) <==> !HasPrefix(c, "eyJ")
  {
    CookieFacts(c);
    if HasPrefix(c, "eyJ") {
      CommaAfterTokenIsLost(m, c);
      assert |c + [','] + m| > |c|;
    } else {
      CookieCut(m, c);
    }
  }
}
