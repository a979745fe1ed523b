/** Printing the vault as an SSO list, and reading it back. */
module SsoExport {
  import opened Text
  import opened Sorting
  import opened SsoList
  import opened Vault
  import opened Wrappers

  // ---- Substrings and triple dashes ----

  predicate TripleAt(s: string, i: int) {
    0 <= i && i + 3 <= |s| && s[i] == '-' && s[i + 1] == '-' && s[i + 2] == '-'
  }

  lemma TripleMatches(s: string, i: int)
    ensures MatchesAt(s, "---", i) <==> TripleAt(s, i)
    ensures MatchesAt(s, "----", i) ==> TripleAt(s, i)
  {
    if 0 <= i && i + 3 <= |s| {
      var t := s[i..i + 3];
      assert t[0] == s[i] && t[1] == s[i + 1] && t[2] == s[i + 2];
    }
    if 0 <= i && i + 4 <= |s| {
      var t := s[i..i + 4];
      assert t[0] == s[i] && t[1] == s[i + 1] && t[2] == s[i + 2];
    }
  }

  /** A text has no triple dash exactly when no position starts one. */
  lemma TripleFree(s: string)
    ensures !Contains(s, "---") <==> forall i :: !TripleAt(s, i)
    ensures !Contains(s, "---") ==> !Contains(s, "----")
  {
    forall i ensures (MatchesAt(s, "---", i) <==> TripleAt(s, i)) && (MatchesAt(s, "----", i) ==> TripleAt(s, i)) {
      TripleMatches(s, i);
    }
    if !Contains(s, "---") {
      forall i ensures !TripleAt(s, i) { assert 0 <= i ==> !MatchesAt(s, "---", i); }
    }
  }

  lemma NoTripleInside(s: string, i: nat, j: nat)
    requires i <= j <= |s| && !Contains(s, "---")
    ensures !Contains(s[i..j], "---") && Index(s[i..j], "----") == -1
    ensures j == |s| ==> s[i..j] == s[i..]
  {
    TripleFree(s);
    TripleFree(s[i..j]);
    forall k ensures !TripleAt(s[i..j], k) { assert !TripleAt(s, i + k); }
  }

  lemma {:induction false} TrimIsSlice(s: string) returns (i: nat)
    ensures i + |Trim(s)| <= |s| && Trim(s) == s[i..i + |Trim(s)|]
    decreases |s|
  {
    if s == "" {
      i := 0;
    } else if IsSpace(s[0]) {
      i := TrimIsSlice(s[1..]);
      i := i + 1;
    } else if IsSpace(s[|s| - 1]) {
      i := TrimIsSlice(s[..|s| - 1]);
    } else {
      i := 0;
    }
  }

  lemma NoTripleTrimmed(s: string)
    requires !Contains(s, "---")
    ensures !Contains(Trim(s), "---") && Index(Trim(s), "----") == -1
  {
    var i := TrimIsSlice(s);
    NoTripleInside(s, i, i + |Trim(s)|);
  }

  // ---- The printed line and its parts ----

  /** A token in compact serialization: `eyJ`, at least two dots, base64url, no `---`. */
  predicate TokenChar(c: char) {
    'a' <= c <= 'z' || 'A' <= c <= 'Z' || '0' <= c <= '9' || c == '-' || c == '_' || c == '.'
  }

  ghost predicate IsToken(s: string) {
    && HasPrefix(s, "eyJ") && Count(s, '.') >= 2
    && (forall c :: c in s ==> TokenChar(c))
    && !Contains(s, "---")
  }

  lemma TokenChars(s: string)
    requires forall c :: c in s ==> TokenChar(c)
    ensures '@' !in s && '\n' !in s && '\t' !in s && '|' !in s && forall c :: c in s ==> !IsSpace(c)
  {
    forall c | TokenChar(c) ensures !IsSpace(c) {}
  }

  lemma TokenHead(s: string)
    requires HasPrefix(s, "eyJ")
    ensures |s| >= 3 && s[0] == 'e'
  {
    assert s[..3] == "eyJ" && s[0] == s[..3][0];
  }

  lemma TokenFacts(s: string)
    requires IsToken(s)
    ensures |s| >= 3 && s[0] == 'e' && IsTrimmed(s) && LooksLikeJWT(s)
    ensures '@' !in s && '\n' !in s && '\t' !in s && '|' !in s && forall c :: c in s ==> !IsSpace(c)
    ensures DashParts(s) == [s] && Pieces(s) == [s]
  {
    hide Pieces, Contains, Split, Trim, Count, TokenChar, IsSpace, HasPrefix;
    OnePiece(s);
    TokenChars(s);
    TokenHead(s);
    assert s[0] in s && s[|s| - 1] in s;
  }

  lemma {:induction false} OnePiece(s: string)
    requires !Contains(s, "---")
    ensures Pieces(s) == [s]
    decreases |s|
  {
    if s == "" {
    } else if s[0] != '-' {
      NoTripleInside(s, 1, |s|);
      OnePiece(s[1..]);
      assert s == [s[0]] + s[1..];
    } else {
      var n := DashRun(s);
      TripleFree(s);
      assert n >= 3 ==> TripleAt(s, 0);
      NoTripleInside(s, n, |s|);
      OnePiece(s[n..]);
      assert s == s[..n] + s[n..];
    }
  }

  /** The separator and what follows it. */
  function After(rest: string): string { "----" + rest }

  lemma GlueHead(head: string, first: string, tail: seq<string>)
    ensures Glue(head, [first] + tail) == [head + first] + tail
  {
    assert ([first] + tail)[1..] == tail;
  }

  lemma RunAlone(n: nat, rest: string)
    requires n >= 3 && rest != "" && rest[0] != '-'
    ensures Pieces(Dashes(n) + rest) == [""] + Pieces(rest)
  {
    RunThenRest(Dashes(n) + rest, n);
    assert (Dashes(n) + rest)[n..] == rest;
  }

  lemma SeparatorAlone(rest: string)
    requires rest != "" && rest[0] != '-'
    ensures Pieces(After(rest)) == [""] + Pieces(rest)
  {
    RunAlone(4, rest);
    FourDashes(rest);
  }

  lemma FourDashes(rest: string)
    ensures After(rest) == Dashes(4) + rest
  {}

  lemma AllDashes(x: string, rest: string)
    requires rest != "" && rest[0] != '-' && DashRun(x) == |x|
    ensures Pieces(x + After(rest)) == [""] + Pieces(rest)
  {
    var line, n := x + After(rest), |x| + 4;
    RunThenRest(line, n);
    assert line[n..] == rest;
  }

  /** A leading short run, or a leading character, goes to the first piece. */
  lemma PiecesOfHead(x: string, tail: string)
    requires x != "" && (x[0] == '-' ==> DashRun(x) < |x|)
    ensures x[0] != '-' ==> Pieces(x + tail) == Glue([x[0]], Pieces(x[1..] + tail))
    ensures x[0] == '-' ==> var n := DashRun(x);
              n > 0 && Pieces(x + tail) ==
                if n >= 3 then [""] + Pieces(x[n..] + tail) else Glue(x[..n], Pieces(x[n..] + tail))
  {
    var line := x + tail;
    assert line[0] == x[0];
    if x[0] != '-' {
      assert line[1..] == x[1..] + tail;
    } else {
      var n := DashRun(x);
      RunThenRest(line, n);
      assert line[n..] == x[n..] + tail && line[..n] == x[..n];
    }
  }

  /** The leading short run of a text without triple or trailing dashes, or its
      first character. */
  lemma ShortHead(x: string)
    requires x != "" && !Contains(x, "---") && x[|x| - 1] != '-'
    ensures var k := if x[0] == '-' then DashRun(x) else 1;
            && 0 < k <= |x| && (x[0] == '-' ==> k < |x| && k < 3) && (x[0] != '-' ==> x[..k] == [x[0]])
            && !Contains(x[k..], "---") && (x[k..] != "" ==> x[k..][|x[k..]| - 1] != '-')
            && x[..k] + x[k..] == x
  {
    var k := if x[0] == '-' then DashRun(x) else 1;
    TripleFree(x);
    NoTripleInside(x, k, |x|);
    hide Contains;
    assert k >= 3 ==> TripleAt(x, 0);
    assert x[k..|x|] == x[k..];
  }

  /** A long run splits after a text without triple or trailing dashes. */
  lemma {:induction false} RunSplits(x: string, n: nat, rest: string)
    requires !Contains(x, "---") && (x != "" ==> x[|x| - 1] != '-') && n >= 3 && rest != "" && rest[0] != '-'
    ensures Pieces(x + (Dashes(n) + rest)) == [x] + Pieces(rest)
    decreases |x|
  {
    hide Contains, Dashes, Pieces, TripleAt, DashRun, Glue;
    var tail := Dashes(n) + rest;
    if x == "" {
      RunAlone(n, rest);
      assert x + tail == tail;
    } else {
      var k := if x[0] == '-' then DashRun(x) else 1;
      ShortHead(x);
      PiecesOfHead(x, tail);
      RunSplits(x[k..], n, rest);
      GlueHead(x[..k], x[k..], Pieces(rest));
    }
  }

  /** So does the separator. */
  lemma SeparatorSplits(x: string, rest: string)
    requires !Contains(x, "---") && (x != "" ==> x[|x| - 1] != '-') && rest != "" && rest[0] != '-'
    ensures Pieces(x + After(rest)) == [x] + Pieces(rest)
  {
    RunSplits(x, 4, rest);
    FourDashes(rest);
  }

  /** How long a piece taken from `x` can be: a trailing dash joins the separator. */
  function Room(x: string): nat {
    if x != "" && x[|x| - 1] == '-' then |x| - 1 else |x|
  }

  /** The first piece is at most `n` long, and so is each other one not in `known`. */
  predicate Within(ps: seq<string>, known: seq<string>, n: nat) {
    && ps != [] && |ps[0]| <= n
    && forall i :: 0 <= i < |ps| ==> ps[i] in known || |ps[i]| <= n
  }

  lemma WithinAlone(known: seq<string>, n: nat)
    ensures Within([""] + known, known, n)
  {}

  lemma WithinMore(ps: seq<string>, known: seq<string>, n: nat, head: string, m: nat)
    requires Within(ps, known, n) && n + |head| <= m
    ensures Within([""] + ps, known, m) && Within(Glue(head, ps), known, m)
  {}

  lemma RoomAhead(x: string, n: nat)
    requires 0 < n <= |x| && (n == |x| ==> x[|x| - 1] != '-')
    ensures n + Room(x[n..]) <= Room(x)
  {}

  /** Whatever `x` is, each piece comes from `rest` or fits into `x` without its
      trailing dash. */
  lemma {:induction false} PieceBound(x: string, rest: string)
    requires rest != "" && rest[0] != '-'
    ensures Within(Pieces(x + After(rest)), Pieces(rest), Room(x))
    decreases |x|
  {
    hide Pieces, After, Within, Glue, DashRun, Room;
    if x == "" {
      SeparatorAlone(rest);
      assert x + After(rest) == After(rest);
      WithinAlone(Pieces(rest), Room(x));
    } else if x[0] == '-' && DashRun(x) == |x| {
      AllDashes(x, rest);
      WithinAlone(Pieces(rest), Room(x));
    } else {
      var n := if x[0] == '-' then DashRun(x) else 1;
      assert n == 1 ==> x[..n] == [x[0]];
      PiecesOfHead(x, After(rest));
      PieceBound(x[n..], rest);
      RoomAhead(x, n);
      WithinMore(Pieces(x[n..] + After(rest)), Pieces(rest), Room(x[n..]), x[..n], Room(x));
    }
  }

  // ---- What the reader makes of the parts ----

  lemma {:induction false} ScanYieldsParts(parts: seq<string>, sso: string, email: string)
    ensures var (s, e) := ScanParts(parts, sso, email);
            && (s == sso || exists i :: 0 <= i < |parts| && s == Trim(parts[i]))
            && (e == email || exists i :: 0 <= i < |parts| && e == Trim(parts[i]))
  {
    hide LooksLikeJWT, Trim;
    if parts != [] {
      var p, rest := Trim(parts[0]), parts[1..];
      var sso', email' := if p != "" && LooksLikeJWT(p) && sso == "" then p else sso,
                          if p != "" && !(LooksLikeJWT(p) && sso == "") && '@' in p && email == "" then p else email;
      ScanYieldsParts(rest, sso', email');
      var (s, e) := ScanParts(rest, sso', email');
      assert ScanParts(parts, sso, email) == (s, e);
      if s != sso' {
        var i :| 0 <= i < |rest| && s == Trim(rest[i]);
        assert s == Trim(parts[i + 1]);
      }
      if e != email' {
        var i :| 0 <= i < |rest| && e == Trim(rest[i]);
        assert e == Trim(parts[i + 1]);
      }
    }
  }

  /** The fields of a dashed line are blank or one of its trimmed parts. */
  lemma FieldsAreParts(parts: seq<string>)
    ensures var (s, e) := DashFields(parts);
            && (s == "" || exists i :: 0 <= i < |parts| && s == Trim(parts[i]))
            && (e == "" || exists i :: 0 <= i < |parts| && e == Trim(parts[i]))
  {
    ScanYieldsParts(parts, "", "");
  }

  /** A cookie without triple dashes is admitted with the e-mail it came with. */
  lemma AdmitKeepsMail(sso: string, email: string)
    requires !Contains(sso, "---")
    ensures Admit(sso, email).Some? ==> Admit(sso, email).value.email == Trim(email)
  {
    NoTripleTrimmed(sso);
    var s := Trim(sso);
    if |s| >= 4 {
      NoTripleInside(s, 4, |s|);
      assert s[4..|s|] == s[4..];
      NoTripleTrimmed(s[4..]);
    }
  }

  lemma DashedFields(line: string)
    requires Contains(line, "----")
    ensures LineFields(line) == DashFields(DashParts(line))
  {}

  lemma PartFree(line: string, field: string)
    requires field == "" || exists i :: 0 <= i < |DashParts(line)| && field == Trim(DashParts(line)[i])
    ensures !Contains(field, "---")
    ensures field == "" || exists i :: 0 <= i < |Pieces(line)| && field == Trim(Pieces(line)[i])
  {
    if field == "" {
      TripleFree("");
    } else {
      var i :| 0 <= i < |DashParts(line)| && field == Trim(DashParts(line)[i]);
      PartsHaveNoTriple(line);
      NoTripleTrimmed(DashParts(line)[i]);
      hide Contains, Trim;
      assert DashParts(line)[i] == Pieces(line)[i];
    }
  }

  /** A dashed line reads as one of its trimmed parts, or no e-mail at all. */
  lemma MailIsPart(line: string)
    requires Contains(line, "----")
    ensures var (sso, email) := LineFields(line);
            Admit(sso, email).Some? ==>
              var m := Admit(sso, email).value.email;
              m == "" || exists i :: 0 <= i < |Pieces(line)| && m == Trim(Pieces(line)[i])
  {
    DashedFields(line);
    FieldsAreParts(DashParts(line));
    hide LineFields, Admit, Pieces, Contains, DashFields, DashParts;
    var (sso, email) := LineFields(line);
    PartFree(line, sso);
    PartFree(line, email);
    AdmitKeepsMail(sso, email);
    assert Trim(email) == email;
  }

  // ---- One printed line ----

  /** The exporter's line: `email----sso`, or the bare cookie. */
  function PrintLine(it: Item): string {
    if it.email == "" then it.sso else it.email + After(it.sso)
  }

  /** An e-mail the reader takes for an e-mail, and for nothing else. */
  predicate PlainMail(m: string) {
    && m != "" && m[0] != '#' && m[0] != BOM[0] && m[|m| - 1] != '-'
    && !Contains(m, "---") && !LooksLikeJWT(m)
  }

  lemma TokenAdmits(sso: string, email: string)
    requires IsToken(sso)
    ensures Admit(sso, email) == Some(Item(sso, Trim(email)))
  {
    TokenFacts(sso);
    TripleFree(sso);
    LowerAt(sso);
    assert ToLower(sso)[0] == 'e';
    NotPrefix(ToLower(sso), "sso=");
    hide LooksLikeJWT, Trim, ToLower;
  }

  lemma SeparatorIsSeen(y: string, sso: string)
    ensures Contains(y + After(sso), "----")
  {
    var line := y + After(sso);
    assert line[|y|..|y| + 4] == "----";
    assert MatchesAt(line, "----", |y|);
  }

  lemma TwoParts(m: string, sso: string)
    requires IsToken(sso) && !Contains(m, "---") && m != "" && m[|m| - 1] != '-'
    ensures DashParts(m + After(sso)) == [m, sso]
  {
    TokenFacts(sso);
    SeparatorSplits(m, sso);
  }

  lemma EndsTrimmed(a: string, b: string)
    requires a != "" && b != "" && IsTrimmed(a) && IsTrimmed(b)
    ensures IsTrimmed(a + After(b))
  {
    hide IsSpace;
    var line := a + After(b);
    assert line[0] == a[0] && line[|line| - 1] == b[|b| - 1];
  }

  lemma LineStands(m: string, sso: string)
    requires IsToken(sso) && m != "" && IsTrimmed(m)
    ensures Trim(m + After(sso)) == m + After(sso)
  {
    TokenFacts(sso);
    hide IsToken, IsTrimmed, LooksLikeJWT, DashParts, Pieces, Trim, After;
    EndsTrimmed(m, sso);
  }

  lemma ReadsFrom(line0: string, line: string)
    requires line == Trim(TrimPrefix(line0, BOM)) && Contains(line, "----")
    ensures ReadLine(line0) ==
              if IsComment(line) then None
              else Admit(DashFields(DashParts(line)).0, DashFields(DashParts(line)).1)
  {}

  /** A plain e-mail's line reads back as it was printed. */
  lemma PlainReadsBack(m: string, sso: string)
    requires IsToken(sso) && '@' in m && IsTrimmed(m) && PlainMail(m)
    ensures ReadLine(m + After(sso)) == Some(Item(sso, m))
  {
    var line := m + After(sso);
    assert line[0] == m[0];
    NotPrefix(line, BOM);
    LineStands(m, sso);
    SeparatorIsSeen(m, sso);
    TwoParts(m, sso);
    TokenFacts(sso);
    ReadsFrom(line, line);
    NotPrefix(line, "#");
    TokenAdmits(sso, m);
    PlainFields(m, sso);
  }

  lemma PlainFields(m: string, sso: string)
    requires IsToken(sso) && '@' in m && IsTrimmed(m) && !LooksLikeJWT(m)
    ensures DashFields([m, sso]) == (sso, m)
  {
    TokenFacts(sso);
    hide LooksLikeJWT, IsSpace;
    assert [m, sso][1..] == [sso];
    assert ScanParts([sso], "", m) == (sso, m) by { assert ScanParts([], sso, m) == (sso, m); assert [sso][1..] == []; }
    assert ScanParts([m, sso], "", "") == ScanParts([sso], "", m);
  }

  lemma JWTFields(m: string, sso: string)
    requires IsToken(sso) && '@' in m && IsTrimmed(m) && LooksLikeJWT(m)
    ensures DashFields([m, sso]) == (m, m)
  {
    TokenFacts(sso);
    hide LooksLikeJWT, IsSpace;
    assert [m, sso][1..] == [sso];
    assert ScanParts([sso], m, "") == (m, "") by { assert ScanParts([], m, "") == (m, ""); assert [sso][1..] == []; }
    assert ScanParts([m, sso], "", "") == ScanParts([sso], m, "");
  }

  /** A cookie with an `@` stays one with an `@`. */
  lemma AdmitKeepsAt(sso: string, email: string)
    requires '@' in sso && !Contains(sso, "---")
    ensures Admit(sso, email).Some? ==> '@' in Admit(sso, email).value.sso
  {
    TrimChars(sso, '@');
    NoTripleTrimmed(sso);
    var s := Trim(sso);
    if |s| >= 4 && HasPrefix(ToLower(s), "sso=") {
      LowerAt(s);
      assert ToLower(s)[..4] == "sso=";
      assert forall i :: 0 <= i < 4 ==> LowerChar(s[i]) == "sso="[i];
      var i :| 0 <= i < |s| && s[i] == '@';
      assert i >= 4 && s[4..][i - 4] == '@';
      TrimChars(s[4..], '@');
      NoTripleInside(s, 4, |s|);
      NoTripleTrimmed(s[4..]);
    }
  }

  /** White space before a kept tail is all that trimming can remove. */
  lemma {:induction false} TrimKeepsTail(a: string, b: string) returns (y: string)
    requires b != "" && IsTrimmed(b)
    ensures Trim(a + b) == y + b && |y| <= |a|
  {
    if a == "" {
      y := "";
      assert a + b == b;
    } else if IsSpace(a[0]) {
      y := TrimKeepsTail(a[1..], b);
      assert (a + b)[1..] == a[1..] + b;
    } else {
      y := a;
      assert (a + b)[0] == a[0] && (a + b)[|a + b| - 1] == b[|b| - 1];
    }
  }

  /** No part of a line with less room than `m` trims to `m`. */
  lemma NoPartIs(y: string, sso: string, m: string, part: string)
    requires IsToken(sso) && '@' in m && (Room(y) < |m| || Contains(m, "---"))
    requires part in Pieces(y + After(sso))
    ensures Trim(part) != m
  {
    PieceBound(y, sso);
    TokenFacts(sso);
    PartsHaveNoTriple(y + After(sso));
    hide Pieces, Contains, Room, DashParts, LooksLikeJWT, IsToken, After;
    NoTripleTrimmed(part);
    assert '@' !in sso && Trim(sso) == sso;
  }

  /** No e-mail as long as `m` comes out of a line with less room for it. */
  lemma TooLittleRoom(y: string, sso: string, m: string)
    requires IsToken(sso) && '@' in m && (Room(y) < |m| || Contains(m, "---"))
    ensures var (s, e) := LineFields(y + After(sso));
            Admit(s, e).Some? ==> Admit(s, e).value.email != m
  {
    var line := y + After(sso);
    SeparatorIsSeen(y, sso);
    MailIsPart(line);
    hide LineFields, Admit, Pieces, Contains, Room, DashParts, Trim, IsToken, After;
    forall i | 0 <= i < |Pieces(line)| ensures Trim(Pieces(line)[i]) != m {
      NoPartIs(y, sso, m, Pieces(line)[i]);
    }
  }

  lemma MarkedLine(m: string, sso: string) returns (y: string)
    requires IsToken(sso) && m != "" && m[0] == BOM[0]
    ensures Trim(TrimPrefix(m + After(sso), BOM)) == y + After(sso) && |y| < |m|
  {
    var line := m + After(sso);
    TokenFacts(sso);
    hide Trim, LooksLikeJWT, Contains, DashParts, Pieces, IsToken;
    assert line[..1] == BOM;
    assert line[1..] == m[1..] + After(sso);
    assert IsTrimmed(After(sso)) by { assert !IsSpace('-'); }
    y := TrimKeepsTail(m[1..], After(sso));
  }

  /** A leading byte order mark is eaten. */
  lemma MarkIsEaten(m: string, sso: string)
    requires IsToken(sso) && '@' in m && m[0] == BOM[0]
    ensures ReadLine(m + After(sso)) != Some(Item(sso, m))
  {
    var y := MarkedLine(m, sso);
    SeparatorIsSeen(y, sso);
    TooLittleRoom(y, sso, m);
    hide LineFields, Admit, Contains, Trim, DashFields, DashParts, After, IsToken, LooksLikeJWT;
    ReadsFrom(m + After(sso), y + After(sso));
    DashedFields(y + After(sso));
  }

  lemma CommentIsSkipped(line: string)
    requires line != "" && line[0] == '#' && IsTrimmed(line)
    ensures ReadLine(line) == None
  {
    NotPrefix(line, BOM);
    assert line[..1] == "#";
  }

  /** Any other e-mail's line does not read back. */
  lemma OddMailReadsDifferently(m: string, sso: string)
    requires IsToken(sso) && '@' in m && IsTrimmed(m) && !PlainMail(m)
    ensures ReadLine(m + After(sso)) != Some(Item(sso, m))
  {
    var line := m + After(sso);
    assert line[0] == m[0];
    TokenFacts(sso);
    LineStands(m, sso);
    hide LineFields, Admit, LooksLikeJWT, Trim, Pieces, DashFields, After;
    if m[0] == BOM[0] {
      MarkIsEaten(m, sso);
    } else if m[0] == '#' {
      CommentIsSkipped(line);
    } else {
      NotPrefix(line, BOM);
      SeparatorIsSeen(m, sso);
      ReadsFrom(line, line);
      if Contains(m, "---") || m[|m| - 1] == '-' {
        TooLittleRoom(m, sso, m);
        DashedFields(line);
      } else {
        TwoParts(m, sso);
        JWTFields(m, sso);
        AdmitKeepsAt(m, m);
      }
    }
  }

  /** The printed line of an e-mail and a token reads back exactly when the
      e-mail is plain. */
  lemma LineRoundTripIff(m: string, sso: string)
    requires IsToken(sso) && '@' in m && IsTrimmed(m)
    ensures ReadLine(PrintLine(Item(sso, m))) == Some(Item(sso, m)) <==> PlainMail(m)
  {
    if PlainMail(m) { PlainReadsBack(m, sso); } else { OddMailReadsDifferently(m, sso); }
  }

  /** Three dotted parts, the first two longer than ten, pass for a token. */
  lemma DottedLooksLikeJWT(a: string, b: string, c: string)
    requires '.' !in a && '.' !in b && '.' !in c && |a| > 10 && |b| > 10 && a[0] != 'e'
    requires IsTrimmed(a + "." + b + "." + c)
    ensures LooksLikeJWT(a + "." + b + "." + c)
  {
    var m := a + "." + b + "." + c;
    assert m == a + ['.'] + (b + ['.'] + c);
    SplitAppend(a, '.', b + ['.'] + c);
    SplitAppend(b, '.', c);
    WholePiece(c, '.');
    assert m[0] == a[0];
    NotPrefix(m, "eyJ");
    hide Split, Trim, HasPrefix;
  }

  /** A long address reads as a token: `christopher.montgomery@x.com` is lost. */
  lemma LongMailIsLost(sso: string)
    requires IsToken(sso)
    ensures var m := "christopher.montgomery@x.com";
            ReadLine(PrintLine(Item(sso, m))) != Some(Item(sso, m))
  {
    hide LooksLikeJWT, IsToken, ReadLine, PrintLine;
    var m := "christopher.montgomery@x.com";
    assert m == "christopher" + "." + "montgomery@x" + "." + "com" && m[22] == '@';
    DottedLooksLikeJWT("christopher", "montgomery@x", "com");
    LineRoundTripIff(m, sso);
  }

  lemma {:induction false} WordIsOneField(s: string)
    requires s != "" && forall c :: c in s ==> !IsSpace(c)
    ensures Fields(s) == [s]
  {
    assert s[0] in s;
    if |s| > 1 {
      assert s[1] in s;
      WordIsOneField(s[1..]);
      assert [s[0]] + s[1..] == s;
    } else {
      assert Fields(s[1..]) == [];
      assert [s[0]] == s;
    }
  }

  /** A bare token's line reads back as a cookie without e-mail. */
  lemma BareReadsBack(sso: string)
    requires IsToken(sso)
    ensures ReadLine(sso) == Some(Item(sso, ""))
  {
    TokenFacts(sso);
    NotPrefix(sso, BOM);
    NotPrefix(sso, "#");
    TripleFree(sso);
    WordIsOneField(sso);
    TokenAdmits(sso, "");
    hide Admit, LooksLikeJWT, Fields, Contains;
    assert '|' !in sso && '\t' !in sso && LineFields(sso) == (sso, "");
  }

  // ---- The whole export ----

  /** A pair the exporter prints and the reader gets back. */
  ghost predicate Printable(it: Item) {
    && IsToken(it.sso) && '\n' !in it.email
    && (it.email == "" || ('@' in it.email && IsTrimmed(it.email) && PlainMail(it.email)))
  }

  lemma PrintedReadsBack(it: Item)
    requires Printable(it)
    ensures ReadLine(PrintLine(it)) == Some(it) && '\n' !in PrintLine(it)
  {
    TokenFacts(it.sso);
    if it.email == "" { BareReadsBack(it.sso); } else { PlainReadsBack(it.email, it.sso); }
  }

  function ExportText(lines: seq<string>): string {
    if lines == [] then "" else Join(lines, "\n") + "\n"
  }

  lemma {:induction false} SplitAppend(a: string, sep: char, b: string)
    requires sep !in a
    ensures Split(a + [sep] + b, sep) == [a] + Split(b, sep)
  {
    var s := a + [sep] + b;
    if a == "" {
      assert s[1..] == b;
    } else {
      SplitAppend(a[1..], sep, b);
      assert s[1..] == a[1..] + [sep] + b && s[0] == a[0];
      assert [a[0]] + a[1..] == a;
    }
  }

  /** The text splits back into its lines and one empty line. */
  lemma {:induction false} SplitExport(lines: seq<string>)
    requires forall i :: 0 <= i < |lines| ==> '\n' !in lines[i]
    ensures Split(ExportText(lines), '\n') == lines + [""]
  {
    if |lines| == 0 {
    } else if |lines| == 1 {
      SplitAppend(lines[0], '\n', "");
      assert lines[0] + "\n" + "" == ExportText(lines);
    } else {
      SplitExport(lines[1..]);
      SplitAppend(lines[0], '\n', ExportText(lines[1..]));
      assert lines[0] + "\n" + ExportText(lines[1..]) == ExportText(lines);
    }
  }

  function Map<A, B>(f: A -> B, s: seq<A>): seq<B> {
    if s == [] then [] else [f(s[0])] + Map(f, s[1..])
  }

  lemma {:induction false} MapAt<A, B>(f: A -> B, s: seq<A>)
    ensures |Map(f, s)| == |s| && forall i :: 0 <= i < |s| ==> Map(f, s)[i] == f(s[i])
  {
    if s != [] { MapAt(f, s[1..]); }
  }

  lemma TakeOut<A>(t: seq<A>, i: nat)
    requires i < |t|
    ensures multiset(t) == multiset{t[i]} + multiset(t[..i] + t[i + 1..])
  {
    assert t == t[..i] + [t[i]] + t[i + 1..];
  }

  lemma {:induction false} MapTakeOut<A, B>(f: A -> B, t: seq<A>, i: nat)
    requires i < |t|
    ensures multiset(Map(f, t)) == multiset{f(t[i])} + multiset(Map(f, t[..i] + t[i + 1..]))
  {
    var rest := t[..i] + t[i + 1..];
    if i == 0 {
      assert rest == t[1..];
    } else {
      MapTakeOut(f, t[1..], i - 1);
      assert rest[1..] == t[1..][..i - 1] + t[1..][i..];
    }
  }

  lemma SameWithout<A>(s: seq<A>, t: seq<A>) returns (i: nat)
    requires multiset(s) == multiset(t) && s != []
    ensures i < |t| && t[i] == s[0] && multiset(s[1..]) == multiset(t[..i] + t[i + 1..])
  {
    assert s[0] in multiset(t);
    i :| i < |t| && t[i] == s[0];
    TakeOut(s, 0);
    TakeOut(t, i);
    assert s[..0] + s[1..] == s[1..];
    assert multiset(s[1..]) == multiset(s) - multiset{s[0]};
    assert multiset(t[..i] + t[i + 1..]) == multiset(t) - multiset{s[0]};
  }

  /** Mapping keeps permutations. */
  lemma {:induction false} MapPermutes<A, B>(f: A -> B, s: seq<A>, t: seq<A>)
    requires multiset(s) == multiset(t)
    ensures multiset(Map(f, s)) == multiset(Map(f, t))
  {
    if s == [] {
      assert |multiset(t)| == 0;
    } else {
      var i := SameWithout(s, t);
      MapPermutes(f, s[1..], t[..i] + t[i + 1..]);
      MapTakeOut(f, t, i);
      MapTakeOut(f, s, 0);
      assert s[..0] + s[1..] == s[1..];
    }
  }

  lemma DifferentByCount(s: seq<string>)
    ensures Distinct(s) <==> forall x :: multiset(s)[x] <= 1
  {
    if Distinct(s) {
      forall x ensures multiset(s)[x] <= 1 { OnceEach(s, x); }
    } else {
      var i, j :| 0 <= i < j < |s| && s[i] == s[j];
      assert s == s[..j] + s[j..];
      assert s[i] in s[..j] && s[j] in s[j..];
      assert multiset(s)[s[i]] >= 2;
    }
  }

  lemma {:induction false} OnceEach(s: seq<string>, x: string)
    requires Distinct(s)
    ensures multiset(s)[x] <= 1
  {
    if s != [] {
      assert s == [s[0]] + s[1..];
      OnceEach(s[1..], x);
    }
  }

  function TokenOf(it: Item): string { it.sso }

  lemma DistinctPermutes(s: seq<Item>, t: seq<Item>)
    requires multiset(s) == multiset(t) && TokensDistinct(s)
    ensures TokensDistinct(t)
  {
    MapPermutes(TokenOf, s, t);
    MapAt(TokenOf, s);
    MapAt(TokenOf, t);
    var a, b := Map(TokenOf, s), Map(TokenOf, t);
    assert Distinct(a);
    DifferentByCount(a);
    DifferentByCount(b);
    forall i, j | 0 <= i < j < |t| ensures t[i].sso != t[j].sso { assert b[i] != b[j]; }
  }

  /** Lines that read as items with distinct cookies are all kept, in order. */
  lemma {:induction false} ReadLinesKeep(lines: seq<string>, items: seq<Item>)
    requires |items| == |lines| && TokensDistinct(items)
    requires forall i :: 0 <= i < |lines| ==> ReadLine(lines[i]) == Some(items[i])
    ensures ReadLines([], lines) == items
  {
    hide ReadLine;
    if lines != [] {
      var k := |lines| - 1;
      ReadLinesKeep(lines[..k], items[..k]);
      assert items[..k] + [items[k]] == items;
    }
  }

  function Back(line: string): Item {
    var it := ReadLine(line);
    if it.Some? then it.value else Item("", "")
  }

  /** The parsed items are the exported pairs, in the order of the printed lines. */
  ghost predicate ReadsBack(pairs: seq<Item>, lines: seq<string>) {
    var items := ParseItems([], ExportText(lines));
    && multiset(items) == multiset(pairs)
    && |items| == |lines| && forall i :: 0 <= i < |lines| ==> PrintLine(items[i]) == lines[i]
  }

  /** A pair the vault may hold: a token, with an e-mail or without. */
  ghost predicate Exportable(it: Item) {
    IsToken(it.sso) && '\n' !in it.email && (it.email == "" || ('@' in it.email && IsTrimmed(it.email)))
  }

  lemma PrintedBack(it: Item)
    requires Printable(it)
    ensures Back(PrintLine(it)) == it
  {
    PrintedReadsBack(it);
  }

  /** Every line reads back as the pair it was printed from. */
  lemma LinesReadBack(pairs: seq<Item>, lines: seq<string>)
    requires forall i :: 0 <= i < |pairs| ==> Printable(pairs[i])
    requires multiset(lines) == multiset(Map(PrintLine, pairs))
    ensures forall i :: 0 <= i < |lines| ==>
              '\n' !in lines[i] && ReadLine(lines[i]) == Some(Back(lines[i])) && PrintLine(Back(lines[i])) == lines[i]
  {
    var printed := Map(PrintLine, pairs);
    MapAt(PrintLine, pairs);
    hide ReadLine, PrintLine, Printable, Back;
    forall i | 0 <= i < |lines|
      ensures '\n' !in lines[i] && ReadLine(lines[i]) == Some(Back(lines[i])) && PrintLine(Back(lines[i])) == lines[i]
    {
      assert lines[i] in multiset(printed);
      var j :| 0 <= j < |printed| && printed[j] == lines[i];
      PrintedReadsBack(pairs[j]);
      PrintedBack(pairs[j]);
    }
  }

  lemma PrintedMapsBack(pairs: seq<Item>)
    requires forall i :: 0 <= i < |pairs| ==> Printable(pairs[i])
    ensures Map(Back, Map(PrintLine, pairs)) == pairs
  {
    hide ReadLine, PrintLine, Printable, Back;
    MapAt(PrintLine, pairs);
    MapAt(Back, Map(PrintLine, pairs));
    forall i | 0 <= i < |pairs| ensures Back(Map(PrintLine, pairs)[i]) == pairs[i] { PrintedBack(pairs[i]); }
  }

  lemma PlainRoundTrip(pairs: seq<Item>, lines: seq<string>)
    requires TokensDistinct(pairs) && forall i :: 0 <= i < |pairs| ==> Printable(pairs[i])
    requires multiset(lines) == multiset(Map(PrintLine, pairs))
    ensures ReadsBack(pairs, lines)
  {
    hide ReadLine, PrintLine, Printable, TokensDistinct, Split, Back, ExportText, Map;
    var items := Map(Back, lines);
    LinesReadBack(pairs, lines);
    PrintedMapsBack(pairs);
    MapPermutes(Back, lines, Map(PrintLine, pairs));
    MapAt(Back, lines);
    DistinctPermutes(pairs, items);
    SplitExport(lines);
    ReadLinesKeep(lines, items);
    BlankEnds(lines);
  }

  lemma {:induction false} LinesBound(lines: seq<string>)
    ensures |ReadLines([], lines)| <= |lines|
  {
    hide ReadLine;
    if lines != [] { LinesBound(lines[..|lines| - 1]); }
  }

  /** As many items as lines: every line gave its item. */
  lemma {:induction false} AllLinesRead(lines: seq<string>)
    requires |ReadLines([], lines)| == |lines|
    ensures forall i :: 0 <= i < |lines| ==> ReadLine(lines[i]) == Some(ReadLines([], lines)[i])
  {
    hide ReadLine;
    if lines != [] {
      LinesBound(lines[..|lines| - 1]);
      AllLinesRead(lines[..|lines| - 1]);
    }
  }

  lemma TokenCharAt(s: string, i: int)
    requires IsToken(s) && 0 <= i < |s|
    ensures s[i] != '@' && s[0] == 'e'
  {
    TokenFacts(s);
    hide IsToken;
    assert s[i] in s;
  }

  /** Two tokens cannot end one printed line at different places. */
  lemma TokenEndsLine(m: string, s: string, n: string, t: string)
    requires IsToken(s) && IsToken(t) && m + After(s) == n + After(t)
    ensures |t| <= |s|
  {
    TripleFree(t);
    TokenFacts(t);
    hide IsToken, Contains, Trim, LooksLikeJWT, Pieces, DashParts, IsSpace, TripleAt, IsTrimmed;
    if |t| > |s| { SeparatorInside(m, s, n, t); }
  }

  /** A longer token would start with a dash or hold the other's separator. */
  lemma SeparatorInside(m: string, s: string, n: string, t: string)
    requires m + After(s) == n + After(t) && |t| > |s|
    ensures t[0] == '-' || exists k :: TripleAt(t, k)
  {
    var line, k := m + After(s), |m| - |n| - 4;
    assert line[|m|..|m| + 4] == "----";
    assert line[|n| + 4..] == t;
    if k < 0 {
      assert t[0] == line[|n| + 4] == line[|m|..|m| + 4][-k];
    } else {
      assert t[k..k + 4] == line[|m|..|m| + 4];
      assert t[k..k + 4][0] == t[k] && t[k..k + 4][1] == t[k + 1] && t[k..k + 4][2] == t[k + 2];
      assert TripleAt(t, k);
    }
  }

  lemma SameLine(m: string, s: string, n: string, t: string)
    requires IsToken(s) && IsToken(t) && m + After(s) == n + After(t)
    ensures m == n && s == t
  {
    TokenEndsLine(m, s, n, t);
    TokenEndsLine(n, t, m, s);
    hide IsToken;
    var line := m + After(s);
    assert line[..|m|] == m && (n + After(t))[..|n|] == n;
    assert line[|m| + 4..] == s && (n + After(t))[|n| + 4..] == t;
  }

  lemma MailIsNotToken(m: string, s: string, sso: string)
    requires '@' in m && IsToken(sso)
    ensures m + After(s) != sso
  {
    var i :| 0 <= i < |m| && m[i] == '@';
    assert (m + After(s))[i] == '@';
    if m + After(s) == sso { TokenCharAt(sso, i); }
  }

  lemma PrintsApart(p: Item, q: Item)
    requires Exportable(p) && Exportable(q) && PrintLine(p) == PrintLine(q)
    ensures p == q
  {
    hide IsToken, After;
    if p.email != "" && q.email != "" {
      SameLine(p.email, p.sso, q.email, q.sso);
    } else if p.email != "" {
      MailIsNotToken(p.email, p.sso, q.sso);
    } else if q.email != "" {
      MailIsNotToken(q.email, q.sso, p.sso);
    }
  }

  /** A line without a newline that holds an odd e-mail breaks the round trip. */
  lemma OddMailBreaks(pairs: seq<Item>, lines: seq<string>, j: nat)
    requires forall i :: 0 <= i < |pairs| ==> Exportable(pairs[i])
    requires multiset(lines) == multiset(Map(PrintLine, pairs))
    requires j < |pairs| && !Printable(pairs[j])
    ensures !ReadsBack(pairs, lines)
  {
    var items, printed := ParseItems([], ExportText(lines)), Map(PrintLine, pairs);
    MapAt(PrintLine, pairs);
    if ReadsBack(pairs, lines) {
      forall i | 0 <= i < |lines| ensures '\n' !in lines[i] {
        assert lines[i] in multiset(printed);
        var k :| 0 <= k < |printed| && printed[k] == lines[i];
        ExportableLine(pairs[k]);
      }
      hide ReadLine, PrintLine, Printable, Exportable, Split;
      SplitExport(lines);
      BlankEnds(lines);
      AllLinesRead(lines);
      assert printed[j] in multiset(lines);
      var i :| 0 <= i < |lines| && lines[i] == printed[j];
      assert items[i] in multiset(pairs);
      PrintsApart(items[i], pairs[j]);
      OddPairReadsDifferently(pairs[j]);
    }
  }

  lemma ExportableLine(it: Item)
    requires Exportable(it)
    ensures '\n' !in PrintLine(it)
  {
    TokenFacts(it.sso);
  }

  lemma OddPairReadsDifferently(it: Item)
    requires Exportable(it) && !Printable(it)
    ensures ReadLine(PrintLine(it)) != Some(it)
  {
    LineRoundTripIff(it.email, it.sso);
  }

  /** Reading the exported text gives back exactly the exported pairs, in the
      order of the printed lines, if and only if every e-mail is plain. */
  lemma ExportRoundTripIff(pairs: seq<Item>, lines: seq<string>)
    requires TokensDistinct(pairs) && forall i :: 0 <= i < |pairs| ==> Exportable(pairs[i])
    requires multiset(lines) == multiset(Map(PrintLine, pairs))
    ensures ReadsBack(pairs, lines) <==>
              forall i :: 0 <= i < |pairs| && pairs[i].email != "" ==> PlainMail(pairs[i].email)
  {
    if forall i :: 0 <= i < |pairs| && pairs[i].email != "" ==> PlainMail(pairs[i].email) {
      PlainRoundTrip(pairs, lines);
    } else {
      var i :| 0 <= i < |pairs| && pairs[i].email != "" && !PlainMail(pairs[i].email);
      OddMailBreaks(pairs, lines, i);
    }
  }

  lemma BlankEnds(lines: seq<string>)
    ensures ReadLines([], lines + [""]) == ReadLines([], lines)
  {
    assert (lines + [""])[..|lines|] == lines;
    assert !HasPrefix("", BOM);
    assert ReadLine("") == None;
  }

  // ---- The exporter ----

  /** Whether the requested filter keeps an entry. */
  predicate Kept(filter: string, mails: set<string>, e: VaultEntry) {
    if filter == "failed" then !e.lastOk && e.lastError != ""
    else if filter == "http401" then e.lastHttp == 401
    else if filter == "not_ok" then !e.lastOk
    else if filter == "emails" then ToLower(Trim(e.email)) in mails
    else true
  }

  function PairOf(e: VaultEntry): Item { Item(Trim(e.sso), Trim(e.email)) }

  /** The pairs an export prints, in vault order. */
  function ExportPairs(entries: seq<VaultEntry>, filter: string, mails: set<string>): seq<Item> {
    if entries == [] then []
    else
      var e := entries[|entries| - 1];
      ExportPairs(entries[..|entries| - 1], filter, mails)
      + if Trim(e.sso) != "" && Kept(filter, mails, e) then [PairOf(e)] else []
  }

  /** The entry is exported as the pair `it`: it has a cookie and is what the filter
      asks for. A filter of another name asks for nothing. */
  ghost predicate Prints(e: VaultEntry, filter: string, mails: set<string>, it: Item) {
    && Trim(e.sso) != "" && it.sso == Trim(e.sso) && it.email == Trim(e.email)
    && (filter == "failed" ==> !e.lastOk && e.lastError != "")
    && (filter == "http401" ==> e.lastHttp == 401)
    && (filter == "not_ok" ==> !e.lastOk)
    && (filter == "emails" ==> Norm(e.email) in mails)
  }

  function SortedLines(pairs: seq<Item>): seq<string> { Sort(Before, Map(PrintLine, pairs)) }

  lemma {:induction false} JoinNotEmpty(lines: seq<string>)
    requires lines != [] && forall i :: 0 <= i < |lines| ==> lines[i] != ""
    ensures Join(lines, "\n") != ""
  {
    assert lines[0] != "";
  }

  lemma {:induction false} NoBlankPair(entries: seq<VaultEntry>, filter: string, mails: set<string>)
    ensures forall it :: it in ExportPairs(entries, filter, mails) ==> it.sso != ""
  {
    if entries != [] { NoBlankPair(entries[..|entries| - 1], filter, mails); }
  }

  lemma NoBlankLine(entries: seq<VaultEntry>, filter: string, mails: set<string>)
    ensures var lines := SortedLines(ExportPairs(entries, filter, mails));
            forall i :: 0 <= i < |lines| ==> lines[i] != ""
  {
    var pairs := ExportPairs(entries, filter, mails);
    var lines := SortedLines(pairs);
    BeforeOrders();
    SortSorts(Before, Map(PrintLine, pairs));
    MapAt(PrintLine, pairs);
    NoBlankPair(entries, filter, mails);
    forall i | 0 <= i < |lines| ensures lines[i] != "" {
      assert lines[i] in multiset(Map(PrintLine, pairs));
      var j :| 0 <= j < |pairs| && Map(PrintLine, pairs)[j] == lines[i];
      assert pairs[j] in pairs;
    }
  }

  lemma MapGrows<A, B>(f: A -> B, s: seq<A>, x: A)
    ensures Map(f, s + [x]) == Map(f, s) + [f(x)]
  {
    MapAt(f, s);
    MapAt(f, s + [x]);
  }

  /** The normalised e-mails of the request, without blank ones. */
  function MailSet(emails: seq<string>): set<string> {
    set e | e in emails && Norm(e) != "" :: Norm(e)
  }

  method CollectMails(emails: seq<string>) returns (mails: set<string>)
    ensures mails == MailSet(emails)
    ensures forall m :: m in mails <==> m != "" && exists e :: e in emails && Norm(e) == m
  {
    mails := {};
    hide Norm;
    for i := 0 to |emails|
      invariant mails == MailSet(emails[..i])
    {
      assert emails[..i + 1] == emails[..i] + [emails[i]];
      var e := Norm(emails[i]);
      if e != "" { mails := mails + {e}; }
    }
    assert emails[..|emails|] == emails;
  }

  method CollectLines(entries: seq<VaultEntry>, filter: string, mails: set<string>) returns (lines: seq<string>)
    ensures lines == Map(PrintLine, ExportPairs(entries, filter, mails))
  {
    lines := [];
    hide Trim, Kept, Map;
    assert Map(PrintLine, []) == [] by { MapAt(PrintLine, []); }
    for i := 0 to |entries|
      invariant lines == Map(PrintLine, ExportPairs(entries[..i], filter, mails))
    {
      var e := entries[i];
      var em, sso := Trim(e.email), Trim(e.sso);
      ghost var before := ExportPairs(entries[..i], filter, mails);
      assert entries[..i + 1][..i] == entries[..i];
      assert before + [] == before;
      if sso == "" { continue; }
      if !Kept(filter, mails, e) { continue; }
      MapGrows(PrintLine, before, PairOf(e));
      if em == "" {
        lines := lines + [sso];
      } else {
        assert em + "----" + sso == em + After(sso);
        lines := lines + [em + "----" + sso];
      }
    }
    assert entries[..|entries|] == entries;
  }

  /** handleVaultExport. */
  method ExportVault(entries: seq<VaultEntry>, filter0: string, emails: seq<string>) returns (count: nat, text: string)
    ensures var filter := if filter0 == "" then "all" else filter0;
            var pairs := ExportPairs(entries, filter, MailSet(emails));
            count == |pairs| && text == ExportText(SortedLines(pairs))
  {
    var filter := filter0;
    if filter == "" { filter := "all"; }
    var mails := CollectMails(emails);
    var lines := CollectLines(entries, filter, mails);
    ghost var pairs := ExportPairs(entries, filter, mails);
    hide ExportPairs, PrintLine, MailSet;
    NoBlankLine(entries, filter, mails);
    SortedCount(pairs);
    lines := Sort(Before, lines);
    text := Join(lines, "\n");
    if lines != [] { JoinNotEmpty(lines); }
    if text != "" { text := text + "\n"; }
    count := |lines|;
  }

  lemma SortedCount(pairs: seq<Item>)
    ensures |SortedLines(pairs)| == |pairs|
  {
    MapAt(PrintLine, pairs);
    BeforeOrders();
    SortSorts(Before, Map(PrintLine, pairs));
    assert |multiset(SortedLines(pairs))| == |multiset(Map(PrintLine, pairs))|;
  }

  lemma PrintsIff(e: VaultEntry, filter: string, mails: set<string>, it: Item)
    ensures Prints(e, filter, mails, it) <==> Trim(e.sso) != "" && Kept(filter, mails, e) && it == PairOf(e)
  {
    hide Trim, ToLower;
  }

  /** Each entry adds its pair if it is printed, and nothing else. */
  lemma ExportGrows(entries: seq<VaultEntry>, e: VaultEntry, filter: string, mails: set<string>)
    ensures var before, after := ExportPairs(entries, filter, mails), ExportPairs(entries + [e], filter, mails);
            && (forall it :: Prints(e, filter, mails, it) ==> after == before + [it])
            && ((forall it :: !Prints(e, filter, mails, it)) ==> after == before)
  {
    hide Prints, Kept, Trim;
    assert (entries + [e])[..|entries|] == entries;
    forall it ensures Prints(e, filter, mails, it) <==> Trim(e.sso) != "" && Kept(filter, mails, e) && it == PairOf(e) {
      PrintsIff(e, filter, mails, it);
    }
    PrintsIff(e, filter, mails, PairOf(e));
  }

  /** An export prints exactly the pairs of the kept entries with a cookie. */
  lemma {:induction false} ExportPrints(entries: seq<VaultEntry>, filter: string, mails: set<string>, it: Item)
    ensures it in ExportPairs(entries, filter, mails) <==>
              exists i :: 0 <= i < |entries| && Prints(entries[i], filter, mails, it)
  {
    hide Trim, Kept, PairOf, Prints;
    if entries != [] {
      var n := |entries| - 1;
      var init := entries[..n];
      ExportPrints(init, filter, mails, it);
      PrintsIff(entries[n], filter, mails, it);
      if i :| 0 <= i < n && Prints(entries[i], filter, mails, it) { assert Prints(init[i], filter, mails, it); }
      if i :| 0 <= i < n && Prints(init[i], filter, mails, it) { assert Prints(entries[i], filter, mails, it); }
    }
  }

  /** An exported vault, pasted into an import, gives back its pairs in the order
      of the sorted lines, if and only if every printed e-mail is plain. */
  lemma VaultRoundTripIff(entries: seq<VaultEntry>, filter: string, mails: set<string>)
    requires var pairs := ExportPairs(entries, filter, mails);
             TokensDistinct(pairs) && forall i :: 0 <= i < |pairs| ==> Exportable(pairs[i])
    ensures var pairs := ExportPairs(entries, filter, mails);
            && Sorted(Before, SortedLines(pairs))
            && (ReadsBack(pairs, SortedLines(pairs)) <==>
                forall i :: 0 <= i < |pairs| && pairs[i].email != "" ==> PlainMail(pairs[i].email))
  {
    var pairs := ExportPairs(entries, filter, mails);
    BeforeOrders();
    SortSorts(Before, Map(PrintLine, pairs));
    ExportRoundTripIff(pairs, SortedLines(pairs));
  }
}
