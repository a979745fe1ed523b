/** What the reader of pasted lists admits, picks and keeps, stated of the text it
    is given. The functions of SsoList.dfy say how it goes about it. */
module SsoLaws {
  import opened Text
  import opened Wrappers
  import opened SsoList
  import opened SsoExport
  import opened SsoFormats

  // ---- One cookie ----

  /** The text starts with `sso=`, in any letter case. */
  predicate Prefixed(s: string) { |s| >= 4 && ToLower(s[..4]) == "sso=" }

  lemma PrefixedLower(s: string)
    ensures HasPrefix(ToLower(s), "sso=") <==> Prefixed(s)
  {
    LowerAt(s);
    if |s| >= 4 {
      LowerAt(s[..4]);
      assert ToLower(s)[..4] == ToLower(s[..4]);
    }
  }

  /** A text with a separator in neither form is admitted as it is, but for a blank
      one and one that is an e-mail rather than a cookie: with an `@`, not like a
      token, and without a dot or shorter than 80. */
  lemma AdmitIff(sso: string, email: string)
    requires !Prefixed(Trim(sso)) && !Contains(Trim(sso), "----")
    ensures var s := Trim(sso);
            Admit(sso, email) ==
              if s == "" || ('@' in s && ('.' !in s || |s| < 80) && !LooksLikeJWT(s) && !HasPrefix(s, "eyJ"))
              then None else Some(Item(s, Trim(email)))
  {
    PrefixedLower(Trim(sso));
    hide LooksLikeJWT, Trim, ToLower, HasPrefix, Prefixed;
  }

  /** The prefix is dropped before anything else is looked at. */
  lemma PrefixIsDropped(p: string, s: string, email: string)
    requires |p| == 4 && Prefixed(p) && s != "" && IsTrimmed(s) && !Prefixed(s)
    ensures Admit(p + s, email) == Admit(s, email)
  {
    LowerAt(p);
    assert ToLower(p[..4])[0] == 's' && p[..4] == p;
    assert (p + s)[..4] == p && (p + s)[4..] == s && (p + s)[|p + s| - 1] == s[|s| - 1];
    assert !IsSpace(p[0]);
    PrefixedLower(p + s);
    PrefixedLower(s);
    hide LooksLikeJWT, Untangle, ToLower, HasPrefix, IsSpace;
  }

  /** The separator is found where the part before it ends. */
  lemma SeparatorAt(a: string, b: string)
    requires !Contains(a, "---") && (a != "" ==> a[|a| - 1] != '-')
    ensures Index(a + After(b), "----") == |a| && (a + After(b))[..|a|] == a && (a + After(b))[|a| + 4..] == b
  {
    var line := a + After(b);
    TripleFree(a);
    assert line[|a|..|a| + 4] == "----" && line[..|a|] == a && line[|a| + 4..] == b;
    assert MatchesAt(line, "----", |a|) && (a != "" ==> line[|a| - 1] == a[|a| - 1]);
    forall i | 0 <= i < |a| ensures !MatchesAt(line, "----", i) {
      TripleMatches(line, i);
      assert TripleAt(line, i) && i + 3 <= |a| ==> TripleAt(a, i);
    }
  }

  /** A pair that comes as one cookie is taken apart: the side that is like a token is
      the cookie, the right one if both are, and the other one its e-mail if it has
      an `@` and no e-mail is given beside it. */
  lemma TangledReads(l: string, r: string, email: string)
    requires l != "" && r != "" && IsTrimmed(l) && IsTrimmed(r) && !Prefixed(l)
    requires !Contains(l, "---") && l[|l| - 1] != '-'
    ensures var mail := Trim(email);
            && (LooksLikeJWT(r) ==>
                  Admit(l + After(r), email) == Some(Item(r, if mail == "" && '@' in l then l else mail)))
            && (LooksLikeJWT(l) && !LooksLikeJWT(r) ==>
                  Admit(l + After(r), email) == Some(Item(l, if mail == "" && '@' in r then r else mail)))
  {
    hide LooksLikeJWT, Trim, ToLower, HasPrefix, After, Prefixed, IsTrimmed, Contains, Index;
    var line := l + After(r);
    EndsTrimmed(l, r);
    SeparatorAt(l, r);
    NotPrefixed(l, r);
    PrefixedLower(line);
    assert Trim(line) == line && Trim(l) == l && Trim(r) == r;
    assert Untangle(line, Trim(email)) ==
             if LooksLikeJWT(r) then (r, if Trim(email) == "" && '@' in l then l else Trim(email))
             else if LooksLikeJWT(l) then (l, if Trim(email) == "" && '@' in r then r else Trim(email))
             else (line, Trim(email));
  }

  lemma NotPrefixed(l: string, r: string)
    requires !Prefixed(l) && l != ""
    ensures !Prefixed(l + After(r))
  {
    var line := l + After(r);
    if |l| >= 4 {
      assert line[..4] == l[..4];
    } else {
      LowerAt(line[..4]);
      assert line[..4][|l|] == '-' && ToLower(line[..4])[|l|] == '-';
    }
  }

  /** Of a trimmed text in three dotted parts, not starting with `eyJ`, the first two
      decide whether it is like a token. */
  lemma TokenLikeIff(a: string, b: string, c: string)
    requires '.' !in a && '.' !in b && '.' !in c && IsTrimmed(a + "." + b + "." + c)
    requires !HasPrefix(a + "." + b + "." + c, "eyJ")
    ensures LooksLikeJWT(a + "." + b + "." + c) <==> |a| > 10 && |b| > 10
  {
    var m := a + "." + b + "." + c;
    assert m == a + ['.'] + (b + ['.'] + c);
    SplitAppend(a, '.', b + ['.'] + c);
    SplitAppend(b, '.', c);
    WholePiece(c, '.');
    hide Split, Trim, HasPrefix;
  }

  lemma {:induction false} PiecesCount(s: string, c: char)
    ensures |Split(s, c)| == Count(s, c) + 1
  {
    if s != "" { PiecesCount(s[1..], c); }
  }

  /** A text that starts with `eyJ` needs two dots or more, any other exactly two. */
  lemma TokenDots(s: string)
    requires IsTrimmed(s)
    ensures HasPrefix(s, "eyJ") ==> (LooksLikeJWT(s) <==> Count(s, '.') >= 2)
    ensures !HasPrefix(s, "eyJ") && Count(s, '.') != 2 ==> !LooksLikeJWT(s)
  {
    PiecesCount(s, '.');
    if HasPrefix(s, "eyJ") { TokenHead(s); }
    hide Split, Trim, HasPrefix;
  }

  // ---- The parts of a line ----

  lemma OnlyDashes(n: nat)
    requires n >= 3
    ensures Pieces(Dashes(n)) == ["", ""]
  {
    RunThenRest(Dashes(n), n);
    assert Dashes(n)[n..] == "";
  }

  /** The last piece stays the last when text is put in front. */
  lemma GlueLast(head: string, ps: seq<string>)
    requires |ps| > 0 && (|ps| == 1 ==> ps[0] != "" || head != "")
    ensures Glue(head, ps + [""]) == Glue(head, ps) + [""]
    ensures |Glue(head, ps)| == |ps| && (ps[|ps| - 1] != "" || |ps| == 1 ==> Glue(head, ps)[|ps| - 1] != "")
    ensures [""] + (ps + [""]) == [""] + ps + [""]
  {
    assert (ps + [""])[0] == ps[0] && (ps + [""])[1..] == ps[1..] + [""];
  }

  lemma EmptyPieces(s: string)
    ensures s == "" ==> Pieces(s) == [""]
  {}

  lemma {:induction false} TailRun(x: string, n: nat)
    requires n >= 3 && EndsPlain(x)
    ensures Pieces(x + Dashes(n)) == Pieces(x) + [""]
    ensures x != "" ==> Pieces(x)[|Pieces(x)| - 1] != ""
    decreases |x|
  {
    EmptyPieces(x);
    hide Dashes, Pieces, Glue;
    if x == "" {
      OnlyDashes(n);
      assert x + Dashes(n) == Dashes(n);
    } else {
      var k := if x[0] == '-' then DashRun(x) else 1;
      hide DashRun;
      EmptyPieces(x[k..]);
      PiecesOfHead(x, Dashes(n));
      PiecesOfHead(x, "");
      assert x + "" == x && x[k..] + "" == x[k..];
      TailRun(x[k..], n);
      GlueLast(x[..k], Pieces(x[k..]));
      assert x[0] != '-' ==> x[..k] == [x[0]];
    }
  }

  /** A run of three or more dashes at the end of a line adds no part. */
  lemma TrailingRunIsDropped(x: string, n: nat)
    requires n >= 3 && x != "" && x[|x| - 1] != '-'
    ensures DashParts(x + Dashes(n)) == DashParts(x)
  {
    TailRun(x, n);
    hide Pieces, Dashes;
  }

  /** Part `k` is the first that is like a token; -1 if there is none. */
  ghost predicate FirstTokenAt(parts: seq<string>, k: int) {
    && -1 <= k < |parts| && (k >= 0 ==> LooksLikeJWT(Trim(parts[k])))
    && forall i :: 0 <= i < |parts| && (k < 0 || i < k) ==> !LooksLikeJWT(Trim(parts[i]))
  }

  /** Part `j` is the first with an `@` but part `k`; -1 if there is none. */
  ghost predicate FirstMailAt(parts: seq<string>, k: int, j: int) {
    && -1 <= j < |parts| && (j >= 0 ==> j != k && '@' in Trim(parts[j]))
    && forall i :: 0 <= i < |parts| && i != k && (j < 0 || i < j) ==> '@' !in Trim(parts[i])
  }

  /** Of the parts around dashes the cookie is the first that is like a token, and the
      e-mail the first other one with an `@`. */
  lemma {:induction false} ScanPicks(parts: seq<string>, sso: string, email: string, k: int, j: int)
    requires if sso == "" then FirstTokenAt(parts, k) else k == -1
    requires email == "" ==> FirstMailAt(parts, k, j)
    ensures ScanParts(parts, sso, email) ==
              (if sso != "" then sso else if k >= 0 then Trim(parts[k]) else "",
               if email != "" then email else if j >= 0 then Trim(parts[j]) else "")
  {
    if parts != [] {
      var p, rest := Trim(parts[0]), parts[1..];
      TokenNotBlank(p);
      assert Trim(p) == p;
      hide LooksLikeJWT, Trim;
      assert forall i :: 0 <= i < |rest| ==> rest[i] == parts[i + 1];
      var k' := if k > 0 then k - 1 else -1;
      var j' := if j > 0 then j - 1 else -1;
      if k == 0 {
        ScanPicks(rest, p, email, -1, j');
      } else if '@' in p && email == "" {
        ScanPicks(rest, sso, p, k', j');
      } else {
        ScanPicks(rest, sso, email, k', j');
      }
    }
  }

  lemma TokenNotBlank(p: string)
    ensures LooksLikeJWT(p) ==> p != ""
  {}

  /** After an e-mail a last part that is like no token is a cookie exactly when it is
      longer than 40. */
  lemma LongLastIff(m: string, c: string)
    requires '@' in m && IsTrimmed(m) && PlainMail(m)
    requires c != "" && IsTrimmed(c) && c[0] != '-' && '@' !in c && !Contains(c, "---")
    requires !LooksLikeJWT(c) && !Prefixed(c)
    ensures ReadLine(m + After(c)) == if |c| > 40 then Some(Item(c, m)) else None
  {
    var line := m + After(c);
    EndsTrimmed(m, c);
    SeparatorIsSeen(m, c);
    SeparatorSplits(m, c);
    OnePiece(c);
    assert line[0] == m[0] && IsTrimmed(line);
    NotPrefix(line, BOM);
    NotPrefix(line, "#");
    ReadsFrom(line, line);
    TripleFree(c);
    AdmitIff(c, m);
    LastFields(m, c);
    BlankCookie(m);
    assert DashParts(line) == [m, c];
    hide LooksLikeJWT, ToLower, HasPrefix, After, Prefixed, Contains, Pieces, Admit, DashFields, IsSpace, DashParts;
  }

  lemma BlankCookie(m: string)
    ensures Admit("", m) == None
  {
    assert Trim("") == "";
  }

  lemma LastFields(m: string, c: string)
    requires '@' in m && IsTrimmed(m) && !LooksLikeJWT(m) && c != "" && IsTrimmed(c) && '@' !in c && !LooksLikeJWT(c)
    ensures DashFields([m, c]) == (if |c| > 40 then c else "", m)
  {
    hide LooksLikeJWT;
    assert Trim(m) == m && Trim(c) == c;
    ScanPicks([m, c], "", "", -1, 0);
  }


  /** A word ahead of more words is a field of its own. */
  lemma {:induction false} WordAhead(a: string, rest: string)
    requires a != "" && rest != "" && (forall c :: c in a ==> !IsSpace(c)) && !IsSpace(rest[0])
    ensures Fields(a + [' '] + rest) == [a] + Fields(rest)
    decreases |a|
  {
    var line := a + [' '] + rest;
    assert a[0] in a;
    if |a| == 1 {
      assert line[1..] == [' '] + rest && line[1..][1..] == rest && [a[0]] == a;
    } else {
      assert a[1] in a && line[1] == a[1];
      WordAhead(a[1..], rest);
      assert line[1..] == a[1..] + [' '] + rest && [a[0]] + a[1..] == a;
    }
  }

  /** Without any separator a line is read by its words. */
  lemma ByWords(line: string)
    requires !Contains(line, "----") && '|' !in line && '\t' !in line && ',' !in line
    ensures LineFields(line) == WordFields(line)
  {
    assert Count(line, ',') == 0;
    hide WordFields, Contains, DashFields, DashParts;
  }

  lemma SpacedFree(x: string, y: string)
    requires !Contains(x, "---") && !Contains(y, "---")
    ensures !Contains(x + [' '] + y, "---")
  {
    var line := x + [' '] + y;
    TripleFree(x);
    TripleFree(y);
    TripleFree(line);
    hide Contains;
    assert line[|x|] == ' ';
    forall i ensures !TripleAt(line, i) { assert !TripleAt(x, i) && !TripleAt(y, i - |x| - 1); }
  }

  lemma WordPairFields(a: string, b: string, m: string, fields: seq<string>)
    requires fields == [a, b, m] && '@' in m
    ensures Join(fields[..2], "") == a + b
  {
    assert fields[..2] == [a, b] && [a, b][1..] == [b] && a + "" + b == a + b;
  }

  /** A cookie that white space has broken in two is put together again before its
      e-mail. */
  lemma BrokenCookieReads(a: string, b: string, m: string)
    requires a != "" && b != "" && IsToken(a + b) && WordMail(m)
    ensures LineFields(a + [' '] + (b + [' '] + m)) == (a + b, m) && Admit(a + b, m) == Some(Item(a + b, m))
  {
    hide *;
    PairFacts(m, a + b);
    WordChars(m, a + b);
    BrokenWords(a, b, m);
    BrokenLine(a, b, m);
    ByWords(a + [' '] + (b + [' '] + m));
  }

  lemma BrokenWords(a: string, b: string, m: string)
    requires a != "" && b != "" && m != "" && '@' in m
    requires (forall c :: c in a + b ==> !IsSpace(c)) && forall c :: c in m ==> !IsSpace(c)
    ensures WordFields(a + [' '] + (b + [' '] + m)) == (a + b, m)
  {
    hide IsSpace, Fields, LooksLikeJWT;
    var rest := b + [' '] + m;
    assert forall c :: c in a || c in b ==> c in a + b;
    assert b[0] in b && rest[0] == b[0];
    WordAhead(a, rest);
    TwoWords(b, m);
    assert Fields(a + [' '] + rest) == [a, b, m];
    WordPairFields(a, b, m, [a, b, m]);
  }

  /** Words between an e-mail and the cookie at the end of the line are passed over. */
  lemma MiddleWordIsIgnored(m: string, x: string, sso: string)
    requires WordMail(m) && IsToken(sso) && x != "" && !Contains(x, "---")
    requires (forall c :: c in x ==> !IsSpace(c)) && '|' !in x && ',' !in x
    ensures LineFields(m + [' '] + (x + [' '] + sso)) == (sso, m)
  {
    hide WordMail, IsToken, Contains, LooksLikeJWT, Admit, WordFields, LineFields, IsSpace, Trim, IsTrimmed;
    PairFacts(m, sso);
    WordChars(m, sso);
    AroundWords(m, x, sso);
    SpacedFree(x, sso);
    SpacedFree(m, x + [' '] + sso);
    var line := m + [' '] + (x + [' '] + sso);
    TripleFree(line);
    TabIsSpace();
    assert forall c :: c in line ==> c in m || c == ' ' || c in x || c in sso;
    ByWords(line);
  }

  lemma TabIsSpace()
    ensures IsSpace('\t')
  {}

  lemma AroundWords(m: string, x: string, sso: string)
    requires m != "" && x != "" && sso != "" && '@' in m && '@' !in sso && LooksLikeJWT(sso)
    requires (forall c :: c in m ==> !IsSpace(c)) && (forall c :: c in x ==> !IsSpace(c))
    requires forall c :: c in sso ==> !IsSpace(c)
    ensures WordFields(m + [' '] + (x + [' '] + sso)) == (sso, m)
  {
    hide IsSpace, Fields, LooksLikeJWT;
    var rest := x + [' '] + sso;
    assert x[0] in x && rest[0] == x[0];
    WordAhead(m, rest);
    TwoWords(x, sso);
    assert Fields(m + [' '] + rest) == [m, x, sso];
  }

  /** Such a line has no separator. */
  lemma BrokenLine(a: string, b: string, m: string)
    requires IsToken(a + b) && WordMail(m)
    ensures var line := a + [' '] + (b + [' '] + m);
            !Contains(line, "----") && '|' !in line && '\t' !in line && ',' !in line
  {
    hide IsToken, WordMail, Contains, LooksLikeJWT, HasPrefix, Admit;
    var whole, line := a + b, a + [' '] + (b + [' '] + m);
    PairFacts(m, whole);
    assert whole[0..|a|] == a && whole[|a|..|whole|] == b;
    NoTripleInside(whole, 0, |a|);
    NoTripleInside(whole, |a|, |whole|);
    SpacedFree(b, m);
    SpacedFree(a, b + [' '] + m);
    TripleFree(line);
    assert forall c :: c in line ==> c in whole || c == ' ' || c in m;
  }

  // ---- The list ----

  /** The line at `i` is the first to be read as its cookie, which no item before the
      lines has. */
  ghost predicate FirstRead(items: seq<Item>, lines: seq<string>, i: int) {
    && 0 <= i < |lines| && ReadLine(lines[i]).Some?
    && (forall j :: 0 <= j < i && ReadLine(lines[j]).Some? ==>
          ReadLine(lines[j]).value.sso != ReadLine(lines[i]).value.sso)
    && (forall x :: x in items ==> x.sso != ReadLine(lines[i]).value.sso)
  }

  /** A list is the items there were, then those of the lines that bring a new cookie. */
  lemma {:induction false} ListReads(items: seq<Item>, lines: seq<string>)
    ensures items <= ReadLines(items, lines)
    ensures forall i :: FirstRead(items, lines, i) ==> ReadLine(lines[i]).value in ReadLines(items, lines)
    ensures forall x :: x in ReadLines(items, lines) ==>
              x in items || exists i :: FirstRead(items, lines, i) && ReadLine(lines[i]) == Some(x)
  {
    hide ReadLine;
    if lines != [] {
      var n := |lines| - 1;
      var before, r := lines[..n], ReadLines(items, lines[..n]);
      ListReads(items, before);
      forall i | 0 <= i < n ensures FirstRead(items, before, i) <==> FirstRead(items, lines, i) {
        assert forall j :: 0 <= j <= i ==> before[j] == lines[j];
      }
      if ReadLine(lines[n]).Some? { LastRead(items, lines); }
      forall x | x in ReadLines(items, lines)
        ensures x in items || exists i :: FirstRead(items, lines, i) && ReadLine(lines[i]) == Some(x)
      {
        if x in r && x !in items {
          var i :| FirstRead(items, before, i) && ReadLine(before[i]) == Some(x);
          assert FirstRead(items, lines, i);
        }
      }
    }
  }

  /** The last line brings a new cookie exactly when the list so far lacks it. */
  lemma LastRead(items: seq<Item>, lines: seq<string>)
    requires lines != [] && ReadLine(lines[|lines| - 1]).Some?
    ensures var n := |lines| - 1;
            FirstRead(items, lines, n) <==> !HasToken(ReadLines(items, lines[..n]), ReadLine(lines[n]).value.sso)
  {
    var n := |lines| - 1;
    TokensRead(items, lines[..n], ReadLine(lines[n]).value.sso);
    hide ReadLine, ReadLines, HasToken;
    assert forall j :: 0 <= j < n ==> lines[..n][j] == lines[j];
  }

  lemma {:induction false} TokensRead(items: seq<Item>, lines: seq<string>, sso: string)
    ensures HasToken(ReadLines(items, lines), sso) <==>
              (exists x :: x in items && x.sso == sso)
              || exists j :: 0 <= j < |lines| && ReadLine(lines[j]).Some? && ReadLine(lines[j]).value.sso == sso
  {
    hide ReadLine;
    if lines == [] {
      if HasToken(items, sso) {
        var i :| 0 <= i < |items| && items[i].sso == sso;
        assert items[i] in items;
      }
    } else {
      var n := |lines| - 1;
      TokensRead(items, lines[..n], sso);
      var r, it := ReadLines(items, lines[..n]), ReadLine(lines[n]);
      assert forall j :: 0 <= j < n ==> lines[..n][j] == lines[j];
      if it.Some? { KeepToken(r, it.value, sso); }
    }
  }

  lemma KeepToken(items: seq<Item>, it: Item, sso: string)
    ensures HasToken(Keep(items, Some(it)), sso) <==> HasToken(items, sso) || it.sso == sso
  {
    var more := Keep(items, Some(it));
    if i :| 0 <= i < |items| && items[i].sso == sso { assert more[i].sso == sso; }
    if !HasToken(items, it.sso) { assert more[|items|] == it; }
    if k :| 0 <= k < |more| && more[k].sso == sso { assert k < |items| ==> items[k].sso == sso; }
  }
}
