/** Reading an SSO list: one cookie per line, in any of the formats users paste. */
module SsoList {
  import opened Text
  import opened Wrappers

  datatype Item = Item(sso: string, email: string)

  // ---- Splitting at runs of dashes ----

  function DashRun(s: string): (r: nat)
    ensures r <= |s| && (r < |s| ==> s[r] != '-')
    ensures forall i :: 0 <= i < r ==> s[i] == '-'
  {
    if s != "" && s[0] == '-' then 1 + DashRun(s[1..]) else 0
  }

  /** Put `head` in front of the first piece. */
  function Glue(head: string, pieces: seq<string>): seq<string>
    requires |pieces| > 0
  {
    [head + pieces[0]] + pieces[1..]
  }

  /** The text between the maximal runs of three or more dashes. */
  function Pieces(s: string): (r: seq<string>)
    ensures |r| > 0
    decreases |s|
  {
    if s == "" then [""]
    else if s[0] != '-' then Glue([s[0]], Pieces(s[1..]))
    else
      var n := DashRun(s);
      if n >= 3 then [""] + Pieces(s[n..]) else Glue(s[..n], Pieces(s[n..]))
  }

  /** The lengths of the runs between the pieces. */
  function Gaps(s: string): seq<nat>
    decreases |s|
  {
    if s == "" then []
    else if s[0] != '-' then Gaps(s[1..])
    else
      var n := DashRun(s);
      if n >= 3 then [n] + Gaps(s[n..]) else Gaps(s[n..])
  }

  /** The pieces, without an empty one at the end. */
  function DashParts(s: string): seq<string> {
    var p := Pieces(s);
    if p[|p| - 1] == "" then p[..|p| - 1] else p
  }

  function Dashes(n: nat): string { seq(n, _ => '-') }

  /** Pieces with dash runs of the given lengths put back between them. */
  function Weave(pieces: seq<string>, gaps: seq<nat>): string
    requires |pieces| == |gaps| + 1
  {
    if gaps == [] then pieces[0] else pieces[0] + Dashes(gaps[0]) + Weave(pieces[1..], gaps[1..])
  }

  lemma GlueWeave(head: string, pieces: seq<string>, gaps: seq<nat>)
    requires |pieces| == |gaps| + 1
    ensures Weave(Glue(head, pieces), gaps) == head + Weave(pieces, gaps)
  {
    if gaps != [] { assert Glue(head, pieces)[1..] == pieces[1..]; }
  }

  lemma RunIsDashes(s: string)
    ensures s == Dashes(DashRun(s)) + s[DashRun(s)..] && s[..DashRun(s)] == Dashes(DashRun(s))
  {
    hide DashRun;
  }

  lemma WeaveEmpty(n: nat, pieces: seq<string>, gaps: seq<nat>)
    requires |pieces| == |gaps| + 1
    ensures Weave([""] + pieces, [n] + gaps) == Dashes(n) + Weave(pieces, gaps)
  {
    assert ([""] + pieces)[1..] == pieces && ([n] + gaps)[1..] == gaps;
    assert "" + Dashes(n) == Dashes(n);
  }

  /** Re-inserting the removed runs gives back the line; each run had at least
      three dashes. */
  lemma {:induction false} WeaveBack(s: string)
    ensures |Pieces(s)| == |Gaps(s)| + 1 && Weave(Pieces(s), Gaps(s)) == s
    ensures forall i :: 0 <= i < |Gaps(s)| ==> Gaps(s)[i] >= 3
    decreases |s|
  {
    if s == "" {
    } else if s[0] != '-' {
      WeaveBack(s[1..]);
      GlueWeave([s[0]], Pieces(s[1..]), Gaps(s[1..]));
      hide Weave, Dashes;
      assert s == [s[0]] + s[1..];
    } else {
      var n := DashRun(s);
      WeaveBack(s[n..]);
      RunIsDashes(s);
      WeaveEmpty(n, Pieces(s[n..]), Gaps(s[n..]));
      GlueWeave(s[..n], Pieces(s[n..]), Gaps(s[n..]));
      hide Weave, Dashes, Glue;
    }
  }

  lemma FirstPiece(s: string)
    ensures s == "" || s[0] != '-' ==> Pieces(s)[0] == "" || Pieces(s)[0][0] != '-'
  {}

  lemma FirstPieceStarts(s: string)
    requires s != "" && s[0] != '-'
    ensures Pieces(s)[0] != "" && Pieces(s)[0][0] == s[0]
  {}

  predicate EndsPlain(x: string) { x == "" || x[|x| - 1] != '-' }
  predicate StartsPlain(x: string) { x == "" || x[0] != '-' }

  /** No dash is left beside a removed run: no piece but the last ends with a dash,
      and none but the first starts with one. */
  predicate Bordered(pieces: seq<string>) {
    && (forall i :: 0 <= i < |pieces| - 1 ==> EndsPlain(pieces[i]))
    && (forall i :: 1 <= i < |pieces| ==> StartsPlain(pieces[i]))
  }

  /** The removed runs are maximal. */
  lemma {:induction false} RunsAreMaximal(s: string)
    ensures Bordered(Pieces(s))
    decreases |s|
  {
    if s == "" {
    } else if s[0] != '-' {
      RunsAreMaximal(s[1..]);
      GlueBordered([s[0]], Pieces(s[1..]));
    } else {
      var n := DashRun(s);
      RunsAreMaximal(s[n..]);
      if s[n..] != "" { FirstPieceStarts(s[n..]); }
      if n >= 3 {
        CloseBordered(Pieces(s[n..]));
      } else {
        GlueBordered(s[..n], Pieces(s[n..]));
      }
    }
  }

  lemma CloseBordered(pieces: seq<string>)
    requires |pieces| > 0 && Bordered(pieces) && StartsPlain(pieces[0])
    ensures Bordered([""] + pieces)
  {
    EmptyPlain();
    hide EndsPlain, StartsPlain;
  }

  lemma EmptyPlain()
    ensures EndsPlain("")
  {}

  lemma GlueBordered(head: string, pieces: seq<string>)
    requires |pieces| > 0 && head != "" && Bordered(pieces)
    requires pieces[0] == "" && |pieces| > 1 ==> EndsPlain(head)
    ensures Bordered(Glue(head, pieces))
  {
    var r := Glue(head, pieces);
    assert |pieces| > 1 ==> EndsPlain(pieces[0]);
    assert |pieces| > 1 ==> EndsPlain(head + pieces[0]);
    hide EndsPlain, StartsPlain;
    forall i | 1 <= i < |r| ensures r[i] == pieces[i] {}
  }

  lemma ShiftMatch(head: string, s: string, i: int)
    requires MatchesAt(head + s, "---", i) && i >= |head|
    ensures MatchesAt(s, "---", i - |head|)
  {
    assert (head + s)[i..i + 3] == s[i - |head|..i - |head| + 3];
  }

  lemma NoTriple(head: string, s: string)
    requires |head| <= 2 && (s == "" || s[0] != '-') && Index(s, "---") == -1
    ensures Index(head + s, "---") == -1
  {
    forall i ensures !MatchesAt(head + s, "---", i) {
      if MatchesAt(head + s, "---", i) {
        assert (head + s)[i..i + 3][0] == '-' && (head + s)[i..i + 3][1] == '-' && (head + s)[i..i + 3][2] == '-';
        if i >= |head| { ShiftMatch(head, s, i); }
      }
    }
  }

  lemma NoTripleAfterChar(c: char, s: string)
    requires c != '-' && Index(s, "---") == -1
    ensures Index([c] + s, "---") == -1
  {
    forall i ensures !MatchesAt([c] + s, "---", i) {
      if MatchesAt([c] + s, "---", i) {
        assert ([c] + s)[i..i + 3][0] == '-';
        ShiftMatch([c], s, i);
      }
    }
  }

  /** No part contains a run of three dashes. */
  lemma {:induction false} PartsHaveNoTriple(s: string)
    ensures forall i :: 0 <= i < |Pieces(s)| ==> !Contains(Pieces(s)[i], "---")
    ensures forall p :: p in DashParts(s) ==> !Contains(p, "---")
    decreases |s|
  {
    if s == "" {
    } else if s[0] != '-' {
      PartsHaveNoTriple(s[1..]);
      NoTripleAfterChar(s[0], Pieces(s[1..])[0]);
    } else {
      var n := DashRun(s);
      PartsHaveNoTriple(s[n..]);
      if n < 3 {
        FirstPiece(s[n..]);
        NoTriple(s[..n], Pieces(s[n..])[0]);
      }
    }
  }

  lemma RunThenRest(s: string, n: nat)
    requires n <= |s| && (forall i :: 0 <= i < n ==> s[i] == '-') && (n < |s| ==> s[n] != '-')
    ensures DashRun(s) == n
  {
    if n > 0 { RunThenRest(s[1..], n - 1); }
  }

  lemma GlueTwice(a: string, b: string, p: seq<string>)
    requires |p| > 0
    ensures Glue(a, Glue(b, p)) == Glue(a + b, p) && Glue("", p) == p
  {
    assert a + (b + p[0]) == (a + b) + p[0];
    assert "" + p[0] == p[0];
    assert Glue("", p) == p;
  }

  /** A closed piece: gluing in front of an empty first piece ends it. */
  lemma ClosePiece(parts: seq<string>, cur: string, tail: seq<string>)
    requires |tail| > 0
    ensures parts + Glue(cur, [""] + tail) == (parts + [cur]) + Glue("", tail)
  {
    assert cur + "" == cur;
    GlueTwice("", "", tail);
    assert ([""] + tail)[1..] == tail;
  }

  /** What the pending dashes and the next character turn into. */
  lemma PiecesFrom(line: string, i: nat, dash: nat)
    requires dash <= i < |line| && line[i] != '-' && forall k :: i - dash <= k < i ==> line[k] == '-'
    ensures Pieces(line[i - dash..]) ==
              if dash >= 3 then [""] + Glue([line[i]], Pieces(line[i + 1..]))
              else Glue(Dashes(dash) + [line[i]], Pieces(line[i + 1..]))
  {
    var rest := line[i - dash..];
    RunThenRest(rest, dash);
    assert rest[dash..] == line[i..] && rest[..dash] == Dashes(dash);
    assert line[i..][1..] == line[i + 1..];
    GlueTwice(Dashes(dash), [line[i]], Pieces(line[i + 1..]));
    assert Dashes(0) + [line[i]] == [line[i]];
  }

  lemma PiecesEnd(line: string, dash: nat)
    requires dash <= |line| && forall k :: |line| - dash <= k < |line| ==> line[k] == '-'
    ensures Pieces(line[|line| - dash..]) == if dash >= 3 then ["", ""] else [Dashes(dash)]
  {
    var rest := line[|line| - dash..];
    RunThenRest(rest, dash);
    assert rest[dash..] == "" && rest == Dashes(dash) == rest[..dash];
    assert Dashes(dash) + "" == Dashes(dash);
  }

  /** The splitter's state: closed parts, the open part, and pending dashes. */
  ghost predicate Splitting(line: string, i: nat, parts: seq<string>, cur: string, dash: nat) {
    && dash <= i <= |line| && (forall k :: i - dash <= k < i ==> line[k] == '-')
    && Pieces(line) == parts + Glue(cur, Pieces(line[i - dash..]))
  }

  lemma SplitStart(line: string)
    ensures Splitting(line, 0, [], "", 0)
  {
    assert line[0..] == line;
    GlueTwice("", "", Pieces(line));
  }

  lemma SplitStep(line: string, i: nat, parts: seq<string>, cur: string, dash: nat)
    requires i < |line| && line[i] != '-' && Splitting(line, i, parts, cur, dash)
    ensures dash >= 3 ==> Splitting(line, i + 1, parts + [cur], [line[i]], 0)
    ensures dash < 3 ==> Splitting(line, i + 1, parts, cur + Dashes(dash) + [line[i]], 0)
  {
    var c, after := [line[i]], Pieces(line[i + 1..]);
    PiecesFrom(line, i, dash);
    if dash >= 3 {
      ClosePiece(parts, cur, Glue(c, after));
      GlueTwice("", c, after);
      assert "" + c == c;
    } else {
      GlueTwice(cur, Dashes(dash) + c, after);
      assert cur + (Dashes(dash) + c) == cur + Dashes(dash) + c;
    }
  }

  lemma SplitEnd(line: string, parts: seq<string>, cur: string, dash: nat)
    requires Splitting(line, |line|, parts, cur, dash)
    ensures Pieces(line) == if dash >= 3 then parts + [cur, ""] else parts + [cur + Dashes(dash)]
  {
    PiecesEnd(line, dash);
    assert cur + "" == cur;
  }

  /** splitDashSep. */
  method SplitDashSep(line: string) returns (parts: seq<string>)
    ensures parts == DashParts(line)
  {
    parts := [];
    var cur, dash := "", 0;
    SplitStart(line);
    hide Splitting, Pieces, Dashes;
    for i := 0 to |line|
      invariant 0 <= dash && Splitting(line, i, parts, cur, dash)
    {
      if line[i] == '-' {
        DashPending(line, i, parts, cur, dash);
        dash := dash + 1;
        continue;
      }
      SplitStep(line, i, parts, cur, dash);
      EmptyRun();
      if dash > 0 {
        if dash >= 3 {
          parts := parts + [cur];
          cur := "";
        } else {
          cur := cur + Dashes(dash);
        }
        dash := 0;
      } else {
        assert cur + "" == cur;
      }
      assert "" + [line[i]] == [line[i]];
      cur := cur + [line[i]];
    }
    SplitEnd(line, parts, cur, dash);
    if dash >= 3 {
      parts := parts + [cur];
    } else {
      cur := cur + Dashes(dash);
      if |cur| > 0 { parts := parts + [cur]; }
    }
  }

  lemma DashPending(line: string, i: nat, parts: seq<string>, cur: string, dash: nat)
    requires i < |line| && line[i] == '-' && Splitting(line, i, parts, cur, dash)
    ensures Splitting(line, i + 1, parts, cur, dash + 1)
  {}

  lemma EmptyRun()
    ensures Dashes(0) == ""
  {}

  // ---- Reading one line ----

  predicate LooksLikeJWT(s: string) {
    var t := Trim(s);
    if t == "" then false
    else if HasPrefix(t, "eyJ") then Count(t, '.') >= 2
    else
      var parts := Split(t, '.');
      |parts| == 3 && |parts[0]| > 10 && |parts[1]| > 10
  }

  /** The segments of a dashed line: the first JWT-like one is the cookie, the
      first other one with an `@` the e-mail. */
  function ScanParts(parts: seq<string>, sso: string, email: string): (string, string) {
    if parts == [] then (sso, email)
    else
      var p := Trim(parts[0]);
      if p == "" then ScanParts(parts[1..], sso, email)
      else if LooksLikeJWT(p) && sso == "" then ScanParts(parts[1..], p, email)
      else if '@' in p && email == "" then ScanParts(parts[1..], sso, p)
      else ScanParts(parts[1..], sso, email)
  }

  function DashFields(parts: seq<string>): (string, string) {
    var (sso, email) := ScanParts(parts, "", "");
    if parts == [] then (sso, email)
    else
      var last, first := Trim(parts[|parts| - 1]), Trim(parts[0]);
      (if sso == "" && (LooksLikeJWT(last) || |last| > 40) then last else sso,
       if email == "" && '@' in first then first else email)
  }

  /** strings.SplitN(s, sep, 2), both halves trimmed. */
  function Cut(s: string, sep: char): (string, string) {
    var i := Index(s, [sep]);
    if i < 0 then (Trim(s), "") else (Trim(s[..i]), Trim(s[i + 1..]))
  }

  /** strings.Fields. */
  function Fields(s: string): seq<string> {
    if s == "" then []
    else if IsSpace(s[0]) then Fields(s[1..])
    else if |s| == 1 || IsSpace(s[1]) then [[s[0]]] + Fields(s[1..])
    else
      var rest := Fields(s[1..]);
      if rest == [] then [s] else [[s[0]] + rest[0]] + rest[1..]
  }

  function WordFields(line: string): (string, string) {
    var f := Fields(line);
    var n := |f|;
    if n >= 2 && '@' in f[n - 1] then (Join(f[..n - 1], ""), f[n - 1])
    else if n >= 2 && '@' in f[0] && LooksLikeJWT(f[n - 1]) then (f[n - 1], f[0])
    else (line, "")
  }

  /** The cookie and the e-mail of a trimmed line, by its format. */
  function LineFields(line: string): (string, string) {
    if Contains(line, "----") then DashFields(DashParts(line))
    else if '|' in line then
      var (l, r) := Cut(line, '|');
      if LooksLikeJWT(l) || ('@' !in l && '@' in r) then (l, r)
      else if LooksLikeJWT(r) then (r, l)
      else (l, r)
    else if '\t' in line then
      var (l, r) := Cut(line, '\t');
      if LooksLikeJWT(r) || '@' in l then (r, l) else (l, r)
    else if Count(line, ',') == 1 && !HasPrefix(line, "eyJ") then
      var (l, r) := Cut(line, ',');
      if LooksLikeJWT(r) || '@' in l then (r, l) else (l, r)
    else WordFields(line)
  }

  /** Separate a cookie value that still carries an e-mail. */
  function Untangle(sso: string, email: string): (string, string) {
    var i := Index(sso, "----");
    if i < 0 then (sso, email)
    else
      var l, r := Trim(sso[..i]), Trim(sso[i + 4..]);
      if LooksLikeJWT(r) then (r, if email == "" && '@' in l then l else email)
      else if LooksLikeJWT(l) then (l, if email == "" && '@' in r then r else email)
      else (sso, email)
  }

  /** Accept a cookie, unless it is blank or nothing but an e-mail address. */
  function Admit(sso: string, email: string): Option<Item> {
    var s := Trim(sso);
    if s == "" then None
    else
      var bare := if HasPrefix(ToLower(s), "sso=") then Trim(s[4..]) else s;
      var (token, mail) := Untangle(bare, Trim(email));
      if !LooksLikeJWT(token) && !HasPrefix(token, "eyJ") && '@' in token && ('.' !in token || |token| < 80)
      then None
      else Some(Item(token, mail))
  }

  const BOM: string := "\U{FEFF}"

  predicate IsComment(line: string) { line == "" || HasPrefix(line, "#") }

  /** The item one line of the list gives, if any. */
  function ReadLine(line0: string): Option<Item> {
    var line := Trim(TrimPrefix(line0, BOM));
    if IsComment(line) then None
    else
      var (sso, email) := LineFields(line);
      Admit(sso, email)
  }

  // ---- Reading the whole list ----

  predicate HasToken(items: seq<Item>, sso: string) { exists i :: 0 <= i < |items| && items[i].sso == sso }

  /** Keep an item unless its cookie has been seen. */
  function Keep(items: seq<Item>, it: Option<Item>): seq<Item> {
    if it.None? || HasToken(items, it.value.sso) then items else items + [it.value]
  }

  function ReadCookies(cookies: seq<Item>): seq<Item> {
    if cookies == [] then []
    else
      var c := cookies[|cookies| - 1];
      Keep(ReadCookies(cookies[..|cookies| - 1]), Admit(c.sso, c.email))
  }

  function ReadLines(items: seq<Item>, lines: seq<string>): seq<Item> {
    if lines == [] then items
    else Keep(ReadLines(items, lines[..|lines| - 1]), ReadLine(lines[|lines| - 1]))
  }

  function ParseItems(cookies: seq<Item>, text: string): seq<Item> {
    ReadLines(ReadCookies(cookies), Split(text, '\n'))
  }

  predicate Distinct(s: seq<string>) { forall i, j :: 0 <= i < j < |s| ==> s[i] != s[j] }

  predicate TokensDistinct(items: seq<Item>) {
    forall i, j :: 0 <= i < j < |items| ==> items[i].sso != items[j].sso
  }

  /** Keep an item unless its cookie is in `seen`. */
  method AddItem(items: seq<Item>, seen: set<string>, it: Option<Item>) returns (more: seq<Item>, sn: set<string>)
    requires TokensDistinct(items) && seen == set i | 0 <= i < |items| :: items[i].sso
    ensures more == Keep(items, it) && TokensDistinct(more) && sn == set i | 0 <= i < |more| :: more[i].sso
  {
    more, sn := items, seen;
    if it.None? { return; }
    if it.value.sso in seen {
      assert HasToken(items, it.value.sso);
      return;
    }
    assert !HasToken(items, it.value.sso);
    more, sn := items + [it.value], seen + {it.value.sso};
    forall x ensures x in sn <==> x in (set i | 0 <= i < |more| :: more[i].sso) {
      if x == it.value.sso {
        assert more[|items|].sso == x;
      } else if x in seen {
        var i :| 0 <= i < |items| && items[i].sso == x;
        assert more[i].sso == x;
      }
    }
  }

  /** parseSSOItems. No cookie is listed twice. */
  method ParseSSOItems(cookies: seq<Item>, text: string) returns (items: seq<Item>)
    ensures items == ParseItems(cookies, text) && TokensDistinct(items)
  {
    items := [];
    var seen: set<string> := {};
    hide Admit, ReadLine, Keep, Split;
    for i := 0 to |cookies|
      invariant items == ReadCookies(cookies[..i]) && TokensDistinct(items)
      invariant seen == set j | 0 <= j < |items| :: items[j].sso
    {
      assert cookies[..i + 1][..i] == cookies[..i];
      items, seen := AddItem(items, seen, Admit(cookies[i].sso, cookies[i].email));
    }
    assert cookies[..|cookies|] == cookies;
    var lines := Split(text, '\n');
    for i := 0 to |lines|
      invariant items == ReadLines(ReadCookies(cookies), lines[..i]) && TokensDistinct(items)
      invariant seen == set j | 0 <= j < |items| :: items[j].sso
    {
      assert lines[..i + 1][..i] == lines[..i];
      var it := ReadOneLine(lines[i]);
      items, seen := AddItem(items, seen, it);
    }
    assert lines[..|lines|] == lines;
  }

  /** One line, its dashed segments visited in order. */
  method ReadOneLine(line0: string) returns (it: Option<Item>)
    ensures it == ReadLine(line0)
  {
    var line := Trim(TrimPrefix(line0, BOM));
    if IsComment(line) { return None; }
    var sso, email := "", "";
    hide LooksLikeJWT, Admit;
    if Contains(line, "----") {
      var parts := SplitDashSep(line);
      hide DashParts, Contains;
      for i := 0 to |parts|
        invariant ScanParts(parts, "", "") == ScanParts(parts[i..], sso, email)
      {
        assert parts[i..][0] == parts[i] && parts[i..][1..] == parts[i + 1..];
        var p := Trim(parts[i]);
        if p == "" { continue; }
        if LooksLikeJWT(p) && sso == "" {
          sso := p;
          continue;
        }
        if '@' in p && email == "" {
          email := p;
          continue;
        }
      }
      if |parts| > 0 {
        var last, first := Trim(parts[|parts| - 1]), Trim(parts[0]);
        if sso == "" && (LooksLikeJWT(last) || |last| > 40) { sso := last; }
        if email == "" && '@' in first { email := first; }
      }
    } else {
      var f := LineFields(line);
      sso, email := f.0, f.1;
    }
    return Admit(sso, email);
  }
}
