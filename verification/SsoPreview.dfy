/** What the import preview reports about a pasted list, and how an import drops
    all but the last item of each account. */
module SsoPreview {
  import opened Text
  import opened SsoExport
  import opened SsoList
  import opened Wrappers

  // ---- First occurrences ----

  /** The distinct elements, in first-seen order. */
  function Firsts(s: seq<string>): seq<string> {
    if s == [] then []
    else
      var r, x := Firsts(s[..|s| - 1]), s[|s| - 1];
      if x in r then r else r + [x]
  }

  function Elements(s: seq<string>): set<string> { set x | x in s }

  lemma FirstsGrow(s: seq<string>, x: string)
    ensures Firsts(s + [x]) == if x in Firsts(s) then Firsts(s) else Firsts(s) + [x]
  {
    assert (s + [x])[..|s|] == s;
  }

  lemma {:induction false} FirstsAreDistinct(s: seq<string>)
    ensures Distinct(Firsts(s)) && |Firsts(s)| <= |s| && forall x :: x in Firsts(s) <==> x in s
  {
    if s != [] {
      FirstsAreDistinct(s[..|s| - 1]);
      assert s == s[..|s| - 1] + [s[|s| - 1]];
    }
  }

  /** The distinct elements stand in the order in which they are first seen. */
  lemma {:induction false} FirstsInOrder(s: seq<string>, i: nat, j: nat) returns (a: nat)
    requires i < j < |Firsts(s)|
    ensures a < |s| && s[a] == Firsts(s)[i] && forall b :: 0 <= b < |s| && s[b] == Firsts(s)[j] ==> a < b
  {
    var n := |s| - 1;
    var init := s[..n];
    if j < |Firsts(init)| {
      a := FirstsInOrder(init, i, j);
      forall b | 0 <= b < |s| && s[b] == Firsts(s)[j] ensures a < b {
        assert b < n ==> init[b] == s[b];
      }
    } else {
      FirstsAreDistinct(init);
      assert Firsts(init)[i] in Firsts(init);
      a :| 0 <= a < n && init[a] == Firsts(init)[i];
      forall b | 0 <= b < n ensures s[b] != Firsts(s)[j] { assert init[b] in init; }
    }
  }

  lemma {:induction false} DistinctSize(s: seq<string>)
    requires Distinct(s)
    ensures |Elements(s)| == |s|
  {
    if s != [] {
      var init, x := s[..|s| - 1], s[|s| - 1];
      DistinctSize(init);
      assert s == init + [x] && x !in init;
      assert Elements(s) == Elements(init) + {x};
    }
  }

  lemma FirstsSize(s: seq<string>)
    ensures |Firsts(s)| == |Elements(s)|
  {
    FirstsAreDistinct(s);
    DistinctSize(Firsts(s));
    assert Elements(Firsts(s)) == Elements(s);
  }

  /** With fewer elements to choose from there are at most as many distinct ones,
      and equally many only if none is missing. */
  lemma FewerFirsts(a: seq<string>, b: seq<string>)
    requires forall x :: x in a ==> x in b
    ensures |Firsts(a)| <= |Firsts(b)|
    ensures |Firsts(a)| == |Firsts(b)| <==> forall x :: x in b ==> x in a
  {
    FirstsSize(a);
    FirstsSize(b);
    var extra := Elements(b) - Elements(a);
    assert Elements(b) == Elements(a) + extra;
    assert |Elements(b)| == |Elements(a)| + |extra|;
    if y :| y in b && y !in a { assert y in extra; }
  }

  // ---- Items ----

  function Tokens(items: seq<Item>): seq<string> {
    seq(|items|, i requires 0 <= i < |items| => items[i].sso)
  }

  /** What an import counts as one account. */
  function Key(it: Item): string {
    if Norm(it.email) == "" then "sso:" + it.sso else Norm(it.email)
  }

  /** Two items are one account if they have one e-mail or, without e-mails, one
      cookie; an e-mail that reads `sso:` and a cookie is that cookie's account too. */
  lemma SameAccountIff(a: Item, b: Item)
    ensures var x, y := Norm(a.email), Norm(b.email);
            Key(a) == Key(b) <==>
              || (x == y && (x == "" ==> a.sso == b.sso))
              || (x == "" && y == "sso:" + a.sso) || (y == "" && x == "sso:" + b.sso)
  {
    hide Norm;
    assert ("sso:" + a.sso)[4..] == a.sso && ("sso:" + b.sso)[4..] == b.sso;
  }

  function Keys(items: seq<Item>): seq<string> {
    seq(|items|, i requires 0 <= i < |items| => Key(items[i]))
  }

  /** The normalised e-mails, without blank ones. */
  function Mails(items: seq<Item>): seq<string> {
    if items == [] then []
    else
      var m := Norm(items[|items| - 1].email);
      Mails(items[..|items| - 1]) + if m == "" then [] else [m]
  }

  function MailLess(items: seq<Item>): nat {
    if items == [] then 0
    else MailLess(items[..|items| - 1]) + if items[|items| - 1].email == "" then 1 else 0
  }

  /** The first item of each cookie. */
  function KeepFirst(items: seq<Item>): seq<Item> {
    if items == [] then [] else Keep(KeepFirst(items[..|items| - 1]), Some(items[|items| - 1]))
  }

  lemma ItemsGrow(items: seq<Item>, it: Item)
    ensures Tokens(items + [it]) == Tokens(items) + [it.sso] && Keys(items + [it]) == Keys(items) + [Key(it)]
  {
    hide Key;
  }

  lemma HasTokenIn(items: seq<Item>, sso: string)
    ensures HasToken(items, sso) <==> sso in Tokens(items)
  {
    if i :| 0 <= i < |items| && items[i].sso == sso { assert Tokens(items)[i] == sso; }
  }

  lemma TokensLength(items: seq<Item>)
    ensures |Tokens(items)| == |items|
  {}

  lemma KeepFirstNone()
    ensures KeepFirst([]) == [] && Tokens([]) == [] && Firsts([]) == []
  {}

  lemma KeepFirstStep(init: seq<Item>, it: Item)
    ensures KeepFirst(init + [it]) == Keep(KeepFirst(init), Some(it))
  {
    assert (init + [it])[..|init|] == init;
    hide HasToken;
  }

  /** Keeping the first item of each cookie keeps the distinct cookies in order,
      brings no new account, and changes nothing when no cookie repeats. */
  lemma {:induction false} KeepFirstTokens(items: seq<Item>)
    ensures Tokens(KeepFirst(items)) == Firsts(Tokens(items))
    ensures forall x :: x in Keys(KeepFirst(items)) ==> x in Keys(items)
    ensures |Firsts(Tokens(items))| == |items| ==> KeepFirst(items) == items
  {
    hide Key, Tokens, Keys, Firsts, Distinct, HasToken, KeepFirst;
    if items == [] {
      KeepFirstNone();
    } else {
      var n := |items| - 1;
      var init, it := items[..n], items[n];
      KeepFirstTokens(init);
      FirstsAreDistinct(Tokens(init));
      TokensLength(init);
      FirstsGrow(Tokens(init), it.sso);
      ItemsGrow(init, it);
      ItemsGrow(KeepFirst(init), it);
      HasTokenIn(KeepFirst(init), it.sso);
      assert init + [it] == items;
      KeepFirstStep(init, it);
    }
  }

  // ---- Keeping the last item of each account ----

  /** The last item under a key. */
  function LastOf(items: seq<Item>, k: string): Item {
    if items == [] then Item("", "")
    else if Key(items[|items| - 1]) == k then items[|items| - 1]
    else LastOf(items[..|items| - 1], k)
  }

  function LastOfEach(items: seq<Item>, keys: seq<string>): seq<Item> {
    seq(|keys|, i requires 0 <= i < |keys| => LastOf(items, keys[i]))
  }

  function Dedupe(items: seq<Item>): seq<Item> { LastOfEach(items, Firsts(Keys(items))) }

  lemma {:induction false} LastIsLast(items: seq<Item>, k: string) returns (at: nat)
    requires k in Keys(items)
    ensures at < |items| && items[at] == LastOf(items, k) && Key(items[at]) == k
    ensures forall j :: at < j < |items| ==> Key(items[j]) != k
  {
    hide Key;
    at := |items| - 1;
    if Key(items[at]) != k {
      var init := items[..at];
      assert Keys(items) == Keys(init) + [Key(items[at])];
      at := LastIsLast(init, k);
      forall j | at < j < |items| ensures Key(items[j]) != k {
        if j < |items| - 1 { assert Key(init[j]) != k; }
      }
    }
  }

  /** One item for each account, in first-seen order: the last one listed. */
  lemma DedupeKeepsLast(items: seq<Item>)
    ensures Keys(Dedupe(items)) == Firsts(Keys(items))
    ensures Distinct(Keys(Dedupe(items))) && |Dedupe(items)| <= |items|
    ensures forall x :: x in Keys(Dedupe(items)) <==> x in Keys(items)
    ensures forall d :: d in Dedupe(items) ==>
              exists i :: 0 <= i < |items| && items[i] == d && forall j :: i < j < |items| ==> Key(items[j]) != Key(d)
  {
    hide Key;
    var keys := Firsts(Keys(items));
    FirstsAreDistinct(Keys(items));
    forall i | 0 <= i < |keys|
      ensures Key(LastOf(items, keys[i])) == keys[i]
      ensures exists a :: 0 <= a < |items| && items[a] == LastOf(items, keys[i])
                          && forall j :: a < j < |items| ==> Key(items[j]) != keys[i]
    {
      var at := LastIsLast(items, keys[i]);
    }
    assert Keys(Dedupe(items)) == keys;
  }

  lemma DedupeStep(init: seq<Item>, it: Item)
    ensures Firsts(Keys(init + [it])) ==
              if Key(it) in Firsts(Keys(init)) then Firsts(Keys(init)) else Firsts(Keys(init)) + [Key(it)]
    ensures forall k :: LastOf(init + [it], k) == if k == Key(it) then it else LastOf(init, k)
  {
    hide Key;
    assert Keys(init + [it]) == Keys(init) + [Key(it)];
    FirstsGrow(Keys(init), Key(it));
    assert (init + [it])[..|init|] == init;
  }

  /** The keys in first-seen order and the last item under each. */
  ghost predicate LastTable(items: seq<Item>, order: seq<string>, last: map<string, Item>) {
    && order == Firsts(Keys(items))
    && (forall k :: k in last <==> k in order)
    && (forall k :: k in last ==> last[k] == LastOf(items, k))
  }

  lemma LastTableGrows(items: seq<Item>, it: Item, order: seq<string>, last: map<string, Item>)
    requires LastTable(items, order, last)
    ensures LastTable(items + [it], if Key(it) in last then order else order + [Key(it)], last[Key(it) := it])
  {
    DedupeStep(items, it);
    hide Key, Keys, LastOf, Firsts;
  }

  /** dedupeSSOItemsByEmail. */
  method DedupeItems(items: seq<Item>) returns (out: seq<Item>, dropped: nat)
    ensures out == Dedupe(items) && |out| + dropped == |items|
  {
    var order: seq<string>, last: map<string, Item> := [], map[];
    dropped := 0;
    assert LastTable(items[..0], order, last);
    hide LastTable, Key;
    for i := 0 to |items|
      invariant LastTable(items[..i], order, last) && |order| + dropped == i
    {
      var it := items[i];
      var key := Key(it);
      assert items[..i + 1] == items[..i] + [it];
      LastTableGrows(items[..i], it, order, last);
      if key !in last { order := order + [key]; } else { dropped := dropped + 1; }
      last := last[key := it];
    }
    assert items[..|items|] == items;
    out := EmitLast(items, order, last);
  }

  method EmitLast(items: seq<Item>, order: seq<string>, last: map<string, Item>) returns (out: seq<Item>)
    requires LastTable(items, order, last)
    ensures out == Dedupe(items) && |out| == |order|
  {
    hide Firsts, Keys, LastOf;
    out := [];
    for i := 0 to |order|
      invariant out == LastOfEach(items, order[..i])
    {
      assert order[i] in order;
      out := out + [last[order[i]]];
    }
    assert order[..|order|] == order;
  }

  // ---- The lines of a preview ----

  /** strings.ReplaceAll(s, "\r\n", "\n"). */
  function DropCR(s: string): string
    decreases |s|
  {
    if s == "" then ""
    else if |s| >= 2 && s[0] == '\r' && s[1] == '\n' then "\n" + DropCR(s[2..])
    else [s[0]] + DropCR(s[1..])
  }

  function PreviewLines(raw: string): seq<string> { Split(DropCR(raw), '\n') }

  /** The line without its byte order mark and outer white space. */
  function Stripped(line: string): string { Trim(TrimPrefix(line, BOM)) }

  /** The item the preview reads from a line: the line is stripped twice. */
  function PreviewItem(line: string): Option<Item> {
    if IsComment(Stripped(line)) then None else ReadLine(Stripped(line))
  }

  function Held(lines: seq<string>): seq<Item> {
    if lines == [] then []
    else
      var it := PreviewItem(lines[|lines| - 1]);
      Held(lines[..|lines| - 1]) + if it.Some? then [it.value] else []
  }

  predicate Blank(line: string) { IsComment(Trim(line)) }

  /** Blank only once the byte order mark is gone. */
  predicate BlankBehindMark(line: string) { IsComment(Stripped(line)) && !Blank(line) }

  predicate Unreadable(line: string) { !IsComment(Stripped(line)) && PreviewItem(line).None? }

  function CountLines(p: string -> bool, lines: seq<string>): nat {
    if lines == [] then 0
    else CountLines(p, lines[..|lines| - 1]) + if p(lines[|lines| - 1]) then 1 else 0
  }

  /** A line is blank when nothing or a comment is left of it without white space. */
  lemma BlankIff(line: string)
    ensures Blank(line) <==> Trim(line) == "" || Trim(line)[0] == '#'
    ensures BlankBehindMark(line) <==>
              && Trim(line) != "" && Trim(line)[0] != '#'
              && var s := Trim(if line != "" && line[0] == '\U{FEFF}' then line[1..] else line); s == "" || s[0] == '#'
  {
    StartsIff(Trim(line), '#');
    StartsIff(Stripped(line), '#');
    StartsIff(line, '\U{FEFF}');
    hide Trim, HasPrefix;
  }

  lemma StartsIff(s: string, c: char)
    ensures HasPrefix(s, [c]) <==> s != "" && s[0] == c
  {
    if s != "" { assert s[..1] == [s[0]]; }
  }

  /** A line is unreadable when something else is left of it, from which an import of
      its own would take nothing. */
  lemma UnreadableIff(line: string)
    requires '\n' !in line
    ensures Unreadable(line) <==> !IsComment(Stripped(line)) && ParseItems([], Stripped(line)) == []
    ensures PreviewItem(line).Some? <==> !IsComment(Stripped(line)) && ParseItems([], Stripped(line)) != []
    ensures PreviewItem(line).Some? ==> ParseItems([], Stripped(line)) == [PreviewItem(line).value]
  {
    AloneReads(line);
    hide ReadLine, Stripped, IsComment, ParseItems;
  }

  lemma BlankIsSkipped(line: string)
    requires Blank(line)
    ensures IsComment(Stripped(line))
  {
    if HasPrefix(line, BOM) {
      assert line[..1][0] == BOM[0] == line[0];
      assert !IsSpace(line[0]);
      TrimKeepsFirst(line);
      NotPrefix(Trim(line), "#");
    }
  }

  lemma {:induction false} TrimKeepsFirst(s: string)
    requires s != "" && !IsSpace(s[0])
    ensures Trim(s) != "" && Trim(s)[0] == s[0]
    decreases |s|
  {
    if IsSpace(s[|s| - 1]) { TrimKeepsFirst(s[..|s| - 1]); }
  }

  /** Every line is blank, unreadable or held, or blank behind a byte order mark. */
  lemma {:induction false} LinesAccounted(lines: seq<string>)
    ensures |lines| == CountLines(Blank, lines) + CountLines(Unreadable, lines) + |Held(lines)|
                       + CountLines(BlankBehindMark, lines)
  {
    hide Stripped, ReadLine, IsComment, Trim;
    if lines != [] {
      var line := lines[|lines| - 1];
      LinesAccounted(lines[..|lines| - 1]);
      if Blank(line) { BlankIsSkipped(line); }
    }
  }

  // ---- The preview and the parser ----

  lemma {:induction false} TrimEnd(s: string, c: char)
    requires IsSpace(c)
    ensures Trim(s + [c]) == Trim(s)
  {
    if s == "" {
      assert ([c])[1..] == "" && s + [c] == [c];
    } else if IsSpace(s[0]) {
      assert (s + [c])[1..] == s[1..] + [c];
      TrimEnd(s[1..], c);
    } else {
      assert (s + [c])[..|s|] == s;
    }
  }

  /** The same line, or one with a carriage return at its end. */
  predicate SameLine(a: string, b: string) { a == b || a == b + "\r" }

  lemma SplitCons(c: char, t: string)
    ensures var r := Split(t, '\n');
            Split([c] + t, '\n') == if c == '\n' then [""] + r else [[c] + r[0]] + r[1..]
  {
    assert ([c] + t)[1..] == t;
  }

  /** A carriage return before a line end stays on the line or is dropped. */
  lemma CRLineEnd(t: string)
    ensures Split("\r\n" + t, '\n') == ["\r"] + Split(t, '\n')
    ensures PreviewLines("\r\n" + t) == [""] + PreviewLines(t)
  {
    var s := "\r\n" + t;
    assert s[2..] == t && s == ['\r'] + (['\n'] + t);
    SplitCons('\n', t);
    SplitCons('\r', ['\n'] + t);
    SplitCons('\n', DropCR(t));
    hide Split;
    assert ['\r'] + "" == "\r";
  }

  lemma OtherChar(c: char, t: string)
    requires !(c == '\r' && t != "" && t[0] == '\n')
    ensures PreviewLines([c] + t) == Split([c] + DropCR(t), '\n')
    ensures PreviewLines(t) == Split(DropCR(t), '\n')
  {
    assert ([c] + t)[1..] == t;
    hide Split;
  }

  lemma EmptyText()
    ensures PreviewLines("") == [""]
  {}

  predicate SameLines(a: seq<string>, b: seq<string>) {
    |a| == |b| && forall i :: 0 <= i < |a| ==> SameLine(a[i], b[i])
  }

  lemma SplitOther(s: string)
    requires s != "" && !(|s| >= 2 && s[0] == '\r' && s[1] == '\n')
    requires SameLines(Split(s[1..], '\n'), PreviewLines(s[1..]))
    ensures SameLines(Split(s, '\n'), PreviewLines(s))
  {
    hide *;
    assert s == [s[0]] + s[1..];
    OtherChar(s[0], s[1..]);
    SplitCons(s[0], s[1..]);
    SplitCons(s[0], DropCR(s[1..]));
    SameAhead(s[0], Split(s[1..], '\n'), PreviewLines(s[1..]));
  }

  lemma SameAhead(c: char, a: seq<string>, b: seq<string>)
    requires SameLines(a, b)
    ensures SameLines([""] + a, [""] + b)
    ensures a != [] ==> SameLines([[c] + a[0]] + a[1..], [[c] + b[0]] + b[1..])
  {
    if a != [] { assert [c] + (b[0] + "\r") == ([c] + b[0]) + "\r"; }
  }

  /** The import splits a text into the lines of the preview, or those with a
      carriage return at the end. */
  lemma {:induction false} SplitDropCR(s: string)
    ensures SameLines(Split(s, '\n'), PreviewLines(s))
    decreases |s|
  {
    hide DropCR, PreviewLines;
    if s == "" {
      EmptyText();
    } else if |s| >= 2 && s[0] == '\r' && s[1] == '\n' {
      SplitDropCR(s[2..]);
      CRLineEnd(s[2..]);
      hide Split;
      assert s == "\r\n" + s[2..] && "" + "\r" == "\r";
    } else {
      SplitDropCR(s[1..]);
      SplitOther(s);
    }
  }

  lemma SameLineReads(a: string, b: string)
    requires SameLine(a, b)
    ensures ReadLine(a) == ReadLine(b)
  {
    if a != b {
      TrimEnd(TrimPrefix(b, BOM), '\r');
      if HasPrefix(a, BOM) { assert a[..1] == BOM && a[0] == BOM[0]; }
      if HasPrefix(a, BOM) && b != "" { assert b[0] == a[0] && b[..1] == BOM && a[1..] == b[1..] + "\r"; }
      assert b == "" ==> a == "\r" && a[0] != BOM[0];
      assert TrimPrefix(a, BOM) == TrimPrefix(b, BOM) + "\r";
      assert Stripped(a) == Stripped(b);
    }
  }

  /** The line still starts with a byte order mark after one has been stripped. */
  predicate SecondMark(line: string) { HasPrefix(Stripped(line), BOM) }

  /** The preview and the import read the same item from the line, or both none. */
  predicate ReadsAlike(line: string) { PreviewItem(line) == ReadLine(line) }

  /** They do unless a byte order mark is left once one has been stripped. */
  lemma OneMarkReads(line: string)
    requires !SecondMark(line)
    ensures ReadsAlike(line)
  {
    assert Stripped(Stripped(line)) == Stripped(line);
  }

  /** The import keeps the first item of each cookie among the previewed ones. */
  lemma {:induction false} ImportKeepsFirst(raw: seq<string>, lines: seq<string>)
    requires SameLines(raw, lines) && forall line :: line in lines ==> ReadsAlike(line)
    ensures ReadLines([], raw) == KeepFirst(Held(lines))
  {
    hide ReadLine, SameLine, PreviewItem, HasToken;
    if lines != [] {
      var n := |lines| - 1;
      ImportKeepsFirst(raw[..n], lines[..n]);
      SameLineReads(raw[n], lines[n]);
      assert lines[n] in lines && ReadsAlike(lines[n]);
      var h, it := Held(lines[..n]), PreviewItem(lines[n]);
      if it.Some? { assert (h + [it.value])[..|h|] == h; } else { assert h + [] == h; }
    }
  }

  lemma AdmitTrimsMail(sso: string, email: string)
    ensures Admit(sso, email).Some? ==> IsTrimmed(Admit(sso, email).value.email)
  {
    hide LooksLikeJWT, Trim, ToLower, Index;
  }

  lemma ReadTrimsMail(line: string)
    ensures ReadLine(line).Some? ==> IsTrimmed(ReadLine(line).value.email)
  {
    hide LineFields, Admit, IsTrimmed;
    var fields := LineFields(Trim(TrimPrefix(line, BOM)));
    AdmitTrimsMail(fields.0, fields.1);
  }

  /** Every held item has a new e-mail, a repeated one, or none. */
  lemma {:induction false} MailsAccounted(lines: seq<string>)
    ensures MailLess(Held(lines)) + |Mails(Held(lines))| == |Held(lines)|
  {
    hide ReadLine, Stripped, IsComment;
    if lines != [] {
      var n := |lines| - 1;
      var it, h := PreviewItem(lines[n]), Held(lines[..n]);
      MailsAccounted(lines[..n]);
      if it.Some? {
        ReadTrimsMail(Stripped(lines[n]));
        NormFacts(it.value.email);
        assert (h + [it.value])[..|h|] == h;
      } else {
        assert h + [] == h;
      }
    }
  }

  // ---- The preview ----

  datatype Preview = Preview(
    rawLines: nat, valid: nat, blankSkipped: nat, invalid: nat, noEmail: nat,
    dupSso: nat, dupEmail: nat, uniqueEmail: nat, willImport: nat)

  /** The set of values seen so far and the number of repetitions. */
  ghost predicate Counts(seen: set<string>, dups: nat, s: seq<string>) {
    (forall x :: x in seen <==> x in Firsts(s)) && dups + |Firsts(s)| == |s|
  }

  method See(seen0: set<string>, dups0: nat, ghost s: seq<string>, x: string) returns (seen: set<string>, dups: nat)
    requires Counts(seen0, dups0, s)
    ensures Counts(seen, dups, s + [x])
  {
    FirstsGrow(s, x);
    hide Firsts;
    if x in seen0 { seen, dups := seen0, dups0 + 1; } else { seen, dups := seen0 + {x}, dups0; }
  }

  lemma CountedSize(seen: set<string>, dups: nat, s: seq<string>)
    requires Counts(seen, dups, s)
    ensures |seen| == |Firsts(s)|
  {
    FirstsAreDistinct(s);
    DistinctSize(Firsts(s));
    assert seen == Elements(Firsts(s));
  }

  /** How the figures of a held line grow. */
  lemma HeldGrows(h: seq<Item>, it: Item)
    ensures Tokens(h + [it]) == Tokens(h) + [it.sso] && Keys(h + [it]) == Keys(h) + [Key(it)]
    ensures Mails(h + [it]) == if Norm(it.email) == "" then Mails(h) else Mails(h) + [Norm(it.email)]
    ensures MailLess(h + [it]) == MailLess(h) + if it.email == "" then 1 else 0
  {
    ItemsGrow(h, it);
    hide Key, Norm;
    assert (h + [it])[..|h|] == h && Mails(h) + [] == Mails(h);
  }

  lemma StrippedChars(line: string, c: char)
    requires c !in line
    ensures c !in Stripped(line)
  {
    TrimChars(TrimPrefix(line, BOM), c);
    hide Trim;
  }

  lemma OneLine(line: string)
    ensures ReadLines([], [line]) == if ReadLine(line).None? then [] else [ReadLine(line).value]
  {
    hide ReadLine;
    assert [line][..0] == [];
  }

  lemma AloneReads(line: string)
    requires '\n' !in line
    ensures ParseItems([], Stripped(line)) ==
              if ReadLine(Stripped(line)).None? then [] else [ReadLine(Stripped(line)).value]
  {
    StrippedChars(line, '\n');
    WholePiece(Stripped(line), '\n');
    OneLine(Stripped(line));
    hide ReadLine, Stripped, Split, ReadLines;
  }

  /** The item the diagnostic loop reads from a line, by parsing it alone. */
  method ReadAlone(line: string) returns (it: Option<Item>)
    requires '\n' !in line
    ensures it == PreviewItem(line)
  {
    AloneReads(line);
    hide ReadLine, Stripped, IsComment, ParseItems, TokensDistinct;
    var stripped := Stripped(line);
    if IsComment(stripped) { return None; }
    var tmp := ParseSSOItems([], stripped);
    if |tmp| == 0 { return None; }
    return Some(tmp[0]);
  }

  /** The figures a preview reports for a text, by its lines. */
  ghost predicate Reports(r: Preview, raw: string) {
    var lines := PreviewLines(raw);
    var h := Held(lines);
    && r.rawLines == |lines| && r.valid == |ParseItems([], raw)|
    && r.blankSkipped == CountLines(Blank, lines) && r.invalid == CountLines(Unreadable, lines)
    && r.noEmail == MailLess(h)
    && r.dupSso + |Firsts(Tokens(h))| == |h|
    && r.uniqueEmail == |Firsts(Mails(h))| && r.dupEmail + r.uniqueEmail == |Mails(h)|
    && r.willImport == |Firsts(Keys(h))|
  }

  method CountBlank(lines: seq<string>) returns (n: nat)
    ensures n == CountLines(Blank, lines)
  {
    n := 0;
    hide Blank;
    for i := 0 to |lines|
      invariant n == CountLines(Blank, lines[..i])
    {
      assert lines[..i + 1][..i] == lines[..i];
      if Blank(lines[i]) { n := n + 1; }
    }
    assert lines[..|lines|] == lines;
  }

  /** The tables of the diagnostic loop after the items held so far. */
  datatype Diagnosis = Diagnosis(
    holds: seq<Item>, noEmail: nat, seenSso: set<string>, dupSso: nat, seenEmail: set<string>, dupEmail: nat)

  ghost predicate Tracks(d: Diagnosis) {
    && d.noEmail == MailLess(d.holds)
    && Counts(d.seenSso, d.dupSso, Tokens(d.holds)) && Counts(d.seenEmail, d.dupEmail, Mails(d.holds))
  }

  method NoteHeld(d: Diagnosis, it: Item) returns (u: Diagnosis)
    requires Tracks(d)
    ensures Tracks(u) && u.holds == d.holds + [it]
  {
    HeldGrows(d.holds, it);
    hide Counts, Tokens, Mails, MailLess, Norm;
    var noEmail := if it.email == "" then d.noEmail + 1 else d.noEmail;
    var seenSso, dupSso := See(d.seenSso, d.dupSso, Tokens(d.holds), it.sso);
    var em, seenEmail, dupEmail := Norm(it.email), d.seenEmail, d.dupEmail;
    if em != "" { seenEmail, dupEmail := See(seenEmail, dupEmail, Mails(d.holds), em); }
    u := Diagnosis(d.holds + [it], noEmail, seenSso, dupSso, seenEmail, dupEmail);
  }

  /** The line-by-line diagnostics. */
  method Diagnose(lines: seq<string>) returns (d: Diagnosis, invalid: nat)
    requires forall line :: line in lines ==> '\n' !in line
    ensures Tracks(d) && d.holds == Held(lines) && invalid == CountLines(Unreadable, lines)
  {
    d, invalid := Diagnosis([], 0, {}, 0, {}, 0), 0;
    StartCounts();
    hide Tracks, Stripped, IsComment, ReadLine;
    for i := 0 to |lines|
      invariant Tracks(d) && d.holds == Held(lines[..i]) && invalid == CountLines(Unreadable, lines[..i])
    {
      assert lines[..i + 1][..i] == lines[..i];
      assert d.holds + [] == d.holds;
      if IsComment(Stripped(lines[i])) { continue; }
      var it := ReadAlone(lines[i]);
      if it.None? {
        invalid := invalid + 1;
        continue;
      }
      d := NoteHeld(d, it.value);
    }
    assert lines[..|lines|] == lines;
  }

  /** previewSSOList. */
  method PreviewSSOList(raw: string) returns (r: Preview)
    ensures Reports(r, raw)
  {
    var items := ParseSSOItems([], raw);
    var lines := PreviewLines(raw);
    var blank := CountBlank(lines);
    var d, invalid := Diagnose(lines);
    hide Held, Firsts, Tokens, Keys, Mails, MailLess, ParseItems, PreviewLines, TokensDistinct;
    CountedSize(d.seenEmail, d.dupEmail, Mails(d.holds));
    var final := CountKeys(d.holds);
    r := Preview(|lines|, |items|, blank, invalid, d.noEmail, d.dupSso, d.dupEmail, |d.seenEmail|, final);
  }

  lemma StartCounts()
    ensures Counts({}, 0, Tokens([])) && Counts({}, 0, Mails([]))
  {}

  /** How many keys the last-wins table ends up with. */
  method CountKeys(holds: seq<Item>) returns (n: nat)
    ensures n == |Firsts(Keys(holds))|
  {
    var final: map<string, Item> := map[];
    ghost var dups := 0;
    hide Firsts, Key;
    assert Keys(holds[..0]) == [] && Counts({}, 0, []) by { FirstsAreDistinct([]); }
    for i := 0 to |holds|
      invariant Counts(final.Keys, dups, Keys(holds[..i]))
    {
      var key := Key(holds[i]);
      assert Keys(holds[..i + 1]) == Keys(holds[..i]) + [key];
      FirstsGrow(Keys(holds[..i]), key);
      if key in final { dups := dups + 1; }
      final := final[key := holds[i]];
    }
    assert holds[..|holds|] == holds;
    CountedSize(final.Keys, dups, Keys(holds));
    n := |final|;
  }

  /** The figures of a preview add up, for every text. */
  lemma FiguresAddUp(r: Preview, raw: string)
    requires Reports(r, raw)
    ensures var lines := PreviewLines(raw);
            var parsed := |Held(lines)|;
            && r.rawLines == r.blankSkipped + r.invalid + parsed + CountLines(BlankBehindMark, lines)
            && r.rawLines == |Split(raw, '\n')|
            && parsed == r.uniqueEmail + r.dupEmail + r.noEmail
  {
    LinesAccounted(PreviewLines(raw));
    MailsAccounted(PreviewLines(raw));
    SplitDropCR(raw);
  }

  /** What the preview says of the import: it keeps the first item of each cookie,
      and at most `willImport` accounts are left after dropping repeated ones,
      exactly as many if and only if no repeated cookie names another account. */
  lemma PreviewForecasts(r: Preview, raw: string)
    requires Reports(r, raw)
    requires forall line :: line in PreviewLines(raw) ==> ReadsAlike(line)
    ensures var parsed, items := Held(PreviewLines(raw)), ParseItems([], raw);
            && r.valid + r.dupSso == |parsed|
            && |Dedupe(items)| <= r.willImport
            && (|Dedupe(items)| == r.willImport <==> forall k :: k in Keys(parsed) ==> k in Keys(items))
            && (r.dupSso == 0 ==> |Dedupe(items)| == r.willImport)
  {
    var lines := PreviewLines(raw);
    var parsed, items := Held(lines), ParseItems([], raw);
    SplitDropCR(raw);
    hide ReadLine, Stripped, Key, Firsts, Held, SameLine, ReadsAlike;
    ImportKeepsFirst(Split(raw, '\n'), lines);
    KeepFirstTokens(parsed);
    FewerFirsts(Keys(items), Keys(parsed));
    DedupeKeepsLast(items);
  }

  // ---- A second byte order mark ----

  /** The characters of a token behind a mark. */
  lemma MarkedChars(tok: string)
    requires IsToken(tok)
    ensures var marked := BOM + tok;
            && marked[0] == BOM[0] && marked[1..] == tok && IsTrimmed(marked) && Trim(marked) == marked
            && (forall c :: c in marked ==> !IsSpace(c))
            && '@' !in marked && '|' !in marked && '\t' !in marked && ',' !in marked
            && '\n' !in marked && '\r' !in marked
  {
    var marked := BOM + tok;
    TokenFacts(tok);
    assert !TokenChar(',') && !IsSpace(BOM[0]) && IsSpace('\r') && IsSpace('\n');
    hide LooksLikeJWT, Pieces, DashParts, Contains, Count, HasPrefix, IsSpace, Trim;
    assert forall c :: c in marked ==> c == BOM[0] || c in tok;
    assert marked[|marked| - 1] == tok[|tok| - 1];
  }

  lemma MarkedTriple(tok: string)
    requires IsToken(tok)
    ensures !Contains(BOM + tok, "---") && !Contains(BOM + tok, "----") && Index(BOM + tok, "----") == -1
  {
    TripleFree(tok);
    TripleFree(BOM + tok);
    hide Contains, Count, HasPrefix;
    forall i ensures !TripleAt(BOM + tok, i) { assert !TripleAt(tok, i - 1); }
    NoTripleInside(BOM + tok, 0, |BOM + tok|);
    assert (BOM + tok)[0..|BOM + tok|] == BOM + tok;
  }

  lemma MarkedAdmits(tok: string)
    requires IsToken(tok)
    ensures Admit(BOM + tok, "") == Some(Item(BOM + tok, ""))
  {
    var marked := BOM + tok;
    MarkedChars(tok);
    MarkedTriple(tok);
    LowerAt(marked);
    NotPrefix(ToLower(marked), "sso=");
    hide IsToken, LooksLikeJWT, ToLower, Contains, IsSpace, Trim, Index;
    assert Trim("") == "" by { BlankTrims(); }
  }

  lemma BlankTrims()
    ensures Trim("") == ""
  {}

  lemma MarkedFields(tok: string)
    requires IsToken(tok)
    ensures LineFields(BOM + tok) == (BOM + tok, "")
  {
    var marked := BOM + tok;
    MarkedChars(tok);
    MarkedTriple(tok);
    WordIsOneField(marked);
    hide IsToken, LooksLikeJWT, Contains, Fields, IsSpace, Trim, HasPrefix;
  }

  /** A line with a mark to strip reads as what follows the mark. */
  lemma MarkedReads(line: string)
    requires IsTrimmed(line) && line != "" && line[0] != '#'
    ensures Stripped(BOM + line) == line
    ensures ReadLine(BOM + line) == Admit(LineFields(line).0, LineFields(line).1)
  {
    assert (BOM + line)[1..] == line && BOM <= BOM + line;
    NotPrefix(line, "#");
    hide LineFields, Admit, HasPrefix, IsSpace;
  }

  /** A token behind a byte order mark reads as a cookie with the mark in it. */
  lemma MarkedToken(tok: string)
    requires IsToken(tok)
    ensures ReadLine(BOM + (BOM + tok)) == Some(Item(BOM + tok, "")) && ReadLine(BOM + tok) == Some(Item(tok, ""))
    ensures Stripped(BOM + (BOM + tok)) == BOM + tok && Stripped(tok) == tok
  {
    TokenFacts(tok);
    MarkedChars(tok);
    MarkedReads(BOM + tok);
    MarkedReads(tok);
    MarkedFields(tok);
    MarkedAdmits(tok);
    BareReadsBack(tok);
    Unmarked(tok);
    hide *;
  }

  lemma Unmarked(tok: string)
    requires IsToken(tok)
    ensures Stripped(tok) == tok && ReadLine(tok) == Admit(LineFields(tok).0, LineFields(tok).1)
    ensures !IsComment(tok) && !IsComment(BOM + tok)
  {
    TokenFacts(tok);
    NotPrefix(tok, BOM);
    NotPrefix(tok, "#");
    NotPrefix(BOM + tok, "#");
    hide IsToken, LooksLikeJWT, Pieces, DashParts, LineFields, Admit, IsSpace, HasPrefix;
  }

  lemma {:induction false} NothingToDrop(s: string)
    requires '\r' !in s
    ensures DropCR(s) == s
  {
    if s != "" { NothingToDrop(s[1..]); }
  }

  /** The line, and on a line of its own what the preview strips it to. */
  function WithStripped(line: string): string { line + ['\n'] + Stripped(line) }

  lemma TwoLines(line: string)
    requires '\n' !in line && '\r' !in line
    ensures Split(WithStripped(line), '\n') == PreviewLines(WithStripped(line)) == [line, Stripped(line)]
  {
    StrippedChars(line, '\n');
    StrippedChars(line, '\r');
    hide Stripped, Split, DropCR;
    NothingToDrop(WithStripped(line));
    SplitAppend(line, '\n', Stripped(line));
    WholePiece(Stripped(line), '\n');
  }

  lemma HeldPair(a: string, b: string, it: Item)
    requires PreviewItem(a) == PreviewItem(b) == Some(it)
    ensures Held([a, b]) == [it, it]
  {
    hide PreviewItem;
    assert [a, b][..1] == [a] && [a][..0] == [];
    assert Held([a]) == [it] && [it] + [it] == [it, it];
  }

  lemma FirstsOfPair(it: Item)
    ensures |Firsts(Tokens([it, it]))| == 1
  {
    var x := it.sso;
    assert Tokens([it, it]) == [x, x] && [x, x][..1] == [x] && [x][..0] == [];
    assert Firsts([x]) == [x];
  }

  lemma ReadsPair(a: string, b: string)
    requires ReadLine(a).Some? && ReadLine(b).Some?
    ensures var x, y := ReadLine(a).value, ReadLine(b).value;
            ReadLines([], [a, b]) == if x.sso == y.sso then [x] else [x, y]
  {
    hide ReadLine;
    var x := ReadLine(a).value;
    assert [a, b][..1] == [a] && [a][..0] == [];
    assert ReadLines([], [a]) == [x] && [x][0] == x && [x] + [ReadLine(b).value] == [x, ReadLine(b).value];
  }

  /** The stripped line is read as the preview reads the line itself. */
  lemma StrippedReads(line: string)
    requires !SecondMark(Stripped(line)) && PreviewItem(line).Some?
    ensures PreviewItem(Stripped(line)) == ReadLine(Stripped(line)) == PreviewItem(line)
  {
    OneMarkReads(Stripped(line));
    hide Stripped, ReadLine, IsComment, SecondMark;
  }

  /** A line that still starts with a mark after one was stripped, followed by what
      it was stripped to: the preview's figures fit the import if and only if the
      import reads the cookie from it that the preview reads. */
  lemma SecondMarkDecides(line: string, p: Item, r: Preview)
    requires '\n' !in line && '\r' !in line && SecondMark(line) && !SecondMark(Stripped(line))
    requires PreviewItem(line) == Some(p) && ReadLine(line).Some?
    requires Reports(r, WithStripped(line))
    ensures |Held(PreviewLines(WithStripped(line)))| == 2 && r.dupSso == 1 && r.valid in {1, 2}
    ensures r.valid + r.dupSso == 2 <==> ReadLine(line).value.sso == p.sso
  {
    var second := Stripped(line);
    StrippedReads(line);
    TwoLines(line);
    hide ReadLine, PreviewItem, Stripped, SecondMark, WithStripped, Held, Firsts, Tokens, Split, PreviewLines;
    hide ReadLines;
    HeldPair(line, second, p);
    FirstsOfPair(p);
    ReadsPair(line, second);
  }

  /** A doubly marked token is such a line, and the cookies differ: the preview
      counts a repetition that the import does not see. */
  lemma SecondMarkMiscounts(tok: string, r: Preview)
    requires IsToken(tok) && Reports(r, WithStripped(BOM + (BOM + tok)))
    ensures !ReadsAlike(BOM + (BOM + tok)) && r.valid == 2 && r.dupSso == 1
  {
    hide *;
    MarkedToken(tok);
    DoublyMarked(tok);
    SecondMarkDecides(BOM + (BOM + tok), Item(tok, ""), r);
  }

  lemma DoublyMarked(tok: string)
    requires IsToken(tok)
    ensures var line := BOM + (BOM + tok);
            && '\n' !in line && '\r' !in line && SecondMark(line) && !SecondMark(Stripped(line))
            && PreviewItem(line) == Some(Item(tok, "")) && (ReadsAlike(line) <==> ReadLine(line) == Some(Item(tok, "")))
            && BOM + tok != tok
  {
    MarkedToken(tok);
    MarkedChars(tok);
    Unmarked(tok);
    MarkedReads(tok);
    TokenFacts(tok);
    NotPrefix(tok, BOM);
    hide IsToken, LooksLikeJWT, Pieces, DashParts, ReadLine, IsSpace, Trim;
    assert BOM[0] != '\n' && BOM[0] != '\r' && |BOM + tok| != |tok|;
  }

  // ---- A line blank behind its mark ----

  /** A text of one byte order mark is one line in no class of the preview's own. */
  lemma BlankBehindMarkCounts(r: Preview)
    requires Reports(r, BOM)
    ensures CountLines(BlankBehindMark, PreviewLines(BOM)) == 1
    ensures r.rawLines == 1 && r.blankSkipped == r.invalid == |Held(PreviewLines(BOM))| == 0
  {
    hide Trim, Split, DropCR, ReadLine;
    MarkAlone();
    assert [BOM][..0] == [];
  }

  lemma MarkAlone()
    ensures PreviewLines(BOM) == [BOM] && Trim(BOM) == BOM && Stripped(BOM) == ""
    ensures !IsComment(BOM) && IsComment("")
  {
    assert BOM[1..] == "" && BOM[0] != '\n';
    NotPrefix(BOM, "#");
    WholePiece(BOM, '\n');
    hide Split;
    NothingToDrop(BOM);
  }
}
