/** The string operations of Go's `strings` package that the plugin relies on.
    White space is Unicode white space; letter case is ASCII only. */
module Text {

  /** unicode.IsSpace. */
  predicate IsSpace(c: char) {
    var u := c as int;
    || 9 <= u <= 13 || u == 0x20 || u == 0x85 || u == 0xA0
    || u == 0x1680 || 0x2000 <= u <= 0x200A || u == 0x2028 || u == 0x2029
    || u == 0x202F || u == 0x205F || u == 0x3000
  }

  predicate IsTrimmed(s: string) {
    s == "" || (!IsSpace(s[0]) && !IsSpace(s[|s| - 1]))
  }

  /** strings.TrimSpace. */
  function Trim(s: string): (r: string)
    ensures IsTrimmed(r) && |r| <= |s|
    ensures IsTrimmed(s) ==> r == s
  {
    if s == "" then s
    else if IsSpace(s[0]) then Trim(s[1..])
    else if IsSpace(s[|s| - 1]) then Trim(s[..|s| - 1])
    else s
  }

  lemma {:induction false} TrimChars(s: string, c: char)
    ensures c in Trim(s) ==> c in s
    ensures c in s && !IsSpace(c) ==> c in Trim(s)
    decreases |s|
  {
    if s == "" {
    } else if IsSpace(s[0]) {
      assert s == [s[0]] + s[1..];
      TrimChars(s[1..], c);
    } else if IsSpace(s[|s| - 1]) {
      assert s == s[..|s| - 1] + [s[|s| - 1]];
      TrimChars(s[..|s| - 1], c);
    }
  }

  function LowerChar(c: char): char {
    if 'A' <= c <= 'Z' then (c as int + 32) as char else c
  }

  /** strings.ToLower. */
  function ToLower(s: string): (r: string)
    ensures |r| == |s|
  {
    if s == "" then "" else [LowerChar(s[0])] + ToLower(s[1..])
  }

  lemma {:induction false} LowerAt(s: string)
    ensures forall i :: 0 <= i < |s| ==> ToLower(s)[i] == LowerChar(s[i])
  {
    if s != "" { LowerAt(s[1..]); }
  }

  /** The plugin's e-mail normal form: strings.ToLower(strings.TrimSpace(s)). */
  function Norm(s: string): string { ToLower(Trim(s)) }

  predicate IsNormal(s: string) { IsTrimmed(s) && ToLower(s) == s }

  /** strings.EqualFold on ASCII text. */
  predicate EqualFold(a: string, b: string) { ToLower(a) == ToLower(b) }

  lemma LowerIdempotent(s: string)
    ensures ToLower(ToLower(s)) == ToLower(s)
  {
    LowerAt(s);
    LowerAt(ToLower(s));
  }

  lemma LowerChars(s: string, c: char)
    requires LowerChar(c) == c && !('a' <= c <= 'z')
    ensures c in ToLower(s) <==> c in s
  {
    LowerAt(s);
    if c in s {
      var i :| 0 <= i < |s| && s[i] == c;
      assert ToLower(s)[i] == c;
    }
  }

  lemma {:induction false} LowerTrim(s: string)
    ensures ToLower(Trim(s)) == Trim(ToLower(s))
    decreases |s|
  {
    var low := ToLower(s);
    LowerAt(s);
    if s == "" {
    } else if IsSpace(s[0]) {
      assert low[1..] == ToLower(s[1..]) by { LowerAt(s[1..]); }
      LowerTrim(s[1..]);
    } else if IsSpace(s[|s| - 1]) {
      assert low[..|s| - 1] == ToLower(s[..|s| - 1]) by { LowerAt(s[..|s| - 1]); }
      LowerTrim(s[..|s| - 1]);
    }
  }

  /** Trimming and lower-casing are idempotent, commute, and keep every `@`. */
  lemma NormFacts(s: string)
    ensures IsNormal(Norm(s)) && Norm(Norm(s)) == Norm(s) && Trim(Norm(s)) == Norm(s)
    ensures Norm(Trim(s)) == Norm(s) && Norm(ToLower(s)) == Norm(s)
    ensures Norm(s) == "" <==> Trim(s) == ""
    ensures '@' in Norm(s) <==> '@' in s
    ensures IsNormal(s) ==> Norm(s) == s
  {
    LowerTrim(s);
    LowerIdempotent(Trim(s));
    LowerIdempotent(s);
    LowerChars(Trim(s), '@');
    TrimChars(s, '@');
    LowerAt(Trim(s));
  }

  /** strings.HasPrefix. */
  predicate HasPrefix(s: string, p: string) { p <= s }

  /** A text that starts differently does not have the prefix. */
  lemma NotPrefix(s: string, p: string)
    requires p != "" && (s == "" || s[0] != p[0])
    ensures !HasPrefix(s, p)
  {
    if s != "" && |p| <= |s| { assert s[..|p|][0] == s[0]; }
  }

  function TrimPrefix(s: string, p: string): string {
    if p <= s then s[|p|..] else s
  }

  predicate HasSuffix(s: string, p: string) {
    |p| <= |s| && s[|s| - |p|..] == p
  }

  function TrimSuffix(s: string, p: string): string {
    if HasSuffix(s, p) then s[..|s| - |p|] else s
  }

  predicate MatchesAt(s: string, p: string, i: int) {
    0 <= i && i + |p| <= |s| && s[i..i + |p|] == p
  }

  /** The first position of `p` in `s` at or after `from`, or -1. */
  function IndexFrom(s: string, p: string, from: nat): (r: int)
    requires from <= |s|
    ensures r == -1 || (from <= r && MatchesAt(s, p, r))
    ensures forall i :: from <= i && (r == -1 || i < r) ==> !MatchesAt(s, p, i)
    decreases |s| - from
  {
    if MatchesAt(s, p, from) then from
    else if from == |s| then -1
    else IndexFrom(s, p, from + 1)
  }

  /** strings.Index. */
  function Index(s: string, p: string): int { IndexFrom(s, p, 0) }

  /** strings.Contains. */
  predicate Contains(s: string, p: string) { Index(s, p) >= 0 }

  /** strings.Count for a one-character substring. */
  function Count(s: string, c: char): (n: nat)
    ensures n == 0 <==> c !in s
  {
    if s == "" then 0 else (if s[0] == c then 1 else 0) + Count(s[1..], c)
  }

  /** strings.Split for a one-character separator. */
  function Split(s: string, sep: char): (parts: seq<string>)
    ensures |parts| >= 1
    ensures forall p :: p in parts ==> sep !in p
  {
    if s == "" then [""]
    else
      var rest := Split(s[1..], sep);
      if s[0] == sep then [""] + rest
      else [[s[0]] + rest[0]] + rest[1..]
  }

  lemma {:induction false} WholePiece(a: string, sep: char)
    requires sep !in a
    ensures Split(a, sep) == [a]
  {
    if a != "" {
      WholePiece(a[1..], sep);
      assert [a[0]] + a[1..] == a;
    }
  }

  /** strings.Join: the pieces with the separator between them. */
  function Join(parts: seq<string>, sep: string): string {
    if |parts| == 0 then ""
    else if |parts| == 1 then parts[0]
    else parts[0] + sep + Join(parts[1..], sep)
  }

  /** firstNonEmpty: the first value that is not blank, trimmed. */
  function FirstNonEmpty(values: seq<string>): (r: string)
    ensures IsTrimmed(r)
  {
    if values == [] then ""
    else if Trim(values[0]) != "" then Trim(values[0])
    else FirstNonEmpty(values[1..])
  }

  /** The value at `i` is the first that is not blank. */
  predicate FirstAt(values: seq<string>, i: int) {
    0 <= i < |values| && Trim(values[i]) != "" && forall j :: 0 <= j < i ==> Trim(values[j]) == ""
  }

  lemma {:induction false} FirstIsFirst(values: seq<string>)
    ensures FirstNonEmpty(values) == "" <==> forall i :: 0 <= i < |values| ==> Trim(values[i]) == ""
    ensures forall i :: FirstAt(values, i) ==> FirstNonEmpty(values) == Trim(values[i])
  {
    hide Trim;
    if values != [] {
      var rest := values[1..];
      FirstIsFirst(rest);
      forall i | FirstAt(values, i) ensures FirstNonEmpty(values) == Trim(values[i]) {
        if i > 0 { assert FirstAt(rest, i - 1); }
      }
      assert forall i :: 0 < i < |values| ==> values[i] == rest[i - 1];
    }
  }

  lemma FirstOrRest(values: seq<string>)
    ensures FirstNonEmpty(values) ==
              if values == [] then "" else if Trim(values[0]) != "" then Trim(values[0]) else FirstNonEmpty(values[1..])
  {}

  /** White space is that of Unicode. */
  lemma WhiteSpaceIs(c: char)
    ensures IsSpace(c) <==>
              c in "\t\n\U{000B}\U{000C}\r \U{0085}\U{00A0}\U{1680}\U{2028}\U{2029}\U{202F}\U{205F}\U{3000}"
              || '\U{2000}' <= c <= '\U{200A}'
  {}

  /** Lower case is that of the 26 letters. */
  lemma LettersLower(c: char, i: nat)
    ensures i < 26 ==> LowerChar("ABCDEFGHIJKLMNOPQRSTUVWXYZ"[i]) == "abcdefghijklmnopqrstuvwxyz"[i]
    ensures c !in "ABCDEFGHIJKLMNOPQRSTUVWXYZ" ==> LowerChar(c) == c
  {
    var letters := "ABCDEFGHIJKLMNOPQRSTUVWXYZ";
    assert forall k :: 0 <= k < 26 ==> letters[k] as int == 'A' as int + k;
    if 'A' <= c <= 'Z' { assert letters[c as int - 'A' as int] == c; }
  }
}
