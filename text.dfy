/**
 * String helpers shared by the post pipeline: prefix and suffix tests,
 * substring search, `str.join` / `str.split`, ASCII case mapping,
 * `str.title`, `str.strip`, and `html.escape` with its inverse.
 */
module Text {
  import opened Wrappers

  predicate StartsWith(s: string, prefix: string) {
    |prefix| <= |s| && s[..|prefix|] == prefix
  }

  predicate EndsWith(s: string, suffix: string) {
    |suffix| <= |s| && s[|s| - |suffix|..] == suffix
  }

  /** `pat` occurs in `s` starting at index `i`. */
  predicate OccursAt(s: string, pat: string, i: nat) {
    i + |pat| <= |s| && s[i..i + |pat|] == pat
  }

  /** `s.find(pat, from)`: the first index at or after `from` where `pat` occurs. */
  function Find(s: string, pat: string, from: nat): (r: Option<nat>)
    ensures r.Some? ==> from <= r.value && OccursAt(s, pat, r.value)
    decreases |s| - from
  {
    if from + |pat| > |s| then None
    else if s[from..from + |pat|] == pat then Some(from)
    else Find(s, pat, from + 1)
  }

  /** No occurrence is skipped: none before the one found, none at all when nothing is found. */
  lemma {:induction false} FindSpec(s: string, pat: string, from: nat)
    ensures Find(s, pat, from).Some? ==> forall k :: from <= k < Find(s, pat, from).value ==> !OccursAt(s, pat, k)
    ensures Find(s, pat, from).None? ==> forall k :: from <= k ==> !OccursAt(s, pat, k)
    decreases |s| - from
  {
    if from + |pat| <= |s| && s[from..from + |pat|] != pat {
      FindSpec(s, pat, from + 1);
    }
  }

  /** Python's `needle in hay` on strings. */
  predicate Contains(hay: string, needle: string) {
    Find(hay, needle, 0).Some?
  }

  /** `Find` yields the first occurrence at or after `from`. */
  lemma FindFirst(s: string, pat: string, from: nat, j: nat)
    requires from <= j && OccursAt(s, pat, j)
    requires forall k :: from <= k < j ==> !OccursAt(s, pat, k)
    ensures Find(s, pat, from) == Some(j)
  {
    FindSpec(s, pat, from);
  }

  lemma ContainsIff(hay: string, needle: string)
    ensures Contains(hay, needle) <==> exists i: nat :: OccursAt(hay, needle, i)
  {
    FindSpec(hay, needle, 0);
    if Contains(hay, needle) {
      assert OccursAt(hay, needle, Find(hay, needle, 0).value);
    }
  }

  /** Every character of a pattern appears in any string it occurs in. */
  lemma OccursKeepsChar(s: string, pat: string, c: char)
    requires c in pat
    ensures forall i: nat :: OccursAt(s, pat, i) ==> c in s
  {
    var k :| 0 <= k < |pat| && pat[k] == c;
    forall i: nat | OccursAt(s, pat, i) ensures c in s {
      assert s[i + k] == s[i..i + |pat|][k];
    }
  }

  /** An occurrence inside a middle part is an occurrence in the whole text. */
  lemma OccursWithin(a: string, m: string, b: string, pat: string, j: nat)
    requires OccursAt(m, pat, j)
    ensures OccursAt(a + m + b, pat, |a| + j)
  {
    var t := a + m + b;
    forall k | 0 <= k < |pat| ensures t[|a| + j + k] == pat[k] {
      assert t[|a| + j + k] == m[j + k] == m[j..j + |pat|][k];
    }
    assert t[|a| + j..|a| + j + |pat|] == pat;
  }

  /** Python's `sep.join(parts)`. */
  function Join(parts: seq<string>, sep: string): (r: string)
    ensures |parts| >= 1 ==> |r| >= |parts[0]|
  {
    if |parts| == 0 then ""
    else if |parts| == 1 then parts[0]
    else parts[0] + sep + Join(parts[1..], sep)
  }

  /** Python's `s.split(c)` for a one-character separator. */
  function Split(s: string, c: char): (r: seq<string>)
    ensures |r| >= 1
  {
    if s == [] then [""]
    else
      var rest := Split(s[1..], c);
      if s[0] == c then [""] + rest else [[s[0]] + rest[0]] + rest[1..]
  }

  /** Every part followed by a newline, as text built by appending lines. */
  function Unlines(lines: seq<string>): string
  {
    if lines == [] then "" else lines[0] + "\n" + Unlines(lines[1..])
  }

  lemma {:induction false} SplitNoSeparator(a: string, c: char)
    requires c !in a
    ensures Split(a, c) == [a]
  {
    if a != [] {
      SplitNoSeparator(a[1..], c);
      assert [a[0]] + a[1..] == a;
    }
  }

  lemma {:induction false} SplitAtSeparator(a: string, c: char, b: string)
    requires c !in a
    ensures Split(a + [c] + b, c) == [a] + Split(b, c)
  {
    if a == [] {
      assert a + [c] + b == [c] + b;
      assert ([c] + b)[1..] == b;
    } else {
      SplitAtSeparator(a[1..], c, b);
      assert (a + [c] + b)[1..] == a[1..] + [c] + b;
      assert [a[0]] + a[1..] == a;
    }
  }

  /** Splitting a text made of terminated lines on newlines gives back the lines, plus the empty tail. */
  lemma {:induction false} SplitUnlines(lines: seq<string>)
    requires forall i :: 0 <= i < |lines| ==> '\n' !in lines[i]
    ensures Split(Unlines(lines), '\n') == lines + [""]
  {
    if lines == [] {
    } else {
      SplitUnlines(lines[1..]);
      assert Unlines(lines) == lines[0] + ['\n'] + Unlines(lines[1..]);
      SplitAtSeparator(lines[0], '\n', Unlines(lines[1..]));
      assert lines == [lines[0]] + lines[1..];
    }
  }

  /** Joining parts free of the separator and splitting again gives back the parts. */
  lemma {:induction false} SplitJoin(parts: seq<string>, c: char)
    requires |parts| >= 1
    requires forall i :: 0 <= i < |parts| ==> c !in parts[i]
    ensures Split(Join(parts, [c]), c) == parts
  {
    if |parts| == 1 {
      SplitNoSeparator(parts[0], c);
    } else {
      SplitJoin(parts[1..], c);
      SplitAtSeparator(parts[0], c, Join(parts[1..], [c]));
      assert parts == [parts[0]] + parts[1..];
    }
  }

  lemma {:induction false} UnlinesAppend(lines: seq<string>, more: seq<string>)
    ensures Unlines(lines + more) == Unlines(lines) + Unlines(more)
  {
    if lines != [] {
      assert (lines + more)[1..] == lines[1..] + more;
      UnlinesAppend(lines[1..], more);
    } else {
      assert lines + more == more;
    }
  }

  // ---- ASCII case mapping (Python's str.lower / str.title on ASCII letters) ----

  predicate IsUpper(c: char) { 'A' <= c <= 'Z' }
  predicate IsLower(c: char) { 'a' <= c <= 'z' }
  predicate IsLetter(c: char) { IsUpper(c) || IsLower(c) }

  function LowerChar(c: char): char {
    if IsUpper(c) then (c as int + 32) as char else c
  }

  function UpperChar(c: char): char {
    if IsLower(c) then (c as int - 32) as char else c
  }

  function Lower(s: string): (r: string)
    ensures |r| == |s|
    ensures forall i :: 0 <= i < |s| ==> r[i] == LowerChar(s[i])
  {
    seq(|s|, i requires 0 <= i < |s| => LowerChar(s[i]))
  }

  lemma LowerAppend(a: string, b: string)
    ensures Lower(a + b) == Lower(a) + Lower(b)
  {
  }

  /** `s.replace(a, b)` for single characters. */
  function ReplaceChar(s: string, a: char, b: char): (r: string)
    ensures |r| == |s|
    ensures forall i :: 0 <= i < |s| ==> r[i] == if s[i] == a then b else s[i]
  {
    seq(|s|, i requires 0 <= i < |s| => if s[i] == a then b else s[i])
  }

  /**
   * Python's `str.title` on ASCII text: a letter is upper-cased when the
   * character before it is not a letter, and lower-cased otherwise;
   * every other character is kept. `afterLetter` says whether the text
   * already processed ended with a letter.
   */
  function TitleFrom(s: string, afterLetter: bool): (r: string)
    ensures |r| == |s|
  {
    if s == [] then []
    else
      var c := s[0];
      [if !IsLetter(c) then c else if afterLetter then LowerChar(c) else UpperChar(c)]
        + TitleFrom(s[1..], IsLetter(c))
  }

  function Title(s: string): (r: string) ensures |r| == |s| { TitleFrom(s, false) }

  /** Each character of `s.title()`: word-initial letters upper case, the other letters lower case. */
  lemma {:induction false} TitleAt(s: string, afterLetter: bool, i: nat)
    requires i < |s|
    ensures var prev := if i == 0 then afterLetter else IsLetter(s[i - 1]);
      TitleFrom(s, afterLetter)[i]
        == if !IsLetter(s[i]) then s[i] else if prev then LowerChar(s[i]) else UpperChar(s[i])
  {
    if i > 0 {
      TitleAt(s[1..], IsLetter(s[0]), i - 1);
    }
  }

  /** `title` introduces no character that is not a letter. */
  lemma TitleIntroducesNoNonLetter(s: string, c: char)
    requires !IsLetter(c) && c !in s
    ensures c !in Title(s)
  {
    forall i | 0 <= i < |s| ensures Title(s)[i] != c {
      TitleAt(s, false, i);
      assert s[i] != c;
    }
  }

  /** `str.title` changes only the case of letters. */
  lemma {:induction false} TitlePreservesLower(s: string)
    ensures Lower(Title(s)) == Lower(s)
  {
    forall i | 0 <= i < |s| ensures Lower(Title(s))[i] == Lower(s)[i] {
      TitleAt(s, false, i);
    }
  }

  // ---- whitespace, word characters and str.strip ----

  /** Python's `str.isspace` (and the `\s` class of `re` on text). */
  predicate IsSpace(c: char) {
    ('\t' <= c <= '\r') || ('\U{1c}' <= c <= ' ') || c == '\U{85}' || c == '\U{a0}'
    || c == '\U{1680}' || ('\U{2000}' <= c <= '\U{200a}') || c == '\U{2028}' || c == '\U{2029}'
    || c == '\U{202f}' || c == '\U{205f}' || c == '\U{3000}'
  }

  /** The `\w` class of `re`, on ASCII. */
  predicate IsWordChar(c: char) {
    IsLetter(c) || ('0' <= c <= '9') || c == '_'
  }

  /** Python's `s.lstrip()`: the leading whitespace removed, and only that. */
  function StripLeft(s: string): (r: string)
    ensures |r| <= |s| && r == s[|s| - |r|..]
    ensures forall k :: 0 <= k < |s| - |r| ==> IsSpace(s[k])
    ensures r != [] ==> !IsSpace(r[0])
    decreases |s|
  {
    if s != [] && IsSpace(s[0]) then StripLeft(s[1..]) else s
  }

  /** Python's `s.rstrip()`: the trailing whitespace removed, and only that. */
  function StripRight(s: string): (r: string)
    ensures |r| <= |s| && r == s[..|r|]
    ensures forall k :: |r| <= k < |s| ==> IsSpace(s[k])
    ensures r != [] ==> !IsSpace(r[|r| - 1])
    decreases |s|
  {
    if s != [] && IsSpace(s[|s| - 1]) then StripRight(s[..|s| - 1]) else s
  }

  /** Python's `s.strip()`. */
  function Strip(s: string): string {
    StripRight(StripLeft(s))
  }

  // ---- html.escape ----

  function EscapeChar(c: char): string {
    if c == '&' then "&amp;"
    else if c == '<' then "&lt;"
    else if c == '>' then "&gt;"
    else if c == '"' then "&quot;"
    else if c == '\'' then "&#x27;"
    else [c]
  }

  /** Python's `html.escape(s)` (with `quote=True`): no markup character survives. */
  function HtmlEscape(s: string): (r: string)
    ensures forall i :: 0 <= i < |r| ==> r[i] != '<' && r[i] != '>' && r[i] != '"' && r[i] != '\''
  {
    if s == [] then [] else EscapeChar(s[0]) + HtmlEscape(s[1..])
  }

  /** The character an entity at the start of `s` stands for, with the entity's length. */
  function EntityAt(s: string): Option<(char, nat)> {
    if StartsWith(s, "&amp;") then Some(('&', 5))
    else if StartsWith(s, "&lt;") then Some(('<', 4))
    else if StartsWith(s, "&gt;") then Some(('>', 4))
    else if StartsWith(s, "&quot;") then Some(('"', 6))
    else if StartsWith(s, "&#x27;") then Some(('\'', 6))
    else if StartsWith(s, "&#34;") then Some(('"', 5))
    else if StartsWith(s, "&#39;") then Some(('\'', 5))
    else None
  }

  /** Decodes the entities that `html.escape` and markupsafe's `escape` produce, as `html.unescape` does. */
  function HtmlUnescape(s: string): string {
    if s == [] then []
    else if s[0] != '&' then [s[0]] + HtmlUnescape(s[1..])
    else match EntityAt(s)
      case Some((c, n)) => (if n <= |s| then [c] + HtmlUnescape(s[n..]) else [])
      case None => [s[0]] + HtmlUnescape(s[1..])
  }

  lemma Mismatch(s: string, p: string, i: nat)
    requires i < |p| && i < |s| && s[i] != p[i]
    ensures !StartsWith(s, p)
  {
  }

  /** Decoding an escaped character followed by more text decodes that character first. */
  lemma UnescapeChar(c: char, rest: string)
    ensures HtmlUnescape(EscapeChar(c) + rest) == [c] + HtmlUnescape(rest)
  {
    var e := EscapeChar(c) + rest;
    if c == '&' {
      assert e[..5] == "&amp;" && e[5..] == rest;
    } else if c == '<' {
      Mismatch(e, "&amp;", 1);
      assert e[..4] == "&lt;" && e[4..] == rest;
    } else if c == '>' {
      Mismatch(e, "&amp;", 1);
      Mismatch(e, "&lt;", 1);
      assert e[..4] == "&gt;" && e[4..] == rest;
    } else if c == '"' {
      Mismatch(e, "&amp;", 1);
      Mismatch(e, "&lt;", 1);
      Mismatch(e, "&gt;", 1);
      assert e[..6] == "&quot;" && e[6..] == rest;
    } else if c == '\'' {
      Mismatch(e, "&amp;", 1);
      Mismatch(e, "&lt;", 1);
      Mismatch(e, "&gt;", 1);
      Mismatch(e, "&quot;", 1);
      assert e[..6] == "&#x27;" && e[6..] == rest;
    } else {
      assert e[0] == c && e[1..] == rest;
    }
  }

  /** Escaping loses nothing: the escaped text decodes back to the source text. */
  lemma {:induction false} UnescapeEscape(s: string)
    ensures HtmlUnescape(HtmlEscape(s)) == s
  {
    if s != [] {
      UnescapeEscape(s[1..]);
      UnescapeChar(s[0], HtmlEscape(s[1..]));
      assert [s[0]] + s[1..] == s;
    }
  }

  // ---- markupsafe's escape ----

  function MarkupEscapeChar(c: char): string {
    if c == '&' then "&amp;"
    else if c == '<' then "&lt;"
    else if c == '>' then "&gt;"
    else if c == '\'' then "&#39;"
    else if c == '"' then "&#34;"
    else [c]
  }

  /**
   * markupsafe's `escape`, which `Markup + str` applies to the plain
   * string: no markup character survives.
   */
  function MarkupEscape(s: string): (r: string)
    ensures forall i :: 0 <= i < |r| ==> r[i] != '<' && r[i] != '>' && r[i] != '"' && r[i] != '\''
  {
    if s == [] then [] else MarkupEscapeChar(s[0]) + MarkupEscape(s[1..])
  }

  /** Decoding a markup-escaped character followed by more text decodes that character first. */
  lemma UnescapeMarkupChar(c: char, rest: string)
    ensures HtmlUnescape(MarkupEscapeChar(c) + rest) == [c] + HtmlUnescape(rest)
  {
    var e := MarkupEscapeChar(c) + rest;
    if c == '&' {
      assert e[..5] == "&amp;" && e[5..] == rest;
    } else if c == '<' {
      Mismatch(e, "&amp;", 1);
      assert e[..4] == "&lt;" && e[4..] == rest;
    } else if c == '>' {
      Mismatch(e, "&amp;", 1);
      Mismatch(e, "&lt;", 1);
      assert e[..4] == "&gt;" && e[4..] == rest;
    } else if c == '\'' {
      Mismatch(e, "&amp;", 1);
      Mismatch(e, "&lt;", 1);
      Mismatch(e, "&gt;", 1);
      Mismatch(e, "&quot;", 1);
      Mismatch(e, "&#x27;", 2);
      Mismatch(e, "&#34;", 3);
      assert e[..5] == "&#39;" && e[5..] == rest;
    } else if c == '"' {
      Mismatch(e, "&amp;", 1);
      Mismatch(e, "&lt;", 1);
      Mismatch(e, "&gt;", 1);
      Mismatch(e, "&quot;", 1);
      Mismatch(e, "&#x27;", 2);
      assert e[..5] == "&#34;" && e[5..] == rest;
    } else {
      assert e[0] == c && e[1..] == rest;
    }
  }

  /** An ampersand is escaped as the entity `&amp;`, so the escaped text contains "amp". */
  lemma {:induction false} MarkupEscapeAmp(s: string)
    requires '&' in s
    ensures exists j: nat :: OccursAt(MarkupEscape(s), "amp", j)
  {
    if s[0] == '&' {
      assert MarkupEscape(s)[1..4] == "amp";
      assert OccursAt(MarkupEscape(s), "amp", 1);
    } else {
      assert '&' in s[1..] by {
        var i :| 0 <= i < |s| && s[i] == '&';
        assert s[1..][i - 1] == '&';
      }
      MarkupEscapeAmp(s[1..]);
      var j: nat :| OccursAt(MarkupEscape(s[1..]), "amp", j);
      OccursWithin(MarkupEscapeChar(s[0]), MarkupEscape(s[1..]), [], "amp", j);
      assert MarkupEscapeChar(s[0]) + MarkupEscape(s[1..]) + [] == MarkupEscape(s);
    }
  }

  /** markupsafe's escaping loses nothing either: the escaped text decodes back to the source text. */
  lemma {:induction false} UnescapeMarkupEscape(s: string)
    ensures HtmlUnescape(MarkupEscape(s)) == s
  {
    if s != [] {
      UnescapeMarkupEscape(s[1..]);
      UnescapeMarkupChar(s[0], MarkupEscape(s[1..]));
      assert [s[0]] + s[1..] == s;
    }
  }

  // ---- str comparison ----

  /** Python's `a <= b` on strings: code point by code point, a prefix first. */
  predicate StrLe(a: string, b: string) {
    a == [] || (b != [] && (a[0] < b[0] || (a[0] == b[0] && StrLe(a[1..], b[1..]))))
  }

  lemma {:induction false} StrLeTotal(a: string, b: string)
    ensures StrLe(a, b) || StrLe(b, a)
  {
    if a != [] && b != [] && a[0] == b[0] {
      StrLeTotal(a[1..], b[1..]);
    }
  }

  lemma {:induction false} StrLeTransitive(a: string, b: string, c: string)
    requires StrLe(a, b) && StrLe(b, c)
    ensures StrLe(a, c)
  {
    if a != [] && b != [] && c != [] && a[0] == b[0] == c[0] {
      StrLeTransitive(a[1..], b[1..], c[1..]);
    }
  }

  lemma {:induction false} StrLeAntisymmetric(a: string, b: string)
    requires StrLe(a, b) && StrLe(b, a)
    ensures a == b
  {
    if a != [] && b != [] {
      StrLeAntisymmetric(a[1..], b[1..]);
      assert a == [a[0]] + a[1..] && b == [b[0]] + b[1..];
    }
  }
}
