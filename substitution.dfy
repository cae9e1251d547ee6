/**
 * Python's `re.sub(pattern, repl, text)` for a pattern that never matches
 * the empty string: the text is scanned from left to right; where the
 * pattern matches, the match is replaced and scanning resumes after it;
 * elsewhere the character is kept and scanning moves on by one.
 * A matcher looks at the front of the remaining text only.
 */
module Substitution {
  import opened Wrappers

  /** A match at the front of a text: how long it is and what replaces it. */
  datatype Hit = Hit(len: nat, replacement: string)

  /** A matcher reports only non-empty matches that fit in the text. */
  ghost predicate Sound(m: string -> Option<Hit>) {
    forall t :: m(t).Some? ==> 0 < m(t).value.len <= |t|
  }

  /** The substitution of the whole text: the scan from its first character. */
  function Sub(s: string, m: string -> Option<Hit>): string
    requires Sound(m)
    decreases |s|
  {
    if s == [] then []
    else match m(s)
      case Some(h) => h.replacement + Sub(s[h.len..], m)
      case None => [s[0]] + Sub(s[1..], m)
  }

  /** No match at the front: the first character is kept. */
  lemma Keep(s: string, m: string -> Option<Hit>)
    requires Sound(m) && s != [] && m(s).None?
    ensures Sub(s, m) == [s[0]] + Sub(s[1..], m)
  {
  }

  /** A match at the front is replaced and the scan resumes after it. */
  lemma Replace(s: string, m: string -> Option<Hit>, h: Hit)
    requires Sound(m) && s != [] && m(s) == Some(h)
    ensures h.len <= |s| && Sub(s, m) == h.replacement + Sub(s[h.len..], m)
  {
  }

  /**
   * No match starts inside `a` when `a` is followed by `t`. Stated by
   * recursion on `a`; `Clear` turns the indexwise form into it.
   */
  ghost predicate NoMatchIn(a: string, t: string, m: string -> Option<Hit>)
    decreases |a|
  {
    a == [] || (m(a + t).None? && NoMatchIn(a[1..], t, m))
  }

  lemma {:induction false} Clear(a: string, t: string, m: string -> Option<Hit>)
    requires forall j :: 0 <= j < |a| ==> m((a + t)[j..]).None?
    ensures NoMatchIn(a, t, m)
    decreases |a|
  {
    if a != [] {
      ConsAppend(a, t);
      Tail(a + t, 0);
      forall j | 0 <= j < |a[1..]| ensures m((a[1..] + t)[j..]).None? {
        Tail(a + t, j + 1);
      }
      Clear(a[1..], t, m);
    }
  }

  /** Where the pattern matches nowhere, the text comes back unchanged. */
  lemma {:induction false} NoMatchIdentity(s: string, m: string -> Option<Hit>)
    requires Sound(m) && NoMatchIn(s, [], m)
    ensures Sub(s, m) == s
    decreases |s|
  {
    if s != [] {
      assert s + [] == s && s[1..] + [] == s[1..];
      Keep(s, m);
      NoMatchIdentity(s[1..], m);
      Tail(s, 0);
    }
  }

  /**
   * Text `a` in which no match starts, followed by a match at the front
   * of `t`: `a` is kept, the match replaced, and the rest scanned anew.
   */
  lemma {:induction false} PrefixThenMatch(a: string, t: string, m: string -> Option<Hit>, h: Hit)
    requires Sound(m)
    requires NoMatchIn(a, t, m) && m(t) == Some(h)
    ensures h.len <= |t|
    ensures Sub(a + t, m) == a + h.replacement + Sub(t[h.len..], m)
    decreases |a|
  {
    if a == [] {
      MatchInFront(t, m, h);
    } else {
      PrefixThenMatch(a[1..], t, m, h);
      KeepInFront(a, t, m, h.replacement, Sub(t[h.len..], m));
    }
  }

  lemma MatchInFront(t: string, m: string -> Option<Hit>, h: Hit)
    requires Sound(m) && m(t) == Some(h)
    ensures h.len <= |t|
    ensures Sub([] + t, m) == [] + h.replacement + Sub(t[h.len..], m)
  {
    assert [] + t == t;
    Replace(t, m, h);
    assert [] + h.replacement == h.replacement;
  }

  /** The step of `PrefixThenMatch` past one kept character. */
  lemma KeepInFront(a: string, t: string, m: string -> Option<Hit>, r: string, rest: string)
    requires Sound(m) && a != [] && m(a + t).None?
    requires Sub(a[1..] + t, m) == a[1..] + r + rest
    ensures Sub(a + t, m) == a + r + rest
  {
    ConsAppend(a, t);
    Keep(a + t, m);
    Regroup4(a[0], a[1..], r, rest);
  }

  /** Replacing every match by its own text changes nothing. */
  lemma {:induction false} SelfReplacementIdentity(s: string, m: string -> Option<Hit>)
    requires Sound(m)
    requires forall t :: m(t).Some? ==> m(t).value.replacement == t[..m(t).value.len]
    ensures Sub(s, m) == s
    decreases |s|
  {
    if s != [] {
      Tail(s, 0);
      match m(s)
      case Some(h) =>
        Replace(s, m, h);
        SelfReplacementIdentity(s[h.len..], m);
        Halves(s, h.len);
      case None =>
        Keep(s, m);
        SelfReplacementIdentity(s[1..], m);
    }
  }

  /* Slicing facts, kept apart from the unfolding of `Sub`. */

  lemma Tail(s: string, j: nat)
    requires j <= |s|
    ensures s[0..] == s && (s != [] ==> s == [s[0]] + s[1..])
    ensures 0 < j ==> s[1..][j - 1..] == s[j..]
  {
  }

  lemma Halves(s: string, n: nat)
    requires n <= |s|
    ensures s == s[..n] + s[n..]
  {
  }

  lemma ConsAppend(a: string, t: string)
    requires a != []
    ensures (a + t)[1..] == a[1..] + t && (a + t)[0] == a[0] && a == [a[0]] + a[1..]
  {
  }

  lemma Regroup4(x: char, a: string, r: string, rest: string)
    ensures [x] + (a + r + rest) == ([x] + a) + r + rest
  {
  }
}
