/**
 * The two fence rewriters applied to a post body before Markdown
 * rendering (`render_with_plantuml`, `render_with_D3`), and the Mermaid
 * fence formatter handed to the Markdown renderer (`mermaid_format`).
 */
module Fences {
  import opened Wrappers
  import opened Text
  import opened Substitution

  const Fence: string := "```"
  const PlantumlOpen: string := "```plantuml"
  const JsonOpen: string := "```json"

  /**
   * An opening fence: three backticks and a tag that has no backtick and
   * whose first letter does not come back as its second or third. Such an
   * opener cannot begin inside text that holds no complete copy of it and
   * end inside a copy that follows.
   */
  predicate Opener(o: string) {
    |o| >= 6 && o[..3] == Fence && (forall i :: 3 <= i < |o| ==> o[i] != '`')
    && o[4] != o[3] && o[5] != o[3]
  }

  lemma {:induction false} OpenerNotBefore(o: string, a: string, t: string)
    requires Opener(o) && !Contains(a, o) && StartsWith(t, o[..4])
    ensures forall j :: 0 <= j < |a| ==> !OccursAt(a + t, o, j)
  {
    ContainsIff(a, o);
    var s := a + t;
    forall j | 0 <= j < |a| ensures !OccursAt(s, o, j) {
      var l := |a| - j;
      if l >= |o| {
        assert s[j..j + |o|] == a[j..j + |o|];
        assert !OccursAt(a, o, j);
      } else if j + |o| <= |s| {
        if l >= 3 {
          assert s[|a|] == t[..4][0] == '`';
          assert s[j..j + |o|][l] != o[l];
        } else {
          assert s[|a| + 3] == t[..4][3] == o[3];
          assert s[j..j + |o|][l + 3] != o[l + 3];
        }
      }
    }
  }

  /**
   * When every match of `m` starts with opener `o`, no match starts in
   * text free of `o` that runs into the start of another opener.
   */
  lemma CleanPrefix(o: string, a: string, t: string, m: string -> Option<Hit>)
    requires Opener(o) && !Contains(a, o) && StartsWith(t, o)
    requires forall u :: m(u).Some? ==> StartsWith(u, o)
    ensures NoMatchIn(a, t, m)
  {
    assert t[..4] == t[..|o|][..4];
    OpenerNotBefore(o, a, t);
    var s := a + t;
    forall j | 0 <= j < |a| ensures m(s[j..]).None? {
      assert m(s[j..]).Some? ==> StartsWith(s[j..], o);
      assert !OccursAt(s, o, j);
      if j + |o| <= |s| {
        assert s[j..][..|o|] == s[j..j + |o|];
      }
    }
    Clear(a, t, m);
  }

  /** No match starts anywhere in text free of the opener. */
  lemma NoOpenerNoMatch(o: string, s: string, m: string -> Option<Hit>)
    requires !Contains(s, o)
    requires forall u :: m(u).Some? ==> StartsWith(u, o)
    ensures NoMatchIn(s, [], m)
  {
    ContainsIff(s, o);
    assert s + [] == s;
    forall j | 0 <= j < |s| ensures m((s + [])[j..]).None? {
      if j + |o| <= |s| {
        assert s[j..][..|o|] == s[j..j + |o|];
        assert !OccursAt(s, o, j);
      }
    }
    Clear(s, [], m);
  }

  /** A text in which the opener never occurs comes back from the substitution unchanged. */
  lemma OpenerFreeIdentity(o: string, s: string, m: string -> Option<Hit>)
    requires Sound(m)
    requires forall u :: m(u).Some? ==> StartsWith(u, o)
    ensures !Contains(s, o) ==> Sub(s, m) == s
  {
    if !Contains(s, o) {
      NoOpenerNoMatch(o, s, m);
      NoMatchIdentity(s, m);
    }
  }

  lemma OpenersWellFormed()
    ensures Opener(PlantumlOpen) && Opener(JsonOpen)
  {
  }

  // ---- PlantUML: ```plantuml(.*?)``` ----

  /** The source of a plantuml region at the front of `t`, up to the nearest closing fence. */
  function PlantumlBlock(t: string): (r: Option<string>)
    ensures r.Some? ==> 14 + |r.value| <= |t|
  {
    if !StartsWith(t, PlantumlOpen) then None
    else match Find(t, Fence, 11)
      case None => None
      case Some(j) => Some(t[11..j])
  }

  /**
   * A region is matched exactly when the text opens with the plantuml
   * fence, the source follows, and the first closing fence after the
   * opener ends it.
   */
  lemma PlantumlBlockIff(t: string, code: string)
    ensures PlantumlBlock(t) == Some(code)
        <==> StartsWith(t, PlantumlOpen + code + Fence)
             && forall k :: 11 <= k < 11 + |code| ==> !OccursAt(t, Fence, k)
  {
    if StartsWith(t, PlantumlOpen + code + Fence) && forall k :: 11 <= k < 11 + |code| ==> !OccursAt(t, Fence, k) {
      assert t[..14 + |code|] == PlantumlOpen + code + Fence;
      assert t[..11] == PlantumlOpen;
      assert t[11..11 + |code|] == code;
      assert t[11 + |code|..14 + |code|] == Fence;
      FindFirst(t, Fence, 11, 11 + |code|);
    }
    if PlantumlBlock(t) == Some(code) {
      FindSpec(t, Fence, 11);
      var j := Find(t, Fence, 11).value;
      assert t[..14 + |code|] == t[..11] + t[11..j] + t[j..j + 3];
    }
  }

  /** `<img>` on success; the escaped source and the error text on failure. */
  function PlantumlReplacement(code: string, resolve: string -> Result<string, string>): string {
    match resolve(code)
    case Success(url) => "<img src=\"" + url + "\" alt=\"PlantUML diagram\">"
    case Failure(message) =>
      "<pre>" + HtmlEscape(code) + "</pre><p><em>Failed to generate diagram: " + message + "</em></p>"
  }

  function PlantumlMatcher(resolve: string -> Result<string, string>): string -> Option<Hit> {
    t => match PlantumlBlock(t)
         case Some(code) => Some(Hit(14 + |code|, PlantumlReplacement(code, resolve)))
         case None => None
  }

  lemma PlantumlMatcherSound(resolve: string -> Result<string, string>)
    ensures Sound(PlantumlMatcher(resolve))
  {
  }

  /**
   * `render_with_plantuml`: every plantuml region is replaced. `resolve`
   * stands for the diagram service: a URL, or the text of the exception
   * it raised.
   */
  function RenderWithPlantuml(s: string, resolve: string -> Result<string, string>): (r: string)
    ensures !Contains(s, PlantumlOpen) ==> r == s
  {
    PlantumlMatcherSound(resolve);
    OpenerFreeIdentity(PlantumlOpen, s, PlantumlMatcher(resolve));
    Sub(s, PlantumlMatcher(resolve))
  }

  /** A region whose source holds no fence is matched in full. */
  lemma PlantumlRegionMatched(code: string, c: string)
    requires !Contains(code + "``", Fence)
    ensures PlantumlBlock(PlantumlOpen + code + Fence + c) == Some(code)
  {
    var t := PlantumlOpen + code + Fence + c;
    ContainsIff(code + "``", Fence);
    forall k | 11 <= k < 11 + |code| ensures !OccursAt(t, Fence, k) {
      if k + 3 <= |t| {
        assert t[k..k + 3] == (code + "``")[k - 11..k - 8];
        assert !OccursAt(code + "``", Fence, k - 11);
      }
    }
    assert t[..14 + |code|] == PlantumlOpen + code + Fence;
    PlantumlBlockIff(t, code);
  }

  /**
   * The first region: the text before it is kept, the region up to its
   * nearest closing fence is replaced once, and the rest is rewritten on
   * its own. `code + "``"` holding no fence says that no closing fence
   * starts inside `code`.
   */
  lemma PlantumlFirstRegion(a: string, code: string, c: string, resolve: string -> Result<string, string>)
    requires !Contains(a, PlantumlOpen)
    requires !Contains(code + "``", Fence)
    ensures RenderWithPlantuml(a + (PlantumlOpen + code + Fence + c), resolve)
            == a + PlantumlReplacement(code, resolve) + RenderWithPlantuml(c, resolve)
  {
    PlantumlMatcherSound(resolve);
    var m := PlantumlMatcher(resolve);
    var t := PlantumlOpen + code + Fence + c;
    OpenersWellFormed();
    assert t[..11] == PlantumlOpen;
    CleanPrefix(PlantumlOpen, a, t, m);
    PlantumlRegionMatched(code, c);
    var h := Hit(14 + |code|, PlantumlReplacement(code, resolve));
    PrefixThenMatch(a, t, m, h);
    assert t[14 + |code|..] == c;
  }

  /**
   * On failure the source is shown HTML-escaped, so it holds no markup
   * character and decodes back to the diagram source.
   */
  lemma PlantumlFailureShowsSource(code: string, resolve: string -> Result<string, string>)
    requires resolve(code).Failure?
    ensures exists shown ::
      PlantumlReplacement(code, resolve)
        == "<pre>" + shown + "</pre><p><em>Failed to generate diagram: " + resolve(code).error + "</em></p>"
      && HtmlUnescape(shown) == code && '<' !in shown
  {
    var shown := HtmlEscape(code);
    UnescapeEscape(code);
    assert '<' !in shown;
  }

  // ---- D3 charts: ```json\s+(\w+)\s*\n([\s\S]*?)\n``` ----

  const Closer: string := "\n```"

  /** The length of the run of characters satisfying `p` that starts at `i`. */
  function Run(t: string, i: nat, p: char -> bool): (n: nat)
    requires i <= |t|
    ensures i + n <= |t|
    ensures i + n == |t| || !p(t[i + n])
    decreases |t| - i
  {
    if i < |t| && p(t[i]) then 1 + Run(t, i + 1, p) else 0
  }

  lemma {:induction false} RunHolds(t: string, i: nat, p: char -> bool)
    requires i <= |t|
    ensures forall k :: i <= k < i + Run(t, i, p) ==> p(t[k])
    decreases |t| - i
  {
    if i < |t| && p(t[i]) {
      RunHolds(t, i + 1, p);
    }
  }

  lemma {:induction false} RunOf(t: string, i: nat, p: char -> bool, n: nat)
    requires i + n <= |t|
    requires forall k :: i <= k < i + n ==> p(t[k])
    requires i + n == |t| || !p(t[i + n])
    ensures Run(t, i, p) == n
    decreases n
  {
    if n > 0 {
      RunOf(t, i + 1, p, n - 1);
    }
  }

  /** Two positions in a text: where a part starts and where it ends. */
  datatype Span = Span(start: nat, end: nat)

  /**
   * The backtracking of `\s*\n` followed by the lazy body: the newline
   * that ends the header is tried at `p - 1` for `p` from the end of the
   * whitespace run down to just after the type, and the body runs to the
   * nearest closing fence after it. Yields where the body starts and
   * where its closing fence starts.
   */
  function BodyFrom(t: string, q: nat, p: nat): (r: Option<Span>)
    requires q <= p <= |t|
    ensures r.Some? ==> q < r.value.start <= p && t[r.value.start - 1] == '\n'
    ensures r.Some? ==> Find(t, Closer, r.value.start) == Some(r.value.end)
    decreases p - q
  {
    if p == q then None
    else if t[p - 1] == '\n' && Find(t, Closer, p).Some? then Some(Span(p, Find(t, Closer, p).value))
    else BodyFrom(t, q, p - 1)
  }

  /**
   * A chart block: its length, the whitespace after the opener, the chart
   * type, the whitespace before the newline that ends the header, and
   * the body up to the closing fence.
   */
  datatype ChartBlock = ChartBlock(len: nat, lead: string, chartType: string, gap: string, body: string)

  predicate AllSpace(s: string) {
    forall k :: 0 <= k < |s| ==> IsSpace(s[k])
  }

  predicate AllWord(s: string) {
    forall k :: 0 <= k < |s| ==> IsWordChar(s[k])
  }

  /**
   * The header `json\s+(\w+)` at the front of `t`: where the chart type
   * starts and ends. Both runs are maximal, since a space is never a word
   * character.
   */
  function JsonHeader(t: string): (r: Option<Span>)
    ensures r.Some? ==> StartsWith(t, JsonOpen) && 7 < r.value.start < r.value.end <= |t|
  {
    if !StartsWith(t, JsonOpen) then None
    else
      var lead := Run(t, 7, IsSpace);
      var word := Run(t, 7 + lead, IsWordChar);
      if lead == 0 || word == 0 then None
      else Some(Span(7 + lead, 7 + lead + word))
  }

  /** The header's two runs: whitespace, then word characters. */
  lemma JsonHeaderRuns(t: string)
    requires JsonHeader(t).Some?
    ensures var ts, q := JsonHeader(t).value.start, JsonHeader(t).value.end;
      AllSpace(t[7..ts]) && AllWord(t[ts..q]) && Run(t, 7, IsSpace) == ts - 7
  {
    var ts, q := JsonHeader(t).value.start, JsonHeader(t).value.end;
    RunHolds(t, 7, IsSpace);
    RunHolds(t, ts, IsWordChar);
    forall k | 0 <= k < ts - 7 ensures IsSpace(t[7..ts][k]) {
      assert t[7..ts][k] == t[7 + k];
    }
    forall k | 0 <= k < q - ts ensures IsWordChar(t[ts..q][k]) {
      assert t[ts..q][k] == t[ts + k];
    }
  }

  /** The block whose header ends its type at `h` and whose body is `b`. */
  function MakeBlock(t: string, h: Span, b: Span): ChartBlock
    requires 7 <= h.start <= h.end < b.start <= b.end <= |t|
  {
    ChartBlock(b.end + 4, t[7..h.start], t[h.start..h.end], t[h.end..b.start - 1], t[b.start..b.end])
  }

  function JsonBlock(t: string): (r: Option<ChartBlock>)
    ensures r.Some? ==> 0 < r.value.len <= |t| && StartsWith(t, JsonOpen)
  {
    var header := JsonHeader(t);
    if header.None? then None
    else
      var q := header.value.end;
      var found := BodyFrom(t, q, q + Run(t, q, IsSpace));
      if found.None? then None
      else Some(MakeBlock(t, header.value, found.value))
  }

  lemma Cut(t: string, i: nat, j: nat, k: nat)
    requires i <= j <= k <= |t|
    ensures t[i..k] == t[i..j] + t[j..k]
  {
  }

  lemma SliceOfSlice(t: string, i: nat, j: nat, a: nat, b: nat)
    requires i <= j <= |t| && a <= b <= j - i
    ensures t[i..j][a..b] == t[i + a..i + b]
  {
    forall x | 0 <= x < b - a ensures t[i..j][a..b][x] == t[i + a..i + b][x] {
      assert t[i..j][a..b][x] == t[i..j][a + x];
    }
  }

  /** How `JsonBlock` assembles a block from its header and body positions. */
  lemma JsonBlockFrom(t: string, ts: nat, q: nat, bs: nat, e: nat)
    requires JsonHeader(t) == Some(Span(ts, q))
    requires BodyFrom(t, q, q + Run(t, q, IsSpace)) == Some(Span(bs, e))
    ensures JsonBlock(t) == Some(MakeBlock(t, Span(ts, q), Span(bs, e)))
  {
  }

  /**
   * No occurrence of `pat` lies wholly inside the window `u` of `t` at
   * `i` exactly when `u` does not contain `pat`.
   */
  lemma WindowFree(t: string, i: nat, u: string, pat: string)
    requires i + |u| <= |t| && t[i..i + |u|] == u
    ensures (forall k :: i <= k && k + |pat| <= i + |u| ==> !OccursAt(t, pat, k)) <==> !Contains(u, pat)
  {
    ContainsIff(u, pat);
    forall k | i <= k && k + |pat| <= i + |u| ensures OccursAt(t, pat, k) <==> OccursAt(u, pat, k - i) {
      SliceOfSlice(t, i, i + |u|, k - i, k - i + |pat|);
    }
    if Contains(u, pat) {
      var k: nat :| OccursAt(u, pat, k);
      assert OccursAt(t, pat, i + k);
    }
  }

  /**
   * What a match consists of: the opener, whitespace, a word, whitespace,
   * a newline, the body, and the nearest closing fence after the body's start.
   */
  lemma JsonBlockShape(t: string)
    requires JsonBlock(t).Some?
    ensures var b := JsonBlock(t).value;
      t[..b.len] == JsonOpen + b.lead + b.chartType + b.gap + "\n" + b.body + Closer
      && b.lead != [] && AllSpace(b.lead) && b.chartType != [] && AllWord(b.chartType) && AllSpace(b.gap)
      && !Contains(b.body + "\n``", Closer)
  {
    var ts, q := JsonHeader(t).value.start, JsonHeader(t).value.end;
    var gapEnd := q + Run(t, q, IsSpace);
    var bs, e := BodyFrom(t, q, gapEnd).value.start, BodyFrom(t, q, gapEnd).value.end;
    JsonBlockFrom(t, ts, q, bs, e);
    PositionFacts(t, ts, q, bs, e);
    ShapeAt(t, ts, q, bs, e);
  }

  /** What the header and the body positions say about the text between them. */
  lemma PositionFacts(t: string, ts: nat, q: nat, bs: nat, e: nat)
    requires JsonHeader(t) == Some(Span(ts, q))
    requires BodyFrom(t, q, q + Run(t, q, IsSpace)) == Some(Span(bs, e))
    ensures 7 < ts < q < bs <= e && e + 4 <= |t|
    ensures StartsWith(t, JsonOpen) && t[bs - 1] == '\n' && OccursAt(t, Closer, e)
    ensures AllSpace(t[7..ts]) && AllWord(t[ts..q]) && AllSpace(t[q..bs - 1])
    ensures !Contains(t[bs..e] + "\n``", Closer)
  {
    JsonHeaderRuns(t);
    GapSpaces(t, q, bs - 1);
    BodyWindow(t, bs, e);
  }

  /** The shape of the block cut out at positions that delimit its parts. */
  lemma ShapeAt(t: string, ts: nat, q: nat, bs: nat, e: nat)
    requires 7 < ts < q < bs <= e && e + 4 <= |t|
    requires StartsWith(t, JsonOpen) && t[bs - 1] == '\n' && OccursAt(t, Closer, e)
    requires AllSpace(t[7..ts]) && AllWord(t[ts..q]) && AllSpace(t[q..bs - 1])
    requires !Contains(t[bs..e] + "\n``", Closer)
    ensures var b := MakeBlock(t, Span(ts, q), Span(bs, e));
      t[..b.len] == JsonOpen + b.lead + b.chartType + b.gap + "\n" + b.body + Closer
      && b.lead != [] && AllSpace(b.lead) && b.chartType != [] && AllWord(b.chartType) && AllSpace(b.gap)
      && !Contains(b.body + "\n``", Closer)
  {
    var b := MakeBlock(t, Span(ts, q), Span(bs, e));
    assert b.len == e + 4 && b.lead == t[7..ts] && b.chartType == t[ts..q];
    assert b.gap == t[q..bs - 1] && b.body == t[bs..e];
    Assemble(t, ts, q, bs, e);
  }

  /** The whitespace between the type and the newline that ends the header. */
  lemma GapSpaces(t: string, q: nat, n: nat)
    requires q <= |t| && q <= n <= q + Run(t, q, IsSpace)
    ensures AllSpace(t[q..n])
  {
    RunHolds(t, q, IsSpace);
    forall k | 0 <= k < n - q ensures IsSpace(t[q..n][k]) {
      assert t[q..n][k] == t[q + k];
    }
  }

  /** A matched block is its opener and parts laid end to end. */
  lemma Assemble(t: string, ts: nat, q: nat, bs: nat, e: nat)
    requires 7 <= ts <= q < bs <= e && e + 4 <= |t|
    requires StartsWith(t, JsonOpen) && t[bs - 1] == '\n' && OccursAt(t, Closer, e)
    ensures t[..e + 4] == JsonOpen + t[7..ts] + t[ts..q] + t[q..bs - 1] + "\n" + t[bs..e] + Closer
  {
    assert t[e..e + 4] == Closer;
    assert t[bs - 1..bs] == "\n";
    Cut(t, 0, e, e + 4);
    Cut(t, 0, bs, e);
    Cut(t, 0, bs - 1, bs);
    Cut(t, 0, q, bs - 1);
    Cut(t, 0, ts, q);
    Cut(t, 0, 7, ts);
  }

  /** The body runs to the nearest closing fence, so it holds none. */
  lemma BodyWindow(t: string, bs: nat, e: nat)
    requires bs <= e && Find(t, Closer, bs) == Some(e)
    ensures e + 4 <= |t| && !Contains(t[bs..e] + "\n``", Closer)
  {
    CloserTail(t, bs, e);
    FindSpec(t, Closer, bs);
    WindowFree(t, bs, t[bs..e] + "\n``", Closer);
  }

  /** A closing fence at `e` leaves its first three characters after a body that ends there. */
  lemma CloserTail(t: string, bs: nat, e: nat)
    requires bs <= e && OccursAt(t, Closer, e)
    ensures e + 4 <= |t| && t[bs..e + 3] == t[bs..e] + "\n``"
  {
    assert t[e..e + 4] == Closer;
    Cut(t, bs, e, e + 3);
    assert t[e..e + 3] == t[e..e + 4][..3];
  }

  lemma WordNotSpace(c: char)
    ensures IsWordChar(c) ==> !IsSpace(c)
  {
  }

  /** The header of a block laid out as opener, whitespace, type and a character that ends the type. */
  lemma JsonHeaderOf(t: string, a: nat, q: nat, lead: string, chartType: string)
    requires a == 7 + |lead| && q == a + |chartType| && q < |t|
    requires lead != [] && AllSpace(lead) && chartType != [] && AllWord(chartType) && !IsWordChar(t[q])
    requires t[..7] == JsonOpen && t[7..a] == lead && t[a..q] == chartType
    ensures JsonHeader(t) == Some(Span(a, q))
  {
    assert t[a] == chartType[0] by { assert t[a] == t[a..q][0]; }
    WordNotSpace(chartType[0]);
    RunOver(t, 7, a, lead, IsSpace);
    RunOver(t, a, q, chartType, IsWordChar);
  }

  /** A run over a window whose characters all satisfy `p`, stopped by one that does not. */
  lemma RunOver(t: string, i: nat, j: nat, w: string, p: char -> bool)
    requires j == i + |w| && j <= |t| && t[i..j] == w
    requires forall k :: 0 <= k < |w| ==> p(w[k])
    requires j == |t| || !p(t[j])
    ensures Run(t, i, p) == |w|
  {
    forall k | i <= k < j ensures p(t[k]) {
      assert t[k] == t[i..j][k - i];
    }
    RunOf(t, i, p, |w|);
  }

  /** A block built from positions whose slices are the given parts. */
  lemma MakeBlockOf(t: string, h: Span, b: Span, lead: string, chartType: string, gap: string, body: string)
    requires 7 <= h.start <= h.end < b.start <= b.end <= |t|
    requires t[7..h.start] == lead && t[h.start..h.end] == chartType
    requires t[h.end..b.start - 1] == gap && t[b.start..b.end] == body
    ensures MakeBlock(t, h, b) == ChartBlock(b.end + 4, lead, chartType, gap, body)
  {
  }

  /**
   * Conversely, a header ending in a newline with no whitespace after it
   * and a body without a closing fence inside are matched as written.
   */
  lemma JsonBlockOf(lead: string, chartType: string, gap: string, body: string, rest: string)
    requires lead != [] && AllSpace(lead) && chartType != [] && AllWord(chartType) && AllSpace(gap)
    requires body != [] && !IsSpace(body[0])
    requires !Contains(body + "\n``", Closer)
    ensures var b := JsonBlock(JsonOpen + lead + chartType + gap + "\n" + body + Closer + rest);
      b.Some? && b.value.len == 7 + |lead| + |chartType| + |gap| + 1 + |body| + 4
      && b.value.lead == lead && b.value.chartType == chartType && b.value.gap == gap && b.value.body == body
  {
    var t := JsonOpen + lead + chartType + gap + "\n" + body + Closer + rest;
    var a := 7 + |lead|;
    var q := a + |chartType|;
    var bs := q + |gap| + 1;
    var e := bs + |body|;
    JsonLayout(t, a, q, bs, e, lead, chartType, gap, body, rest);
    JsonBlockAt(t, a, q, bs, e, lead, chartType, gap, body);
  }

  /** Where each part of a written-out header sits. */
  lemma HeaderLayout(h: string, lead: string, chartType: string, gap: string)
    requires h == JsonOpen + lead + chartType + gap + "\n"
    ensures var a, q := 7 + |lead|, 7 + |lead| + |chartType|;
      |h| == q + |gap| + 1 && h[..7] == JsonOpen && h[7..a] == lead && h[a..q] == chartType
      && h[q..|h| - 1] == gap && h[|h| - 1] == '\n'
  {
    var a, q := 7 + |lead|, 7 + |lead| + |chartType|;
    var p1 := JsonOpen + lead;
    var p2 := p1 + chartType;
    var p3 := p2 + gap;
    assert h == p3 + "\n";
    assert h[..7] == JsonOpen by { assert h[..7] == p3[..7] == p2[..7] == p1[..7]; }
    assert h[7..a] == lead by { assert h[7..a] == p3[7..a] == p2[7..a] == p1[7..a]; }
    assert h[a..q] == chartType by { assert h[a..q] == p3[a..q] == p2[a..q]; }
    assert h[q..|h| - 1] == gap by { assert h[q..|h| - 1] == p3[q..|p3|]; }
  }

  /** Where each part of a written-out block sits. */
  lemma JsonLayout(t: string, a: nat, q: nat, bs: nat, e: nat, lead: string, chartType: string, gap: string, body: string, rest: string)
    requires t == JsonOpen + lead + chartType + gap + "\n" + body + Closer + rest
    requires a == 7 + |lead| && q == a + |chartType| && bs == q + |gap| + 1 && e == bs + |body|
    ensures e + 4 <= |t| && t[..7] == JsonOpen && t[7..a] == lead && t[a..q] == chartType && t[q..bs - 1] == gap
    ensures t[bs - 1] == '\n' && t[bs..e] == body && t[e..e + 4] == Closer
  {
    var h := JsonOpen + lead + chartType + gap + "\n";
    HeaderLayout(h, lead, chartType, gap);
    var p5 := h + body;
    var p6 := p5 + Closer;
    assert t == p6 + rest;
    assert t[..bs] == h by { assert t[..bs] == p6[..bs] == p5[..bs]; }
    assert t[..7] == t[..bs][..7];
    assert t[7..a] == t[..bs][7..a];
    assert t[a..q] == t[..bs][a..q];
    assert t[q..bs - 1] == t[..bs][q..bs - 1];
    assert t[bs - 1] == t[..bs][bs - 1];
    assert t[bs..e] == body by { assert t[bs..e] == p6[bs..e] == p5[bs..e]; }
    assert t[e..e + 4] == Closer by { assert t[e..e + 4] == p6[e..e + 4]; }
  }

  /** A block whose parts sit at the given positions is matched with those parts. */
  lemma JsonBlockAt(t: string, a: nat, q: nat, bs: nat, e: nat, lead: string, chartType: string, gap: string, body: string)
    requires a == 7 + |lead| && q == a + |chartType| && bs == q + |gap| + 1 && e == bs + |body| && e + 4 <= |t|
    requires lead != [] && AllSpace(lead) && chartType != [] && AllWord(chartType) && AllSpace(gap)
    requires body != [] && !IsSpace(body[0]) && !Contains(body + "\n``", Closer)
    requires t[..7] == JsonOpen && t[7..a] == lead && t[a..q] == chartType && t[q..bs - 1] == gap
    requires t[bs - 1] == '\n' && t[bs..e] == body && t[e..e + 4] == Closer
    ensures var b := JsonBlock(t);
      b.Some? && b.value.len == e + 4
      && b.value.lead == lead && b.value.chartType == chartType && b.value.gap == gap && b.value.body == body
  {
    assert !IsWordChar(t[q]) by {
      if gap != [] {
        assert t[q] == t[q..bs - 1][0];
        WordNotSpace(t[q]);
      } else {
        assert q == bs - 1;
      }
    }
    JsonHeaderOf(t, a, q, lead, chartType);
    assert t[bs] == body[0] by { assert t[bs] == t[bs..e][0]; }
    GapRun(t, q, bs, gap);
    BodyFound(t, bs, e, body);
    JsonBlockParts(t, a, q, bs, e, lead, chartType, gap, body);
  }

  /** A block found at given positions, read back as the parts those positions cut out. */
  lemma JsonBlockParts(t: string, ts: nat, q: nat, bs: nat, e: nat, lead: string, chartType: string, gap: string, body: string)
    requires JsonHeader(t) == Some(Span(ts, q))
    requires BodyFrom(t, q, q + Run(t, q, IsSpace)) == Some(Span(bs, e))
    requires t[7..ts] == lead && t[ts..q] == chartType && t[q..bs - 1] == gap && t[bs..e] == body
    ensures var b := JsonBlock(t);
      b.Some? && b.value.len == e + 4
      && b.value.lead == lead && b.value.chartType == chartType && b.value.gap == gap && b.value.body == body
  {
    JsonBlockFrom(t, ts, q, bs, e);
    MakeBlockOf(t, Span(ts, q), Span(bs, e), lead, chartType, gap, body);
  }

  /** The whitespace after the type: the gap, the newline, then a body that does not start with whitespace. */
  lemma GapRun(t: string, q: nat, bs: nat, gap: string)
    requires bs == q + |gap| + 1 && bs < |t|
    requires AllSpace(gap) && t[q..bs - 1] == gap && t[bs - 1] == '\n' && !IsSpace(t[bs])
    ensures q + Run(t, q, IsSpace) == bs
  {
    forall k | q <= k < bs - 1 ensures IsSpace(t[k]) {
      assert t[k] == t[q..bs - 1][k - q];
    }
    RunOf(t, q, IsSpace, |gap| + 1);
  }

  /** A newline, then a body with no closing fence inside, then a closing fence. */
  lemma BodyFound(t: string, bs: nat, e: nat, body: string)
    requires 0 < bs && e == bs + |body| && e + 4 <= |t| && t[bs - 1] == '\n'
    requires t[bs..e] == body && t[e..e + 4] == Closer
    requires !Contains(body + "\n``", Closer)
    ensures forall q: nat :: q < bs ==> BodyFrom(t, q, bs) == Some(Span(bs, e))
  {
    assert t[bs..e + 3] == body + "\n``" by {
      assert t[bs..e + 3] == t[bs..e] + t[e..e + 3];
      assert t[e..e + 3] == t[e..e + 4][..3];
    }
    WindowFree(t, bs, body + "\n``", Closer);
    FindFirst(t, Closer, bs, e);
  }

  /**
   * The JSON parser and serializer: `Some` of the re-serialized document
   * when the text parses, `None` when the parser rejects it.
   */
  type Reserialize = string -> Option<string>

  const ChartPrefix: string := "<svg class='chart' width='500' height='300' data-type='"

  /** The placeholder element that replaces a chart block. */
  function ChartSvg(chartType: string, json: string): string {
    ChartPrefix + chartType + "' data-json='" + json + "'></svg>"
  }

  /** A block whose body parses becomes a placeholder; otherwise it is kept verbatim. */
  function ChartReplacement(t: string, b: ChartBlock, reserialize: Reserialize): string
    requires b.len <= |t|
  {
    match reserialize(Strip(b.body))
    case None => t[..b.len]
    case Some(json) => ChartSvg(Strip(b.chartType), json)
  }

  function ChartMatcher(reserialize: Reserialize): string -> Option<Hit> {
    t => match JsonBlock(t)
         case Some(b) => Some(Hit(b.len, ChartReplacement(t, b, reserialize)))
         case None => None
  }

  lemma ChartMatcherSound(reserialize: Reserialize)
    ensures Sound(ChartMatcher(reserialize))
  {
    var m := ChartMatcher(reserialize);
    forall t | m(t).Some? ensures 0 < m(t).value.len <= |t| {
      assert JsonBlock(t).Some? && m(t).value.len == JsonBlock(t).value.len;
    }
  }

  /** `render_with_D3`. */
  function RenderWithD3(s: string, reserialize: Reserialize): (r: string)
    ensures !Contains(s, JsonOpen) ==> r == s
  {
    ChartMatcherSound(reserialize);
    OpenerFreeIdentity(JsonOpen, s, ChartMatcher(reserialize));
    Sub(s, ChartMatcher(reserialize))
  }

  /** When no block parses, the text comes back unchanged. */
  lemma D3NothingParses(s: string, reserialize: Reserialize)
    requires forall x :: reserialize(x).None?
    ensures RenderWithD3(s, reserialize) == s
  {
    ChartMatcherSound(reserialize);
    var m := ChartMatcher(reserialize);
    forall t | m(t).Some? ensures m(t).value.replacement == t[..m(t).value.len] {
      assert reserialize(Strip(JsonBlock(t).value.body)).None?;
    }
    SelfReplacementIdentity(s, m);
  }

  /**
   * The first block: the text before it is kept, the block is replaced by
   * a placeholder when its body parses and kept verbatim otherwise, and
   * the rest is rewritten on its own.
   */
  lemma D3FirstBlock(a: string, t: string, reserialize: Reserialize)
    requires !Contains(a, JsonOpen) && JsonBlock(t).Some?
    ensures var b := JsonBlock(t).value;
      RenderWithD3(a + t, reserialize)
      == a + ChartReplacement(t, b, reserialize) + RenderWithD3(t[b.len..], reserialize)
  {
    ChartMatcherSound(reserialize);
    var m := ChartMatcher(reserialize);
    var b := JsonBlock(t).value;
    OpenersWellFormed();
    CleanPrefix(JsonOpen, a, t, m);
    PrefixThenMatch(a, t, m, Hit(b.len, ChartReplacement(t, b, reserialize)));
  }

  /**
   * The serialized data is written into a single-quoted attribute without
   * escaping: the attribute holds exactly the data iff the data has no
   * single quote.
   */
  lemma ChartDataAttribute(chartType: string, json: string)
    ensures var svg := ChartSvg(chartType, json);
      var start := |ChartPrefix| + |chartType| + 13;
      Find(svg, "'", start) == Some(start + |json|) <==> '\'' !in json
  {
    var svg := ChartSvg(chartType, json);
    var start := |ChartPrefix| + |chartType| + 13;
    assert svg[start..start + |json|] == json;
    assert svg[start + |json|] == '\'';
    if '\'' !in json {
      forall k | start <= k < start + |json| ensures !OccursAt(svg, "'", k) {
        assert svg[k..k + 1] == [json[k - start]];
      }
      FindFirst(svg, "'", start, start + |json|);
    } else {
      FindSpec(svg, "'", start);
      var k :| 0 <= k < |json| && json[k] == '\'';
      assert svg[start + k..start + k + 1] == "'";
      assert OccursAt(svg, "'", start + k);
    }
  }

  // ---- Mermaid fences ----

  const MermaidOpen: string := "<div class=\"mermaid\">"
  const MermaidClose: string := "</div>"

  /** `mermaid_format`: the escaped source inside a container the browser renders. */
  function MermaidFormat(source: string): (r: string)
    ensures |r| >= |MermaidOpen| + |MermaidClose|
    ensures r[..|MermaidOpen|] == MermaidOpen && r[|r| - |MermaidClose|..] == MermaidClose
    ensures forall i :: |MermaidOpen| <= i < |r| - |MermaidClose| ==> r[i] != '<'
  {
    MermaidOpen + HtmlEscape(source) + MermaidClose
  }

  /** The diagram source inside a Mermaid container, decoded. */
  function MermaidSource(html: string): Option<string> {
    if StartsWith(html, MermaidOpen) && |html| >= |MermaidOpen| + |MermaidClose| && EndsWith(html, MermaidClose)
    then Some(HtmlUnescape(html[|MermaidOpen|..|html| - |MermaidClose|]))
    else None
  }

  /** The container holds the source verbatim: decoding it gives the source back. */
  lemma MermaidRoundTrip(source: string)
    ensures MermaidSource(MermaidFormat(source)) == Some(source)
  {
    var h := MermaidFormat(source);
    assert h[|MermaidOpen|..|h| - |MermaidClose|] == HtmlEscape(source);
    assert h[..|MermaidOpen|] == MermaidOpen;
    assert h[|h| - |MermaidClose|..] == MermaidClose;
    UnescapeEscape(source);
  }
}
