/**
 * The request handlers' own logic: the homepage, the blog search, the
 * single-post page, the resume diagram, the cache reload and the JSON
 * example. Templates and HTTP are not modelled; a handler's result is
 * the data it hands to its template, or the error it ends with.
 */
module App {
  import opened Wrappers
  import opened Text
  import opened Data
  import opened Discovery
  import opened Repository
  import opened Ordering
  import opened Dates
  import opened Loader

  /** How a request ends without a page. */
  datatype Failure = NotFound | ServerError(reason: string)

  // ---- index ----

  datatype HomePage = HomePage(posts: seq<Post>, image: string)

  /** The homepage: the first three posts and the first gallery image; no image at all is an error. */
  function Index(posts: seq<Post>, images: seq<string>): (r: Result<HomePage, Failure>)
    ensures r.Failure? <==> images == []
    ensures r.Success? ==> |r.value.posts| == if |posts| < 3 then |posts| else 3
    ensures r.Success? ==> r.value.posts == posts[..|r.value.posts|] && r.value.image == images[0]
  {
    if images == [] then Failure(ServerError("list index out of range"))
    else Success(HomePage(posts[..if |posts| < 3 then |posts| else 3], images[0]))
  }

  /**
   * On the sorted list the homepage shows the newest posts: none left out
   * is newer than one shown.
   */
  lemma IndexShowsNewest(site: Site, env: Env, images: seq<string>)
    requires Readable(site) && images != []
    ensures var shown := Index(AllPosts(site, env), images).value.posts;
      forall p, q :: p in shown && q in AllPosts(site, env)[|shown|..] ==> NotAfter(q.createDate, p.createDate)
  {
    var all := AllPosts(site, env);
    var shown := Index(all, images).value.posts;
    assert forall i, j :: 0 <= i < j < |all| ==> NotAfter(all[j].createDate, all[i].createDate) by {
      AllPostsSpec(site, env);
    }
    NewestPrefix(all, |shown|);
  }

  /** In a list with non-increasing dates, no post after a prefix is newer than one in it. */
  lemma NewestPrefix(all: seq<Post>, n: nat)
    requires n <= |all|
    requires forall i, j :: 0 <= i < j < |all| ==> NotAfter(all[j].createDate, all[i].createDate)
    ensures forall p, q :: p in all[..n] && q in all[n..] ==> NotAfter(q.createDate, p.createDate)
  {
    forall p, q | p in all[..n] && q in all[n..] ensures NotAfter(q.createDate, p.createDate) {
      var i :| 0 <= i < n && all[..n][i] == p;
      var j :| 0 <= j < |all| - n && all[n..][j] == q;
      assert all[i] == p && all[n + j] == q;
    }
  }

  /** The gallery image on the homepage comes first in name order. */
  lemma IndexImageFirst(entries: seq<string>, posts: seq<Post>)
    requires LoadAllHumor(entries) != []
    ensures var image := Index(posts, LoadAllHumor(entries)).value.image;
      forall other :: other in LoadAllHumor(entries) ==> StrLe(image, other)
  {
    var images := LoadAllHumor(entries);
    LoadAllHumorSpec(entries);
    StrLePreorder();
    forall other | other in images ensures StrLe(images[0], other) {
      var k :| 0 <= k < |images| && images[k] == other;
      if k == 0 {
        StrLeTotal(other, other);
      }
    }
  }

  // ---- blog search ----

  /** A post can be searched when none of the fields the search lower-cases is missing. */
  predicate Searchable(p: Post) {
    p.summary.Some? && p.category.Some? && p.subCategory.Some?
  }

  predicate AllSearchable(posts: seq<Post>) {
    forall i :: 0 <= i < |posts| ==> Searchable(posts[i])
  }

  /**
   * The text a query is looked for in. `html`, `title` and `tags` come
   * from the Markdown renderer as markup, and lower-casing keeps them
   * markup; appending a plain string to markup escapes it, so the
   * summary, category and sub-category are searched in escaped form.
   */
  function Haystack(p: Post): (r: string)
    requires Searchable(p)
    ensures '\'' in r ==> '\'' in p.html || '\'' in p.title || '\'' in p.tags
  {
    LowerKeepsPunctuation(p.html);
    LowerKeepsPunctuation(p.title);
    LowerKeepsPunctuation(p.tags);
    Lower(p.html) + " " + Lower(p.title) + " " + MarkupEscape(Lower(p.summary.value)) + " " + Lower(p.tags)
      + " " + MarkupEscape(Lower(p.category.value)) + " " + MarkupEscape(Lower(p.subCategory.value))
  }

  /** Lower-casing neither creates nor removes an apostrophe or an ampersand. */
  lemma LowerKeepsPunctuation(x: string)
    ensures '\'' in Lower(x) <==> '\'' in x
    ensures '&' in Lower(x) <==> '&' in x
  {
    if '\'' in x {
      var i :| 0 <= i < |x| && x[i] == '\'';
      assert Lower(x)[i] == '\'';
    }
    if '&' in x {
      var i :| 0 <= i < |x| && x[i] == '&';
      assert Lower(x)[i] == '&';
    }
  }

  /**
   * An apostrophe in the summary, category or sub-category is searched
   * as `&#39;`: a query with an apostrophe only finds one in the rendered
   * fields.
   */
  lemma ApostropheOnlyInMarkup(p: Post, query: string)
    requires Searchable(p) && '\'' in query
    requires '\'' !in p.html && '\'' !in p.title && '\'' !in p.tags
    ensures !Matches(p, query)
  {
    var h := Haystack(p);
    LowerKeepsPunctuation(p.html);
    LowerKeepsPunctuation(p.title);
    LowerKeepsPunctuation(p.tags);
    assert '\'' !in h;
    ContainsIff(h, query);
    OccursKeepsChar(h, query, '\'');
  }

  /** An ampersand in the summary is searched as `&amp;`, so the query "amp" finds it. */
  lemma AmpersandInSummary(p: Post)
    requires Searchable(p) && '&' in p.summary.value
    ensures Matches(p, "amp")
  {
    var summary := MarkupEscape(Lower(p.summary.value));
    LowerKeepsPunctuation(p.summary.value);
    MarkupEscapeAmp(Lower(p.summary.value));
    var j: nat :| OccursAt(summary, "amp", j);
    var a, b := HaystackAroundSummary(p);
    OccursWithin(a, summary, b, "amp", j);
    ContainsIff(Haystack(p), "amp");
  }

  /** The haystack is some text, then the escaped summary, then some text. */
  lemma HaystackAroundSummary(p: Post) returns (a: string, b: string)
    requires Searchable(p)
    ensures Haystack(p) == a + MarkupEscape(Lower(p.summary.value)) + b
  {
    a := Lower(p.html) + " " + Lower(p.title) + " ";
    b := " " + Lower(p.tags) + " " + MarkupEscape(Lower(p.category.value)) + " " + MarkupEscape(Lower(p.subCategory.value));
  }

  /** `query in haystack`. */
  predicate Matches(p: Post, query: string)
    requires Searchable(p)
  {
    Contains(Haystack(p), query)
  }

  /** The test the search applies to one post: its haystack contains the query. */
  function Query(query: string): Post -> bool {
    p => Searchable(p) && Matches(p, query)
  }

  /** The elements of `s` that `keep` accepts, in order. */
  function Filter<T>(s: seq<T>, keep: T -> bool): (r: seq<T>)
    ensures |r| <= |s|
  {
    if s == [] then [] else (if keep(s[0]) then [s[0]] else []) + Filter(s[1..], keep)
  }

  /** `a` is `b` with some elements left out. */
  predicate Subsequence<T(==)>(a: seq<T>, b: seq<T>)
    decreases |b|
  {
    a == [] || (b != [] && ((a[0] == b[0] && Subsequence(a[1..], b[1..])) || Subsequence(a, b[1..])))
  }

  lemma {:induction false} FilterSpec<T>(s: seq<T>, keep: T -> bool)
    ensures Subsequence(Filter(s, keep), s)
    ensures forall x :: x in Filter(s, keep) <==> x in s && keep(x)
  {
    if s != [] {
      FilterSpec(s[1..], keep);
      var rest := Filter(s[1..], keep);
      if keep(s[0]) {
        assert Filter(s, keep) == [s[0]] + rest;
        assert ([s[0]] + rest)[1..] == rest;
      } else {
        assert Filter(s, keep) == rest;
      }
      assert s == [s[0]] + s[1..];
    }
  }

  lemma {:induction false} FilterAppend<T>(s: seq<T>, x: T, keep: T -> bool)
    ensures Filter(s + [x], keep) == Filter(s, keep) + (if keep(x) then [x] else [])
  {
    if s == [] {
      assert [x][1..] == [];
    } else {
      assert (s + [x])[1..] == s[1..] + [x];
      FilterAppend(s[1..], x, keep);
    }
  }

  lemma {:induction false} FilterKeepsAll<T>(s: seq<T>, keep: T -> bool)
    requires forall i :: 0 <= i < |s| ==> keep(s[i])
    ensures Filter(s, keep) == s
  {
    if s != [] {
      assert forall i :: 0 <= i < |s| - 1 ==> s[1..][i] == s[i + 1];
      FilterKeepsAll(s[1..], keep);
      assert s == [s[0]] + s[1..];
    }
  }

  /** The posts whose haystack contains the query, in list order. */
  function Matching(posts: seq<Post>, query: string): (r: seq<Post>)
    ensures |r| <= |posts|
  {
    Filter(posts, Query(query))
  }

  lemma MatchingSpec(posts: seq<Post>, query: string)
    requires AllSearchable(posts)
    ensures Subsequence(Matching(posts, query), posts)
    ensures forall p :: p in Matching(posts, query) <==> p in posts && Matches(p, query)
  {
    FilterSpec(posts, Query(query));
  }

  lemma EmptyQueryMatchesAll(posts: seq<Post>)
    requires AllSearchable(posts)
    ensures Matching(posts, "") == posts
  {
    forall i | 0 <= i < |posts| ensures Query("")(posts[i]) {
      assert OccursAt(Haystack(posts[i]), "", 0);
      ContainsIff(Haystack(posts[i]), "");
    }
    FilterKeepsAll(posts, Query(""));
  }

  /**
   * The search loop of `blog`: each post's haystack is built and searched
   * in turn; a post missing a searched field ends the request with an
   * error.
   */
  method Search(posts: seq<Post>, q: string) returns (r: Result<seq<Post>, Failure>)
    ensures r.Failure? <==> exists i :: 0 <= i < |posts| && !Searchable(posts[i])
    ensures r.Success? ==> r.value == Matching(posts, Lower(q))
  {
    var query := Lower(q);
    var results: seq<Post> := [];
    var i := 0;
    while i < |posts|
      invariant 0 <= i <= |posts|
      invariant forall k :: 0 <= k < i ==> Searchable(posts[k])
      invariant results == Matching(posts[..i], query)
    {
      if !Searchable(posts[i]) {
        return Failure(ServerError("'NoneType' object has no attribute 'lower'"));
      }
      var found := Query(query)(posts[i]);
      SearchStep(posts, i, query);
      if found {
        results := results + [posts[i]];
      }
      i := i + 1;
    }
    assert posts[..i] == posts;
    return Success(results);
  }

  /** One step of the search loop: the next post joins the results exactly when it matches. */
  lemma SearchStep(posts: seq<Post>, i: nat, query: string)
    requires i < |posts|
    ensures Matching(posts[..i + 1], query)
         == Matching(posts[..i], query) + (if Query(query)(posts[i]) then [posts[i]] else [])
  {
    assert posts[..i + 1] == posts[..i] + [posts[i]];
    FilterAppend(posts[..i], posts[i], Query(query));
  }

  datatype BlogRequest = BlogGet | BlogPost(q: Option<string>)
  datatype BlogPage = BlogPage(posts: seq<Post>, query: Option<string>)

  /** `blog`: a GET lists every post; a POST lists the matches of the lower-cased query (empty when absent). */
  method Blog(posts: seq<Post>, request: BlogRequest) returns (r: Result<BlogPage, Failure>)
    ensures request.BlogGet? ==> r == Success(BlogPage(posts, None))
    ensures request.BlogPost? ==> var q := Lower(if request.q.Some? then request.q.value else "");
      (r.Failure? <==> exists i :: 0 <= i < |posts| && !Searchable(posts[i]))
      && (r.Success? ==> r.value == BlogPage(Matching(posts, q), Some(q)))
  {
    if request.BlogGet? {
      return Success(BlogPage(posts, None));
    }
    var q := Lower(if request.q.Some? then request.q.value else "");
    var found := Search(posts, q);
    assert Lower(q) == q;
    match found
    case Failure(e) => return Failure(e);
    case Success(results) => return Success(BlogPage(results, Some(q)));
  }

  // ---- post ----

  /** `post`: the page of the first post with the slug, or 404 when there is none. */
  function PostPage(posts: seq<Post>, slug: string): (r: Result<Post, Failure>)
    ensures r.Failure? <==> forall j :: 0 <= j < |posts| ==> posts[j].slug != slug
    ensures r.Failure? ==> r.error == NotFound
    ensures r.Success? ==>
      exists i :: 0 <= i < |posts| && posts[i] == r.value && r.value.slug == slug
        && forall j :: 0 <= j < i ==> posts[j].slug != slug
  {
    match FirstWithSlug(posts, slug)
    case None => Failure(NotFound)
    case Some(p) => Success(p)
  }

  // ---- resume ----

  datatype Job = Job(company: string, position: string, startDate: string, endDate: string)

  const DiagramHeader: seq<string> := ["sequenceDiagram", "    participant Start"]

  /** The two diagram lines of one job: the call to it, then its return. */
  function JobLines(job: Job): seq<string> {
    ["    Start ->>+ " + job.company + ": " + job.position + " - (" + job.startDate + " to " + job.endDate + ")",
     "    " + job.company + " -->>- Start: Done"]
  }

  function DiagramLines(work: seq<Job>): (r: seq<string>)
    ensures |r| == 2 * |work|
  {
    if work == [] then [] else JobLines(work[0]) + DiagramLines(work[1..])
  }

  /** The Mermaid code `resume` builds from the work history. */
  method MermaidCode(work: seq<Job>) returns (code: string)
    ensures code == Unlines(DiagramHeader + DiagramLines(work))
  {
    code := "sequenceDiagram\n";
    code := code + "    participant Start\n";
    assert code == Unlines(DiagramHeader) by {
      assert Unlines(DiagramHeader) == DiagramHeader[0] + "\n" + Unlines(DiagramHeader[1..]);
    }
    var i := 0;
    while i < |work|
      invariant 0 <= i <= |work|
      invariant code == Unlines(DiagramHeader + DiagramLines(work[..i]))
    {
      DiagramStep(work, i);
      var lines := JobLines(work[i]);
      code := code + (lines[0] + "\n");
      code := code + (lines[1] + "\n");
      i := i + 1;
    }
    assert work[..i] == work;
  }

  /** One more job adds its call line and its return line to the diagram. */
  lemma DiagramStep(work: seq<Job>, i: nat)
    requires i < |work|
    ensures Unlines(DiagramHeader + DiagramLines(work[..i + 1]))
         == Unlines(DiagramHeader + DiagramLines(work[..i])) + (JobLines(work[i])[0] + "\n") + (JobLines(work[i])[1] + "\n")
  {
    DiagramLinesAppend(work[..i], work[i]);
    assert work[..i + 1] == work[..i] + [work[i]];
    UnlinesAppend(DiagramHeader + DiagramLines(work[..i]), JobLines(work[i]));
    assert DiagramHeader + DiagramLines(work[..i + 1]) == (DiagramHeader + DiagramLines(work[..i])) + JobLines(work[i]);
    var lines := JobLines(work[i]);
    assert Unlines(lines) == lines[0] + "\n" + (lines[1] + "\n") by {
      assert lines[1..] == [lines[1]] && [lines[1]][1..] == [];
      assert Unlines([lines[1]]) == lines[1] + "\n" + Unlines([]);
    }
  }

  lemma {:induction false} DiagramLinesAppend(work: seq<Job>, job: Job)
    ensures DiagramLines(work + [job]) == DiagramLines(work) + JobLines(job)
  {
    if work == [] {
      assert DiagramLines([job]) == JobLines(job) + DiagramLines([]);
    } else {
      assert (work + [job])[1..] == work[1..] + [job];
      DiagramLinesAppend(work[1..], job);
    }
  }

  predicate PlainJob(job: Job) {
    '\n' !in job.company && '\n' !in job.position && '\n' !in job.startDate && '\n' !in job.endDate
  }

  /**
   * Read line by line, the diagram is the two header lines, then for each
   * job in order its call line and its return line.
   */
  lemma MermaidLines(work: seq<Job>)
    requires forall i :: 0 <= i < |work| ==> PlainJob(work[i])
    ensures var lines := Split(Unlines(DiagramHeader + DiagramLines(work)), '\n');
      |lines| == 2 * |work| + 3
      && lines[..2] == DiagramHeader
      && (forall i :: 0 <= i < |work| ==> lines[2 + 2 * i] == JobLines(work[i])[0] && lines[3 + 2 * i] == JobLines(work[i])[1])
      && lines[|lines| - 1] == ""
  {
    var body := DiagramLines(work);
    var all := DiagramHeader + body;
    AllPlain(work);
    SplitUnlines(all);
    var lines := all + [""];
    DiagramLinesAt(work);
    forall i | 0 <= i < |work|
      ensures lines[2 + 2 * i] == JobLines(work[i])[0] && lines[3 + 2 * i] == JobLines(work[i])[1]
    {
      assert lines[2 + 2 * i] == body[2 * i];
      assert lines[3 + 2 * i] == body[2 * i + 1];
    }
    assert lines[..2] == DiagramHeader;
  }

  /** No line of the header or of a plain job's diagram holds a newline. */
  lemma AllPlain(work: seq<Job>)
    requires forall i :: 0 <= i < |work| ==> PlainJob(work[i])
    ensures forall i :: 0 <= i < |DiagramHeader + DiagramLines(work)| ==> '\n' !in (DiagramHeader + DiagramLines(work))[i]
  {
    var all := DiagramHeader + DiagramLines(work);
    DiagramLinesPlain(work);
    assert '\n' !in "sequenceDiagram" && '\n' !in "    participant Start";
    forall i | 0 <= i < |all| ensures '\n' !in all[i] {
      if i >= 2 {
        assert all[i] == DiagramLines(work)[i - 2];
      }
    }
  }

  lemma {:induction false} DiagramLinesPlain(work: seq<Job>)
    requires forall i :: 0 <= i < |work| ==> PlainJob(work[i])
    ensures forall i :: 0 <= i < |DiagramLines(work)| ==> '\n' !in DiagramLines(work)[i]
  {
    if work != [] {
      DiagramLinesPlain(work[1..]);
      JobLinesPlain(work[0]);
      var head := JobLines(work[0]);
      var rest := DiagramLines(work[1..]);
      forall i | 0 <= i < |head + rest| ensures '\n' !in (head + rest)[i] {
        if i >= 2 {
          assert (head + rest)[i] == rest[i - 2];
        }
      }
    }
  }

  lemma JobLinesPlain(job: Job)
    requires PlainJob(job)
    ensures '\n' !in JobLines(job)[0] && '\n' !in JobLines(job)[1]
  {
    var call := "    Start ->>+ " + job.company + ": " + job.position + " - (" + job.startDate + " to " + job.endDate + ")";
    assert '\n' !in "    Start ->>+ " && '\n' !in ": " && '\n' !in " - (" && '\n' !in " to " && '\n' !in ")";
    assert '\n' !in "    " && '\n' !in " -->>- Start: Done";
  }

  lemma {:induction false} DiagramLinesAt(work: seq<Job>)
    ensures forall i :: 0 <= i < |work| ==>
      DiagramLines(work)[2 * i] == JobLines(work[i])[0] && DiagramLines(work)[2 * i + 1] == JobLines(work[i])[1]
  {
    if work != [] {
      DiagramLinesAt(work[1..]);
      forall i | 1 <= i < |work|
        ensures DiagramLines(work)[2 * i] == JobLines(work[i])[0] && DiagramLines(work)[2 * i + 1] == JobLines(work[i])[1]
      {
        assert work[1..][i - 1] == work[i];
      }
    }
  }

  datatype ResumePage = ResumePage(work: seq<Job>, mermaid: string)

  /** `resume`: only `.json` names are served; the page carries the diagram of the work history. */
  method Resume(filename: string, work: seq<Job>) returns (r: Result<ResumePage, Failure>)
    ensures r.Failure? <==> !EndsWith(filename, ".json")
    ensures r.Failure? ==> r.error == NotFound
    ensures r.Success? ==> r.value == ResumePage(work, Unlines(DiagramHeader + DiagramLines(work)))
  {
    if !EndsWith(filename, ".json") {
      return Failure(NotFound);
    }
    var code := MermaidCode(work);
    return Success(ResumePage(work, code));
  }

  // ---- development and example endpoints ----

  datatype ReloadReply = ReloadReply(ok: bool, reloaded: bool)

  /** `dev_reload`: empties the post cache and acknowledges. */
  method DevReload(repo: PostRepository) returns (reply: ReloadReply)
    modifies repo
    ensures repo.cache == None
    ensures reply == ReloadReply(true, true)
  {
    repo.Clear();
    reply := ReloadReply(true, true);
  }

  /** After a reload, the next load reads the directory again, whatever was cached before. */
  method ReloadThenLoad(repo: PostRepository, site: Site) returns (posts: seq<Post>)
    requires Readable(site)
    modifies repo
    ensures posts == AllPosts(site, repo.env)
  {
    var _ := DevReload(repo);
    posts := repo.LoadAll(site);
  }

  datatype SquareReply = SquareReply(input: nat, squared: nat)

  /** `json_endpoint`: the number and its square (the route only admits non-negative integers). */
  function JsonEndpoint(number: nat): (r: SquareReply)
    ensures r.input == number && r.squared == number * number
    ensures r.squared >= r.input && (r.squared == r.input <==> number <= 1)
  {
    SquareReply(number, number * number)
  }
}
