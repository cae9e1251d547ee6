/**
 * The post list (`load_all_posts`) held in a one-slot cache, and the
 * slug lookup over it (`get_post`). The content directory is given as a
 * snapshot of its listing and of each file's front matter and
 * modification time.
 */
module Repository {
  import opened Wrappers
  import opened Dates
  import opened Data
  import opened Ordering
  import opened Discovery
  import opened Loader

  /** The content directory as the loader would read it. */
  datatype Site = Site(contentDir: string, entries: seq<string>, files: map<string, (FrontMatter, DateTime)>)

  /** Every post file of the listing can be read. */
  predicate Readable(site: Site) {
    forall p :: p in Discover(site.contentDir, site.entries) ==>
      p in site.files && WellFormedMatter(site.files[p].0) && Valid(site.files[p].1)
  }

  function PostAt(site: Site, path: string, env: Env): Post
    requires path in site.files && WellFormedMatter(site.files[path].0) && Valid(site.files[path].1)
  {
    LoadPost(path, site.files[path].0, site.files[path].1, env)
  }

  /** One post per discovered file, in listing order. */
  function LoadPosts(site: Site, env: Env): (r: seq<Post>)
    requires Readable(site)
    ensures |r| == |Discover(site.contentDir, site.entries)|
  {
    var paths := Discover(site.contentDir, site.entries);
    seq(|paths|, i requires 0 <= i < |paths| && Readable(site) => PostAt(site, paths[i], env))
  }

  /** `a` may be listed before `b`: `a` is not older. */
  predicate NewerFirst(a: Post, b: Post) {
    NotAfter(b.createDate, a.createDate)
  }

  lemma NewerFirstPreorder()
    ensures TotalPreorder(NewerFirst)
  {
    forall a: Post, b: Post ensures NewerFirst(a, b) || NewerFirst(b, a) {
      NotAfterTotal(a.createDate, b.createDate);
    }
    forall a: Post, b: Post, c: Post | NewerFirst(a, b) && NewerFirst(b, c) ensures NewerFirst(a, c) {
      NotAfterTransitive(c.createDate, b.createDate, a.createDate);
    }
  }

  /** The value `load_all_posts` computes: the posts sorted newest first, stably. */
  function AllPosts(site: Site, env: Env): (r: seq<Post>)
    requires Readable(site)
    ensures multiset(r) == multiset(LoadPosts(site, env))
  {
    Sort(LoadPosts(site, env), NewerFirst)
  }

  /**
   * One post per discovered file; creation dates never increase along
   * the list; posts created at the same moment keep listing order.
   */
  lemma AllPostsSpec(site: Site, env: Env)
    requires Readable(site)
    ensures var r := AllPosts(site, env);
      |r| == |Discover(site.contentDir, site.entries)|
      && multiset(r) == multiset(LoadPosts(site, env))
      && (forall i, j :: 0 <= i < j < |r| ==> NotAfter(r[j].createDate, r[i].createDate))
      && (forall x :: Ties(r, x, NewerFirst) == Ties(LoadPosts(site, env), x, NewerFirst))
  {
    var r := AllPosts(site, env);
    NewerFirstPreorder();
    SortSorted(LoadPosts(site, env), NewerFirst);
    assert |r| == |multiset(r)|;
    forall x ensures Ties(r, x, NewerFirst) == Ties(LoadPosts(site, env), x, NewerFirst) {
      SortStable(LoadPosts(site, env), x, NewerFirst);
    }
  }

  /** The first post with slug `slug`, if any. */
  function FirstWithSlug(posts: seq<Post>, slug: string): (r: Option<Post>)
    ensures r.Some? ==> exists i :: 0 <= i < |posts| && posts[i] == r.value && r.value.slug == slug
                         && forall j :: 0 <= j < i ==> posts[j].slug != slug
    ensures r.None? ==> forall j :: 0 <= j < |posts| ==> posts[j].slug != slug
  {
    if posts == [] then None
    else if posts[0].slug == slug then Some(posts[0])
    else
      var r := FirstWithSlug(posts[1..], slug);
      assert forall j :: 1 <= j < |posts| ==> posts[j] == posts[1..][j - 1];
      r
  }

  class PostRepository {
    /** The `lru_cache(maxsize=1)` slot of `load_all_posts`. */
    var cache: Option<seq<Post>>
    const env: Env

    constructor(env: Env)
      ensures cache == None && this.env == env
    {
      this.env := env;
      cache := None;
    }

    /**
     * `load_all_posts`: the cached list when there is one; otherwise the
     * posts are loaded one file at a time, sorted and cached.
     */
    method LoadAll(site: Site) returns (posts: seq<Post>)
      requires Readable(site)
      modifies this
      ensures old(cache).Some? ==> posts == old(cache).value && cache == old(cache)
      ensures old(cache).None? ==> posts == AllPosts(site, env) && cache == Some(posts)
    {
      if cache.Some? {
        return cache.value;
      }
      var paths := Discover(site.contentDir, site.entries);
      var loaded: seq<Post> := [];
      var i := 0;
      while i < |paths|
        invariant 0 <= i <= |paths|
        invariant loaded == LoadPosts(site, env)[..i]
      {
        loaded := loaded + [PostAt(site, paths[i], env)];
        i := i + 1;
      }
      assert loaded == LoadPosts(site, env);
      posts := Sort(loaded, NewerFirst);
      cache := Some(posts);
    }

    /** `load_all_posts.cache_clear()`: the next load reads the directory again. */
    method Clear()
      modifies this
      ensures cache == None
    {
      cache := None;
    }

    /** `get_post`: scans the post list and stops at the first post with the slug. */
    method GetPost(site: Site, slug: string) returns (found: Option<Post>)
      requires Readable(site)
      modifies this
      ensures old(cache).Some? ==> cache == old(cache) && found == FirstWithSlug(old(cache).value, slug)
      ensures old(cache).None? ==> cache == Some(AllPosts(site, env)) && found == FirstWithSlug(AllPosts(site, env), slug)
    {
      var posts := LoadAll(site);
      found := FindSlug(posts, slug);
    }
  }

  /** The loop of `get_post` over a loaded list. */
  method FindSlug(posts: seq<Post>, slug: string) returns (found: Option<Post>)
    ensures found == FirstWithSlug(posts, slug)
  {
    var i := 0;
    while i < |posts|
      invariant 0 <= i <= |posts|
      invariant FirstWithSlug(posts, slug) == FirstWithSlug(posts[i..], slug)
    {
      if posts[i].slug == slug {
        return Some(posts[i]);
      }
      assert posts[i..][1..] == posts[i + 1..];
      i := i + 1;
    }
    return None;
  }
}
