/**
 * Listing the content directory for posts (`_discover_markdown_files`)
 * and the humor image directory for the gallery (`load_all_humor`). The
 * directory listings are inputs.
 */
module Discovery {
  import opened Text
  import opened Ordering

  /** A post source: a Markdown file whose name does not start with `_`. */
  predicate IsPostFile(name: string) {
    EndsWith(name, ".md") && !StartsWith(name, "_")
  }

  /** `os.path.join` of a directory and one name. */
  function PathJoin(dir: string, name: string): string {
    if StartsWith(name, "/") then name
    else if dir == [] || EndsWith(dir, "/") then dir + name
    else dir + "/" + name
  }

  /** `_discover_markdown_files`: the post files of the listing `entries`, joined to `dir`, in listing order. */
  function Discover(dir: string, entries: seq<string>): (r: seq<string>)
    ensures |r| <= |entries|
  {
    if entries == [] then []
    else (if IsPostFile(entries[0]) then [PathJoin(dir, entries[0])] else []) + Discover(dir, entries[1..])
  }

  /** A path is discovered exactly when it is the join of a post file of the listing. */
  lemma {:induction false} DiscoverMembers(dir: string, entries: seq<string>, p: string)
    ensures p in Discover(dir, entries)
        <==> exists i :: 0 <= i < |entries| && IsPostFile(entries[i]) && p == PathJoin(dir, entries[i])
  {
    if entries != [] {
      DiscoverMembers(dir, entries[1..], p);
      if exists i :: 0 <= i < |entries| && IsPostFile(entries[i]) && p == PathJoin(dir, entries[i]) {
        var i :| 0 <= i < |entries| && IsPostFile(entries[i]) && p == PathJoin(dir, entries[i]);
        if i > 0 {
          assert entries[1..][i - 1] == entries[i];
        }
      }
      if p in Discover(dir, entries[1..]) {
        var i :| 0 <= i < |entries[1..]| && IsPostFile(entries[1..][i]) && p == PathJoin(dir, entries[1..][i]);
        assert entries[i + 1] == entries[1..][i];
      }
    }
  }

  /** Listing order is kept: discovering a split listing is discovering its parts in turn. */
  lemma {:induction false} DiscoverAppend(dir: string, a: seq<string>, b: seq<string>)
    ensures Discover(dir, a + b) == Discover(dir, a) + Discover(dir, b)
  {
    if a == [] {
      assert a + b == b;
    } else {
      assert (a + b)[0] == a[0] && (a + b)[1..] == a[1..] + b;
      DiscoverAppend(dir, a[1..], b);
    }
  }

  // ---- humor gallery ----

  const ImageExtensions: seq<string> := [".png", ".jpg", ".jpeg", ".webp", ".gif"]

  /** An image file: its lower-cased name ends with one of the image extensions. */
  predicate IsImage(name: string) {
    exists e | e in ImageExtensions :: EndsWith(Lower(name), e)
  }

  const HumorPrefix: string := "img/humor/"

  function HumorPaths(entries: seq<string>): (r: seq<string>)
    ensures |r| <= |entries|
  {
    if entries == [] then []
    else (if IsImage(entries[0]) then [HumorPrefix + entries[0]] else []) + HumorPaths(entries[1..])
  }

  lemma {:induction false} HumorPathsMembers(entries: seq<string>, p: string)
    ensures p in HumorPaths(entries) <==> exists f :: f in entries && IsImage(f) && p == HumorPrefix + f
  {
    if entries != [] {
      HumorPathsMembers(entries[1..], p);
      if exists f :: f in entries && IsImage(f) && p == HumorPrefix + f {
        var f :| f in entries && IsImage(f) && p == HumorPrefix + f;
        if f != entries[0] {
          assert f in entries[1..];
        }
      }
    }
  }

  /** `load_all_humor`: the gallery paths of the image files, sorted by name. */
  function LoadAllHumor(entries: seq<string>): (r: seq<string>)
    ensures multiset(r) == multiset(HumorPaths(entries))
  {
    Sort(HumorPaths(entries), StrLe)
  }

  lemma StrLePreorder()
    ensures TotalPreorder(StrLe)
  {
    forall a, b ensures StrLe(a, b) || StrLe(b, a) {
      StrLeTotal(a, b);
    }
    forall a, b, c | StrLe(a, b) && StrLe(b, c) ensures StrLe(a, c) {
      StrLeTransitive(a, b, c);
    }
  }

  /**
   * The gallery lists each image file of the directory once, under the
   * gallery prefix, in ascending order, and nothing else.
   */
  lemma LoadAllHumorSpec(entries: seq<string>)
    ensures var r := LoadAllHumor(entries);
      Sorted(r, StrLe)
      && multiset(r) == multiset(HumorPaths(entries))
      && forall p :: p in r <==> exists f :: f in entries && IsImage(f) && p == HumorPrefix + f
  {
    StrLePreorder();
    SortSorted(HumorPaths(entries), StrLe);
    var r := LoadAllHumor(entries);
    forall p ensures p in r <==> exists f :: f in entries && IsImage(f) && p == HumorPrefix + f {
      HumorPathsMembers(entries, p);
      assert p in r <==> p in multiset(r);
    }
  }
}
