/**
 * `load_post_from_file`: a post built from a file's front matter, with
 * the fallback for each missing field. Reading the file, the YAML
 * parser, the file's modification time and the Markdown renderer are
 * inputs.
 */
module Loader {
  import opened Wrappers
  import opened Text
  import opened Dates
  import opened Data
  import opened Discovery
  import opened Tags
  import opened Fences

  /** The tags entry: a YAML list, or a bare string (whose characters Python then iterates). */
  datatype TagValue = TagList(items: seq<string>) | TagText(text: string)

  /** The front matter of a post file: `None` where a key is absent or null. */
  datatype FrontMatter = FrontMatter(
    slug: Option<string>,
    title: Option<string>,
    preIcon: Option<string>,
    postIcon: Option<string>,
    createDate: Option<MetaDate>,
    updateDate: Option<MetaDate>,
    summary: Option<string>,
    excerpt: Option<string>,
    coverImage: Option<string>,
    image: Option<string>,
    tags: Option<TagValue>,
    category: Option<string>,
    subCategory: Option<string>,
    graphmlIncluded: Option<bool>,
    graphmlFile: Option<string>,
    chartIncluded: Option<bool>,
    content: string)

  predicate WellFormedMatter(fm: FrontMatter) {
    (fm.createDate.Some? ==> WellFormed(fm.createDate.value))
    && (fm.updateDate.Some? ==> WellFormed(fm.updateDate.value))
  }

  /** The services a post is rendered with. */
  datatype Env = Env(
    renderMarkdown: string -> string,
    resolvePlantuml: string -> Result<string, string>,
    reserialize: Reserialize)

  // ---- Python truthiness ----

  predicate Truthy(o: Option<string>) {
    o.Some? && o.value != ""
  }

  predicate TruthyDate(o: Option<MetaDate>) {
    o.Some? && !(o.value.TextValue? && o.value.text == "")
  }

  predicate TruthyTags(o: Option<TagValue>) {
    match o
    case None => false
    case Some(TagList(items)) => items != []
    case Some(TagText(text)) => text != ""
  }

  /** `a or b` on optional strings. */
  function OrElse(a: Option<string>, b: Option<string>): (r: Option<string>)
    ensures Truthy(a) ==> r == a
    ensures !Truthy(a) ==> r == b
  {
    if Truthy(a) then a else b
  }

  /** `x or None`: an empty string counts as absent. */
  function NonEmpty(o: Option<string>): (r: Option<string>)
    ensures r.Some? <==> Truthy(o)
    ensures r.Some? ==> r == o
  {
    if Truthy(o) then o else None
  }

  /** The items `render_tags` iterates: a list's items, or a string's characters. */
  function TagItems(o: Option<TagValue>): seq<string> {
    if !TruthyTags(o) then []
    else match o.value
      case TagList(items) => items
      case TagText(text) => seq(|text|, i requires 0 <= i < |text| => [text[i]])
  }

  // ---- file names ----

  function LastIndex(s: string, c: char): (r: Option<nat>)
    ensures r.Some? ==> r.value < |s| && s[r.value] == c && c !in s[r.value + 1..]
    ensures r.None? ==> c !in s
  {
    if s == [] then None
    else if s[|s| - 1] == c then Some(|s| - 1)
    else
      var r := LastIndex(s[..|s| - 1], c);
      assert s == s[..|s| - 1] + [s[|s| - 1]];
      r
  }

  lemma {:induction false} LastIndexAt(s: string, c: char, i: nat)
    requires i < |s| && s[i] == c && c !in s[i + 1..]
    ensures LastIndex(s, c) == Some(i)
    decreases |s|
  {
    if i < |s| - 1 {
      assert s[|s| - 1] in s[i + 1..];
      assert s[..|s| - 1][i + 1..] == s[i + 1..|s| - 1];
      LastIndexAt(s[..|s| - 1], c, i);
    }
  }

  /** `os.path.basename`: the part after the last `/`. */
  function Basename(path: string): (r: string)
    ensures '/' !in r
  {
    match LastIndex(path, '/')
    case None => path
    case Some(i) => path[i + 1..]
  }

  /**
   * `os.path.splitext(name)[0]` for a name without `/`: the name up to its
   * last dot, unless only dots come before that dot.
   */
  function Stem(name: string): (r: string)
    ensures r == name || (|r| < |name| && r == name[..|r|] && name[|r|] == '.' && '.' !in name[|r| + 1..])
  {
    match LastIndex(name, '.')
    case None => name
    case Some(i) => if exists k :: 0 <= k < i && name[k] != '.' then name[..i] else name
  }

  // ---- the post ----

  /** The title shown before Markdown rendering: the icons around the title, or the title made from the slug. */
  function TitleText(fm: FrontMatter, slug: string): string {
    var pre := if Truthy(fm.preIcon) then ":" + fm.preIcon.value + ":" else "";
    var post := if Truthy(fm.postIcon) then ":" + fm.postIcon.value + ":" else "";
    var title := if Truthy(fm.title) then fm.title.value else Title(ReplaceChar(slug, '-', ' '));
    pre + title + post
  }

  /** `load_post_from_file` for the file at `path` with front matter `fm`, last modified at `mtime`. */
  function LoadPost(path: string, fm: FrontMatter, mtime: DateTime, env: Env): (p: Post)
    requires WellFormedMatter(fm) && Valid(mtime)
    ensures Valid(p.createDate) && Valid(p.updateDate)
  {
    var slug := if Truthy(fm.slug) then fm.slug.value else Stem(Basename(path));
    var createDate := if TruthyDate(fm.createDate) then ParseDate(fm.createDate.value) else ParseDate(DateTimeValue(mtime));
    var updateDate := if TruthyDate(fm.updateDate) then ParseDate(fm.updateDate.value) else ParseDate(DateTimeValue(createDate));
    var body := RenderWithD3(RenderWithPlantuml(fm.content, env.resolvePlantuml), env.reserialize);
    Post(
      slug := slug,
      title := env.renderMarkdown(TitleText(fm, slug)),
      createDate := createDate,
      updateDate := updateDate,
      summary := OrElse(fm.summary, fm.excerpt),
      coverImage := OrElse(fm.coverImage, fm.image),
      tags := env.renderMarkdown(RenderTags(TagItems(fm.tags))),
      category := NonEmpty(fm.category),
      subCategory := NonEmpty(fm.subCategory),
      html := env.renderMarkdown(body),
      rawMarkdown := fm.content,
      graphmlIncluded := fm.graphmlIncluded == Some(true),
      graphmlFile := NonEmpty(fm.graphmlFile),
      chartIncluded := fm.chartIncluded == Some(true))
  }

  // ---- properties ----

  lemma StemOf(name: string)
    requires '/' !in name && exists k :: 0 <= k < |name| && name[k] != '.'
    ensures Stem(name + ".md") == name
  {
    var f := name + ".md";
    assert f[|name| + 1..] == "md";
    LastIndexAt(f, '.', |name|);
    var k :| 0 <= k < |name| && name[k] != '.';
    assert f[k] == name[k];
    assert f[..|name|] == name;
  }

  lemma BasenameOfJoin(dir: string, name: string)
    requires '/' !in name
    ensures Basename(PathJoin(dir, name)) == name
  {
    var p := PathJoin(dir, name);
    assert !StartsWith(name, "/") by {
      if |name| >= 1 { assert name[0] in name; }
    }
    if dir != [] {
      var i := |p| - |name| - 1;
      assert p[i] == '/' && p[i + 1..] == name by {
        if EndsWith(dir, "/") {
          assert p == dir + name;
          assert p[i] == dir[|dir| - 1] == dir[|dir| - 1..][0];
        } else {
          assert p == dir + "/" + name;
        }
      }
      LastIndexAt(p, '/', i);
    }
  }

  /**
   * Without a `slug` entry, a discovered post file `name.md` gets the
   * slug `name`.
   */
  lemma SlugFromFileName(dir: string, name: string, fm: FrontMatter, mtime: DateTime, env: Env)
    requires WellFormedMatter(fm) && Valid(mtime) && !Truthy(fm.slug)
    requires '/' !in name && exists k :: 0 <= k < |name| && name[k] != '.'
    ensures LoadPost(PathJoin(dir, name + ".md"), fm, mtime, env).slug == name
  {
    BasenameOfJoin(dir, name + ".md");
    StemOf(name);
  }

  /** Dropping an extension never empties a name: a stem is empty only for the empty name. */
  lemma StemNonEmpty(name: string)
    ensures Stem(name) == "" <==> name == ""
  {
    match LastIndex(name, '.')
    case None =>
    case Some(i) =>
      if exists k :: 0 <= k < i && name[k] != '.' {
        assert |name[..i]| == i > 0;
      }
  }

  /** Every post has a slug: the `slug` entry, or else the stem of a file name that is not empty. */
  lemma SlugNonEmpty(path: string, fm: FrontMatter, mtime: DateTime, env: Env)
    requires WellFormedMatter(fm) && Valid(mtime)
    ensures LoadPost(path, fm, mtime, env).slug != "" <==> Truthy(fm.slug) || Basename(path) != ""
  {
    StemNonEmpty(Basename(path));
  }

  /**
   * Without a title or icons, the title handed to the renderer is
   * `str.title` of the slug with its dashes as spaces: the same text
   * apart from letter case, with no dash left.
   */
  lemma TitleFromSlug(fm: FrontMatter, slug: string)
    requires !Truthy(fm.title) && !Truthy(fm.preIcon) && !Truthy(fm.postIcon)
    ensures TitleText(fm, slug) == Title(ReplaceChar(slug, '-', ' '))
    ensures Lower(TitleText(fm, slug)) == Lower(ReplaceChar(slug, '-', ' '))
    ensures |TitleText(fm, slug)| == |slug| && '-' !in TitleText(fm, slug)
  {
    var spaced := ReplaceChar(slug, '-', ' ');
    assert TitleText(fm, slug) == Title(spaced) by {
      assert "" + Title(spaced) + "" == Title(spaced);
    }
    TitlePreservesLower(spaced);
    TitleIntroducesNoNonLetter(spaced, '-');
  }

  /**
   * Dates: the creation date is the parsed `create_date`, or the file's
   * modification time; the update date is the parsed `update_date`, or
   * the creation date.
   */
  lemma DateDefaults(path: string, fm: FrontMatter, mtime: DateTime, env: Env)
    requires WellFormedMatter(fm) && Valid(mtime)
    ensures var p := LoadPost(path, fm, mtime, env);
      (TruthyDate(fm.createDate) ==> p.createDate == ParseDate(fm.createDate.value))
      && (!TruthyDate(fm.createDate) ==> p.createDate == mtime)
      && (!TruthyDate(fm.updateDate) ==> p.updateDate == p.createDate)
      && (TruthyDate(fm.updateDate) ==> p.updateDate == ParseDate(fm.updateDate.value))
  {
  }

  /**
   * A post never carries an empty category, sub-category or GraphML
   * file; it has a non-empty summary exactly when the front matter has a
   * non-empty `summary` or `excerpt`, and likewise for the cover image
   * and `cover_image` or `image`, and what it shows comes from one of them.
   */
  lemma FieldPresence(path: string, fm: FrontMatter, mtime: DateTime, env: Env)
    requires WellFormedMatter(fm) && Valid(mtime)
    ensures var p := LoadPost(path, fm, mtime, env);
      p.category != Some("") && p.subCategory != Some("") && p.graphmlFile != Some("")
      && (Truthy(p.summary) <==> Truthy(fm.summary) || Truthy(fm.excerpt))
      && (p.summary == fm.summary || p.summary == fm.excerpt)
      && (Truthy(p.coverImage) <==> Truthy(fm.coverImage) || Truthy(fm.image))
      && (p.coverImage == fm.coverImage || p.coverImage == fm.image)
  {
  }
}
