# Blog post pipeline — a Dafny model

This project models the post pipeline of a personal Flask blog and the
computations in its request handlers.

**The post pipeline (utils.py):**
- discovery of the Markdown post files and of the humour gallery images;
- the date parser that tries four fixed layouts and falls back to the epoch;
- the construction of a `Post` from its front matter, with its fallback chain of defaults;
- the hashtag-link builder;
- the two fence rewriters run before Markdown rendering (PlantUML and JSON charts);
- the Mermaid fence formatter;
- the post list sorted newest first, held in a one-slot cache, and the lookup by slug.

**The request handlers (app.py):**
- the homepage (three newest posts and the first gallery image);
- the blog search;
- the single-post page and its 404;
- the résumé's Mermaid sequence diagram and its 404;
- the cache reload;
- the squaring JSON endpoint.

Files, one module each:

- `wrappers.dfy`: `Option` and `Result`.
- `text.dfy`: Python's string operations used by the pipeline:
  - `find` and `in`;
  - `join` and `split`;
  - ASCII `lower` and `title`;
  - `strip`;
  - `html.escape` and markupsafe's `escape`, with a decoder that inverts both;
  - string order.
- `dates.dfy`: `_parse_date`:
  - the four `strptime` layouts, field by field, as CPython's `_strptime` regular expressions read them;
  - calendar validity;
  - `datetime` order.
- `data.dfy`: the `Post` record.
- `substitution.dfy`: `re.sub` as a left-to-right scan. At each position a matcher either reports a match and its replacement, or the character is kept.
- `fences.dfy`:
  - the two patterns `` ```plantuml(.*?)``` `` and `` ```json\s+(\w+)\s*\n([\s\S]*?)\n``` ``, including the backtracking of `\s*\n`;
  - their replacers;
  - `mermaid_format`.
- `discovery.dfy`: `_discover_markdown_files` and `load_all_humor`.
- `tags.dfy`: `render_tags`.
- `loader.dfy`: `load_post_from_file`, over a typed front matter.
- `ordering.dfy`: the stable insertion sort that stands for `list.sort`.
- `repository.dfy`: `load_all_posts` as a class whose `cache` field is the `lru_cache(maxsize=1)` slot, and `get_post`.
- `app.dfy`: the handlers.

**Outside services are parameters:**
- the Markdown renderer;
- the PlantUML URL service, which yields a URL or the text of the exception it raised;
- `json.loads` followed by `json.dumps`, which yields `None` when parsing fails.

The filesystem is a `Site` value: the directory listing, plus the front matter and modification time of each file. Both branches of every service call are modelled.

**Behaviour of the code worth noting:**
- Slugs are neither checked nor made unique. Two posts with the same slug are both loaded, and `get_post` returns the first in list order (`FirstWithSlug`).
- The search does not skip posts whose `summary`, `category` or `sub_category` is missing. The call to `.lower()` on `None` raises, so the whole request fails (`App.Search` returns `Failure`).
- `tags` is declared as a list of strings but holds the rendered tag links as one string (`Data.Post.tags: string`).
- The search haystack is markup: `html`, `title` and `tags` come from the renderer as `Markup`, and appending the plain `summary`, `category` and `sub_category` escapes them. A query is therefore matched against `&amp;`, `&lt;`, `&gt;`, `&#39;` and `&#34;` in those three fields (`App.Haystack`).

## Model

| member | source | states |
|---|---|---|
| Discovery.Discover | utils.py:22-27 | `_discover_markdown_files` lists at most one path per directory entry; which paths, and in what order, is stated by `Discovery.DiscoverMembers` and `Discovery.DiscoverAppend` |
| Discovery.DiscoverMembers | utils.py:22-27 | a path is discovered exactly when it is the content directory joined with a listing entry that ends in ".md" and does not start with "_" |
| Discovery.DiscoverAppend | utils.py:22-27 | discovery keeps listing order: discovering a split listing is discovering each part in turn |
| Discovery.HumorPathsMembers | utils.py:192-196 | a gallery path is present exactly when it is "img/humor/" followed by a listed name whose lower-cased form ends in one of the five image extensions |
| Discovery.LoadAllHumor | utils.py:190-198 | `load_all_humor` returns the filtered gallery paths, rearranged; that the order is string order is stated by `Discovery.LoadAllHumorSpec` |
| Discovery.LoadAllHumorSpec | utils.py:190-198 | the gallery is sorted by string order, is a permutation of the filtered paths, and holds exactly the image files' paths |
| Discovery.StrLePreorder | utils.py:197 | Python's string order is a total preorder, so sorting by it is well defined |
| Text.StrLeTotal | utils.py:197 | any two strings are comparable |
| Text.StrLeTransitive | utils.py:197 | string order is transitive |
| Text.StrLeAntisymmetric | utils.py:197 | strings that are each not greater than the other are equal |
| Dates.ParseDate | utils.py:30-40 | the result is always a real date-time (no exception escapes); a `datetime` argument comes back unchanged |
| Dates.ParseText | utils.py:33-40 | the result is a real date-time; it is the epoch sentinel when no layout reads the text, and a result other than the epoch comes from one of the layouts |
| Dates.LayoutYmd | utils.py:34-36 | "%Y-%m-%d" and "%Y/%m/%d" only yield calendar dates |
| Dates.LayoutDmy | utils.py:34-36 | "%d-%m-%Y" only yields calendar dates |
| Dates.LayoutYmdHm | utils.py:34-36 | "%Y-%m-%d %H:%M" only yields calendar dates with a valid time of day |
| Dates.ScanNumber | utils.py:36 | a one- or two-digit field reads one or two leading digits and yields their decimal value, in the accepted range; two digits are taken whenever they form an accepted value, and it fails exactly when neither one nor two digits do |
| Dates.AnyLayoutDecides | utils.py:34-38 | whichever layout reads a text decides the result, so the order in which the layouts are tried never matters |
| Dates.DmyNeedsShortDay | utils.py:34 | "%d-%m-%Y" cannot read a text that opens with four digits, which separates it from the year-first layouts |
| Dates.YmdRoundTrip | utils.py:34-36 | a date written as "YYYY<sep>MM<sep>DD" is read back field for field |
| Dates.DateValueRoundTrip | utils.py:30-36 | a YAML date goes through `str()` and the first layout and comes back as midnight of the same day |
| Dates.TimeLayoutRoundTrip | utils.py:34-36 | a date-time written as "YYYY-MM-DD HH:MM" is read back by the fourth layout |
| Dates.ReadsDayFirst | utils.py:34-36 | "05-03-2024" is the fifth of March 2024 |
| Dates.ReadsTimeOfDay | utils.py:34-36 | "2024-03-05 10:30" is read with its time of day |
| Dates.FallsBackToEpoch | utils.py:39-40 | "yesterday" is read by no layout and gives the epoch |
| Dates.RejectsImpossibleDay | utils.py:34-40 | "2023-02-29" fits the digit layout but is not a calendar day, so the result is the epoch |
| Dates.NotAfterTotal | utils.py:186 | any two creation dates are comparable |
| Dates.NotAfterTransitive | utils.py:186 | date order is transitive |
| Dates.NotAfterAntisymmetric | utils.py:186 | dates that are each not after the other are equal |
| Loader.OrElse | utils.py:96-97 | `a or b`: the first value when it is a non-empty string, else the second |
| Loader.NonEmpty | utils.py:99-100 | `x or None`: present exactly when `x` is a non-empty string, and then unchanged |
| Loader.Basename | utils.py:90 | a base name holds no "/" |
| Loader.LastIndex | utils.py:90 | the index found holds the character and none follows it; absent exactly when the character does not occur |
| Loader.BasenameOfJoin | utils.py:90 | the base name of a directory joined with a name is that name |
| Loader.Stem | utils.py:90 | `splitext(...)[0]` is the name itself, or a prefix of it cut at a dot after which no dot follows |
| Loader.StemOf | utils.py:90 | the stem of "name.md" is "name" |
| Loader.LoadPost | utils.py:88-125 | a loaded post's creation and update dates are real date-times |
| Loader.StemNonEmpty | utils.py:90 | dropping the extension empties only the empty name |
| Loader.SlugNonEmpty | utils.py:90 | a post's slug is non-empty exactly when the `slug` entry is non-empty or the file's base name is |
| Loader.SlugFromFileName | utils.py:90 | without a `slug` entry, the discovered file "name.md" gets the slug "name" |
| Loader.TitleFromSlug | utils.py:91-93 | without a title or icons, the title is `str.title` of the slug with dashes turned into spaces (whose casing `Text.TitleAt` states): the same text apart from letter case, with no dash |
| Loader.DateDefaults | utils.py:94-95 | creation date: the parsed `create_date`, else the modification time; update date: the parsed `update_date`, else the creation date |
| Loader.FieldPresence | utils.py:96-106 | no post carries an empty category, sub-category or GraphML file; a post has a non-empty summary exactly when `summary` or `excerpt` is non-empty, and a non-empty cover image exactly when `cover_image` or `image` is, and the value shown is one of those two entries |
| Text.ReplaceChar | utils.py:91 | `replace("-", " ")` changes exactly the dashes, keeping the length |
| Text.Title | utils.py:91 | `str.title` keeps the length; its casing character by character is stated by `Text.TitleAt` |
| Text.TitleAt | utils.py:91 | each character of `str.title`: a letter is upper-cased at the start of a word and lower-cased inside one; any other character is kept |
| Text.TitlePreservesLower | utils.py:91 | `title` changes only the case of letters |
| Text.TitleIntroducesNoNonLetter | utils.py:91 | `title` introduces no character that is not a letter |
| Tags.TagLinks | utils.py:138 | one link per tag, in tag order |
| Tags.TagOfLink | utils.py:138 | the tag is read back from its link |
| Tags.ParseTagLinks | utils.py:138 | the tags are read back from their links, in order |
| Tags.RenderTags | utils.py:135-139 | `render_tags` gives the empty string exactly when there are no tags; that the tags can be read back is stated by `Tags.RenderTagsRoundTrip` |
| Tags.RenderTagsRoundTrip | utils.py:135-139 | rendering loses nothing: tags without spaces or "]" are read back from the space-joined links, in order; no tags give the empty string |
| Substitution.NoMatchIdentity | utils.py:155 | text in which no match starts comes back unchanged |
| Substitution.PrefixThenMatch | utils.py:155 | text with no match is kept, the first match is replaced once, and the rest is scanned anew |
| Substitution.SelfReplacementIdentity | utils.py:171 | a replacer that returns every match's own text leaves the whole text unchanged |
| Text.FindSpec | utils.py:155 | the lazy `.*?` stops at the nearest closing fence: no occurrence lies before the one found, and none at all when nothing is found |
| Text.FindFirst | utils.py:155 | an occurrence with none before it is the one found |
| Fences.PlantumlBlockIff | utils.py:155 | a PlantUML region at the front of the text is matched with source `code` exactly when the text is the opener, `code` and a fence, with no fence inside `code` |
| Fences.PlantumlRegionMatched | utils.py:155 | a region whose source holds no fence is matched in full |
| Fences.PlantumlMatcherSound | utils.py:155 | every region match is non-empty and fits in the text |
| Fences.RenderWithPlantuml | utils.py:142-158 | `render_with_plantuml` returns a body with no "```plantuml" identical; what it does to the first region is stated by `Fences.PlantumlFirstRegion` |
| Fences.OpenerFreeIdentity | utils.py:155 | `re.sub` with a pattern that can only match where its opener begins leaves a text without that opener unchanged |
| Fences.PlantumlFirstRegion | utils.py:144-155 | text before the first region is kept; the region up to its nearest fence is replaced once by the image or the failure report; the rest is rewritten on its own |
| Fences.PlantumlFailureShowsSource | utils.py:149-152 | on a service failure the source is shown HTML-escaped inside `<pre>`, holds no "<", and decodes back to the diagram source; the error text follows |
| Text.HtmlEscape | utils.py:151 | escaped text holds no `<`, `>`, `"` or `'` |
| Text.UnescapeEscape | utils.py:151 | escaping loses nothing: decoding the escaped text gives the source back |
| Text.MarkupEscape | app.py:240 | markupsafe-escaped text holds no `<`, `>`, `"` or `'` |
| Text.UnescapeMarkupEscape | app.py:240 | markupsafe escaping loses nothing: decoding gives the source back |
| Text.MarkupEscapeAmp | app.py:240 | escaping a text that holds `&` produces an occurrence of "amp" |
| Fences.JsonHeader | utils.py:178 | a header match starts with "```json" and yields a non-empty whitespace run and a non-empty word |
| Fences.BodyFrom | utils.py:178 | the backtracking of `\s*\n` finds a newline before the body, and the body ends at the nearest "\n```" after it |
| Fences.JsonBlockShape | utils.py:178 | a matched block is "```json", whitespace, a word, whitespace, a newline, a body that contains no "\n```", and the closing "\n```" |
| Fences.JsonBlockOf | utils.py:178 | conversely, a block written out with those parts, whose body is non-empty and does not start with whitespace, is matched with exactly those parts |
| Fences.ChartMatcherSound | utils.py:178 | every chart match is non-empty and fits in the text |
| Fences.D3NothingParses | utils.py:168-171 | when no body parses, every block is left byte for byte and the text comes back unchanged |
| Fences.RenderWithD3 | utils.py:161-180 | `render_with_D3` returns a body with no "```json" identical; what it does to the first block is stated by `Fences.D3FirstBlock` |
| Fences.D3FirstBlock | utils.py:165-178 | text before the first block is kept; the block becomes the placeholder when its body parses and stays verbatim otherwise; the rest is rewritten on its own |
| Fences.ChartDataAttribute | utils.py:175 | the single-quoted `data-json` attribute holds exactly the serialized data if and only if the data has no single quote, because nothing is escaped |
| Text.StripLeft | utils.py:166-167 | `lstrip` removes exactly the leading whitespace: what it removes is whitespace, and what remains does not start with whitespace |
| Text.StripRight | utils.py:166-167 | `rstrip` removes exactly the trailing whitespace: what it removes is whitespace, and what remains does not end with whitespace |
| Fences.MermaidFormat | utils.py:44-46 | `mermaid_format` wraps the source in the Mermaid container, and no `<` between the container's tags can close it early |
| Fences.MermaidRoundTrip | utils.py:44-46 | the Mermaid container holds the escaped source, which decodes back to the source |
| Ordering.Insert | utils.py:186 | inserting adds exactly the one element |
| Ordering.Sort | utils.py:186 | sorting is a permutation |
| Ordering.InsertSorted | utils.py:186 | inserting into a sorted list keeps it sorted |
| Ordering.SortSorted | utils.py:186 | the sorted list is ordered |
| Ordering.InsertTies | utils.py:186 | an inserted element goes after everything that ties with it |
| Ordering.SortStable | utils.py:186 | elements that tie keep their input order, as `list.sort` with `reverse=True` does |
| Repository.NewerFirstPreorder | utils.py:186 | "not older than" is a total preorder on posts |
| Repository.LoadPosts | utils.py:185 | one post per discovered file |
| Repository.AllPosts | utils.py:184-187 | `load_all_posts` returns the loaded posts rearranged; the order is stated by `Repository.AllPostsSpec` |
| Repository.AllPostsSpec | utils.py:183-187 | one post per discovered file; creation dates never increase along the list; posts with the same date keep discovery order |
| Repository.PostRepository.constructor | utils.py:183 | the cache starts empty |
| Repository.PostRepository.LoadAll | utils.py:183-187 | a filled cache is returned unchanged; an empty one is filled with the sorted posts, which are returned |
| Repository.PostRepository.Clear | app.py:284 | `cache_clear` empties the slot |
| Repository.FirstWithSlug | utils.py:128-132 | the post found is in the list and has the slug; nothing is found exactly when no post has it |
| Repository.FindSlug | utils.py:129-132 | the early-return loop finds the first post with the slug |
| Repository.PostRepository.GetPost | utils.py:128-132 | `get_post` looks in the cached or freshly loaded list and returns its first post with the slug |
| App.Index | app.py:51-55 | the homepage gets the first min(3, n) posts and the first image; no image at all fails the request |
| App.IndexShowsNewest | app.py:53-55 | on the loaded list, no post left off the homepage is newer than one shown |
| App.NewestPrefix | app.py:55 | in a newest-first list, nothing after a prefix is newer than anything in it |
| App.IndexImageFirst | app.py:54-55 | the homepage image comes first in name order among the gallery images |
| Text.Lower | app.py:235-240 | `lower` maps each character and keeps the length |
| Text.LowerAppend | app.py:240 | lower-casing distributes over concatenation |
| Text.ContainsIff | app.py:242 | `query in haystack` holds exactly when the query occurs at some index |
| Text.OccursKeepsChar | app.py:242 | a character of the query appears in every text the query occurs in |
| App.LowerKeepsPunctuation | app.py:240 | lower-casing neither adds nor removes an apostrophe or an ampersand |
| App.ApostropheOnlyInMarkup | app.py:240-242 | a query with an apostrophe matches no post whose rendered fields lack one, since the plain fields are searched with it escaped |
| App.AmpersandInSummary | app.py:240-242 | a summary with an ampersand is found by the query "amp", since it is searched as `&amp;` |
| App.Matching | app.py:238-243 | the results are no more than the posts |
| App.FilterSpec | app.py:238-243 | filtering keeps the elements in order with some left out, and keeps an element exactly when the test accepts it |
| App.FilterAppend | app.py:239-243 | one more element joins the filtered list at its end exactly when the test accepts it |
| App.FilterKeepsAll | app.py:239-243 | a test that accepts every element keeps the whole list |
| App.Haystack | app.py:240 | the searched text holds an apostrophe only when the rendered body, title or tags do, since the plain fields are escaped; what else it holds is stated by `App.AmpersandInSummary` and `App.MatchingSpec` |
| App.MatchingSpec | app.py:238-243 | the results are the posts, in order and with some left out; a post is among them exactly when its haystack, with the plain fields escaped, contains the query |
| App.EmptyQueryMatchesAll | app.py:235-242 | an empty query matches every post |
| App.SearchStep | app.py:239-243 | each loop round adds the next post to the results exactly when it matches |
| App.Search | app.py:234-243 | the loop fails exactly when some post lacks a searched field, and otherwise returns in order the posts whose escaped haystack contains the query |
| App.Blog | app.py:228-249 | a GET lists every post with no query; a POST lists the matches of the lower-cased query (empty when absent), or fails as the search does |
| App.PostPage | app.py:252-258 | 404 exactly when no post has the slug; otherwise the first post in list order with that slug |
| Text.UnlinesAppend | app.py:159-167 | appending lines one by one builds the text of all of them |
| Text.SplitUnlines | app.py:159-167 | text made of newline-terminated lines splits back into those lines and an empty tail |
| App.DiagramLinesAppend | app.py:165-167 | one more job adds its two lines at the end |
| App.DiagramStep | app.py:165-167 | each loop round appends the job's call line, then its return line |
| App.MermaidCode | app.py:158-167 | the loop builds the two header lines followed by every job's lines, each line ended by a newline |
| App.DiagramLinesAt | app.py:165-167 | job i's call line and return line are lines 2i and 2i+1 of the body |
| App.MermaidLines | app.py:158-167 | read line by line, the diagram is "sequenceDiagram", "    participant Start", then per job in order its `->>+` line and its `-->>- Start: Done` line, then an empty tail |
| App.Resume | app.py:151-173 | 404 exactly when the file name does not end in ".json"; otherwise the page carries the diagram of the work history |
| App.DevReload | app.py:281-285 | the post cache is empty afterwards and the reply is `{"ok": true, "reloaded": true}` |
| App.ReloadThenLoad | app.py:284 | after a reload the next load reads the directory again, whatever was cached before |
| App.JsonEndpoint | app.py:177-179 | the reply echoes the number and carries its square; the square is not less than the number, and equals it exactly for 0 and 1 |

## Left out

- Markdown rendering (`render_markdown`, emoji, highlighting, superfences) is an opaque function in `Env`. Only `mermaid_format`, which it calls, is modelled.
- The PlantUML service is a parameter that returns a URL or an error text. The model does not decide which branch the module-level `plantuml.get_url` takes; both branches are proved.
- `json.loads` and `json.dumps` are one parameter: the re-serialized text, or `None` when parsing fails. No JSON grammar is modelled.
- The `charts` list built in `render_with_D3` is never read, so it is not built. `chart_included` comes from the front matter only.
- Filesystem and YAML:
  - `os.listdir`, `os.path.getmtime` and `frontmatter.load` are replaced by the `Site` value.
  - The front matter is a typed record. A missing or null key is `None`, and YAML's other value types are not distinguished beyond string, date, date-time, bool and tag list.
- Dates.DateTime is naive: it has no UTC offset. A YAML timestamp with an offset (`2024-03-05T10:30:00+02:00` or `...Z`) loads as an aware `datetime`, which `_parse_date` returns unchanged (utils.py:31-32). The model drops the offset, which has two effects. Sorting a mix of aware and naive creation dates raises `TypeError` at utils.py:186, so every page that loads posts fails, and the model does not capture that failure. Posts whose dates are all aware are ordered by UTC instant, while `Repository.AllPostsSpec` orders by the written fields.
- `datetime.fromtimestamp` uses the local time zone; the model takes the epoch and modification times in UTC.
- `strptime` is modelled only for the four numeric layouts. Locale-dependent directives are not used by the source.
- Case mapping, `str.title` and `\w` cover ASCII only: letters and digits outside ASCII are treated as other characters. Whitespace (`\s`, `str.isspace`, `strip`) is the full Unicode set (`Text.IsSpace`).
- Dates.IsDigit and Dates.DigitValue accept the ASCII digits only, while `\d` in `_strptime`'s patterns accepts any Unicode decimal digit; a date written with other digits falls back to the epoch in the model.
- `html.escape`, markupsafe's `escape` and the decoder cover the entities those two produce. General HTML entity decoding is not modelled.
- The résumé route:
  - opening and parsing the JSON file is left out; the work history is a parameter;
  - a missing `work`, `company`, `position`, `startDate` or `endDate` key (a `KeyError`) is not modelled.
- Templates, Flask routing, `abort` and HTTP are left out. A handler returns the data it passes to its template, or a `Failure`.
- `load_all_humor`'s `lru_cache` is not modelled. Its result depends only on the directory listing, which is a parameter.
- Lists returned from the cache are values in the model. Aliasing of the cached list between callers is not modelled.
- Other handlers, mail, the database, forms, graph data, the slideshow and the browser scripts are not part of this model.
- App.Matching: its own contract only bounds the length; what the results are is stated by App.MatchingSpec.
- Repository.Readable and Repository.AllPosts assume every discovered file loads. A failing `frontmatter.load` (malformed YAML, a file removed after the listing, a date value `_parse_date` cannot turn into text) propagates out of `load_all_posts` (utils.py:185): every page that loads posts fails and nothing is cached. None of this is modelled.
