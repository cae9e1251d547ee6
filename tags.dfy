/** `render_tags`: each tag as a Markdown link to its hashtag feed. */
module Tags {
  import opened Wrappers
  import opened Text

  const HashtagFeed: string := "https://www.linkedin.com/feed/hashtag/"

  function TagLink(tag: string): string {
    "[#" + tag + "](" + HashtagFeed + tag + "/)"
  }

  function TagLinks(tags: seq<string>): (r: seq<string>)
    ensures |r| == |tags| && forall i :: 0 <= i < |tags| ==> r[i] == TagLink(tags[i])
  {
    seq(|tags|, i requires 0 <= i < |tags| => TagLink(tags[i]))
  }

  /** No tags give the empty string; otherwise the links in tag order, separated by single spaces. */
  function RenderTags(tags: seq<string>): (r: string)
    ensures r == "" <==> tags == []
  {
    if tags == [] then "" else Join(TagLinks(tags), " ")
  }

  /** The tag a link was made from: the text between `[#` and the first `]`. */
  function TagOf(link: string): Option<string> {
    if !StartsWith(link, "[#") then None
    else match Find(link, "]", 2)
      case None => None
      case Some(j) => Some(link[2..j])
  }

  /** The tags back from rendered links, split at the spaces between them. */
  function ParseTags(s: string): Option<seq<string>> {
    if s == "" then Some([])
    else ParseLinks(Split(s, ' '))
  }

  function ParseLinks(links: seq<string>): (r: Option<seq<string>>)
    ensures r.Some? ==> |r.value| == |links|
  {
    if links == [] then Some([])
    else
      var tag :- TagOf(links[0]);
      var rest :- ParseLinks(links[1..]);
      Some([tag] + rest)
  }

  lemma TagOfLink(tag: string)
    requires ']' !in tag
    ensures TagOf(TagLink(tag)) == Some(tag)
  {
    var link := TagLink(tag);
    var j := 2 + |tag|;
    assert link[..2] == "[#";
    assert link[2..j] == tag;
    assert link[j..j + 1] == "]";
    forall k | 2 <= k < j ensures !OccursAt(link, "]", k) {
      assert link[k..k + 1] == [tag[k - 2]];
    }
    FindFirst(link, "]", 2, j);
  }

  lemma NoSpaceInLink(tag: string)
    requires ' ' !in tag
    ensures ' ' !in TagLink(tag)
  {
  }

  lemma {:induction false} ParseTagLinks(tags: seq<string>)
    requires forall i :: 0 <= i < |tags| ==> ']' !in tags[i]
    ensures ParseLinks(TagLinks(tags)) == Some(tags)
  {
    if tags != [] {
      TagOfLink(tags[0]);
      assert TagLinks(tags)[1..] == TagLinks(tags[1..]);
      ParseTagLinks(tags[1..]);
      assert tags == [tags[0]] + tags[1..];
    }
  }

  /**
   * Rendering loses nothing: tags without spaces or closing brackets are
   * read back from the rendered text, in order.
   */
  lemma RenderTagsRoundTrip(tags: seq<string>)
    requires forall i :: 0 <= i < |tags| ==> ' ' !in tags[i] && ']' !in tags[i]
    ensures ParseTags(RenderTags(tags)) == Some(tags)
  {
    if tags != [] {
      var links := TagLinks(tags);
      forall i | 0 <= i < |links| ensures ' ' !in links[i] {
        NoSpaceInLink(tags[i]);
      }
      SplitJoin(links, ' ');
      assert [' '] == " ";
      assert RenderTags(tags) != "" by {
        var r := Join(links, " ");
        if |links| == 1 {
          assert r == links[0];
        } else {
          assert r == links[0] + " " + Join(links[1..], " ");
        }
        assert |links[0]| > 0;
      }
      ParseTagLinks(tags);
    }
  }
}
