/**
 * The derived values of a `PostCard`: the text shown under the title (the
 * description, else the start of the content), its snippet cut at 350
 * characters, the link every clickable part of the card points to, and the
 * category label.
 */
module PostCard {
  import opened Wrappers
  import opened Text
  import opened Seqs
  import opened Store

  const ContentPreview: nat := 200
  const SnippetLimit: nat := 350
  const Ellipsis: string := "..."

  /** `displayText`: the description when non-empty, else the first 200 characters of the content, else "". */
  function DisplayText(description: Option<string>, content: Option<string>): (r: string)
    ensures Truthy(description) ==> r == description.value
    ensures !Truthy(description) ==> |r| <= ContentPreview
    ensures !Truthy(description) && Truthy(content) ==> |r| <= |content.value| && r == content.value[..|r|] && (|r| == ContentPreview || r == content.value)
    ensures !Truthy(description) && !Truthy(content) ==> r == ""
  {
    if Truthy(description) then description.value
    else if Truthy(content) then Take(content.value, ContentPreview)
    else ""
  }

  /** `snippet`: texts longer than 350 characters are cut to 350 and get an ellipsis. */
  function Snippet(text: string): (r: string)
    ensures |r| <= SnippetLimit + |Ellipsis|
    ensures |text| <= SnippetLimit ==> r == text
    ensures |text| > SnippetLimit ==> r == text[..SnippetLimit] + Ellipsis
  {
    if |text| > SnippetLimit then text[..SnippetLimit] + Ellipsis else text
  }

  /** A snippet drawn from the content never gets the ellipsis: the preview is already shorter than the cut. */
  lemma ContentSnippetWhole(description: Option<string>, content: Option<string>)
    requires !Truthy(description)
    ensures Snippet(DisplayText(description, content)) == DisplayText(description, content)
    ensures |Snippet(DisplayText(description, content))| <= ContentPreview
  {
  }

  /** A snippet is a prefix of the text, with the ellipsis exactly when something was cut. */
  lemma SnippetPrefix(text: string)
    ensures var r := Snippet(text);
      (|text| <= SnippetLimit ==> r == text) &&
      (|text| > SnippetLimit ==> r[..SnippetLimit] == text[..SnippetLimit] && r[SnippetLimit..] == Ellipsis)
  {
  }

  /**
   * `viewLink`: `/c/` and the slug when there is one, else the id; with a
   * `fromPath`, `?from=` and the encoded path follow. `encode` stands for
   * `encodeURIComponent`.
   */
  function ViewLink(slug: Option<string>, id: int, fromPath: Option<string>, encode: string -> string): (r: string)
    ensures StartsWith(r, "/c/")
    ensures Truthy(fromPath) ==> r == "/c/" + (if Truthy(slug) then slug.value else IntToString(id)) + "?from=" + encode(fromPath.value)
    ensures !Truthy(fromPath) ==> r == "/c/" + (if Truthy(slug) then slug.value else IntToString(id))
  {
    var target := if Truthy(slug) then slug.value else IntToString(id);
    if Truthy(fromPath) then "/c/" + target + "?from=" + encode(fromPath.value) else "/c/" + target
  }

  /** Without a slug, the link reads back as the post's id. */
  lemma ViewLinkIdRoundTrip(id: nat, encode: string -> string)
    ensures var link := ViewLink(None, id, None, encode);
      |link| > 3 && (forall i :: 3 <= i < |link| ==> IsDigit(link[i])) && ParseDigits(link[3..]) == id
  {
    var link := ViewLink(None, id, None, encode);
    assert link[3..] == NatToString(id);
    ParseNatToString(id);
  }

  /** Without slugs, posts with different ids get different links. */
  lemma ViewLinkIdInjective(a: int, b: int, fromPath: Option<string>, encode: string -> string)
    requires ViewLink(None, a, fromPath, encode) == ViewLink(None, b, fromPath, encode)
    requires !Truthy(fromPath)
    ensures a == b
  {
    var la := ViewLink(None, a, fromPath, encode);
    var lb := ViewLink(None, b, fromPath, encode);
    assert la[3..] == IntToString(a);
    assert lb[3..] == IntToString(b);
    IntToStringInjective(a, b);
  }

  /** With a `fromPath`, the link is the plain link followed by the query. */
  lemma ViewLinkQueryExtends(slug: Option<string>, id: int, fromPath: string, encode: string -> string)
    requires fromPath != ""
    ensures var plain := ViewLink(slug, id, None, encode);
      var full := ViewLink(slug, id, Some(fromPath), encode);
      full == plain + "?from=" + encode(fromPath)
  {
  }

  /** What a card shows: its links, the category label and the snippet. */
  datatype CardView = CardView(
    imageLink: Option<string>,
    shareUrl: string,
    titleLink: string,
    readMoreLink: string,
    categoryLabel: string,
    categoryColor: string,
    snippet: string)

  /** An empty category name is shown as `Без категория`. */
  function CategoryLabel(name: Option<string>): (r: string)
    ensures r != ""
    ensures Truthy(name) ==> r == name.value
    ensures !Truthy(name) ==> r == UncategorisedName
  {
    OrElse(name, UncategorisedName)
  }

  /** `PostCard` for a feed post. */
  function Card(post: FeedPost, fromPath: Option<string>, encode: string -> string): (r: CardView)
    ensures var link := ViewLink(post.slug, post.id, fromPath, encode);
      r.shareUrl == link && r.titleLink == link && r.readMoreLink == link &&
      (r.imageLink.Some? <==> Truthy(post.image)) && (r.imageLink.Some? ==> r.imageLink.value == link)
    ensures r.categoryLabel == CategoryLabel(post.category.name) && r.categoryColor == post.category.color
    ensures r.snippet == Snippet(DisplayText(post.description, post.content))
  {
    var link := ViewLink(post.slug, post.id, fromPath, encode);
    CardView(
      if Truthy(post.image) then Some(link) else None,
      link, link, link,
      CategoryLabel(post.category.name),
      post.category.color,
      Snippet(DisplayText(post.description, post.content)))
  }
}
