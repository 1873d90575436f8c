/**
 * `app/feed.xml/route.ts`: the RSS 2.0 feed. The fifty most recently
 * published live slugged posts each become an item with the post's address,
 * a `post-{id}` guid, one category, an author and a description (an excerpt
 * of the content when there is no description, led by an image tag when the
 * post has an image).
 */
module RssFeed {
  import opened Wrappers
  import opened Text
  import opened Seqs
  import opened Store
  import Sitemap

  const FeedLimit: nat := 50
  const ExcerptLength: nat := 200
  const DefaultCategory: string := "Общи"
  const DefaultAuthor: string := "stox.bg Team"
  const DefaultBase: string := "https://stox.bg"

  // ---------------------------------------------------------------------
  // The query: order by published_at desc, limit 50

  predicate Undated(p: PostRow) { p.publishedAt.None? }
  predicate Dated(p: PostRow) { p.publishedAt.Some? }

  /** The instant of a post's date, as `epoch` reads it; undated posts are kept apart. */
  function DateKey(epoch: string -> int): PostRow -> int {
    (p: PostRow) => if p.publishedAt.Some? then epoch(p.publishedAt.value) else 0
  }

  /**
   * The feed's query: live slugged posts by publication date, newest first,
   * at most fifty. In a descending order the store puts posts without a date
   * first; `epoch` maps a date text to its instant.
   */
  function FeedRows(t: Table<PostRow>, epoch: string -> int): (r: Response<PostRow>)
    ensures r.Failed? <==> !t.up
    ensures r.Rows? ==> |r.rows| <= FeedLimit
  {
    if !t.up then Failed
    else
      var slugged := Filter(t.rows, Sitemap.Slugged);
      Rows(Take(Filter(slugged, Undated) + SortDescBy(Filter(slugged, Dated), DateKey(epoch)), FeedLimit))
  }

  /** Undated posts come before dated ones, and dated ones run from the latest date down. */
  predicate DateOrdered(rows: seq<PostRow>, epoch: string -> int) {
    forall i, j :: 0 <= i < j < |rows| && Dated(rows[i]) ==>
      Dated(rows[j]) && epoch(rows[i].publishedAt.value) >= epoch(rows[j].publishedAt.value)
  }

  lemma UndatedThenDated(undated: seq<PostRow>, dated: seq<PostRow>, epoch: string -> int)
    requires forall x :: x in undated ==> Undated(x)
    requires forall x :: x in dated ==> Dated(x)
    requires SortedDescBy(dated, DateKey(epoch))
    ensures DateOrdered(undated + dated, epoch)
  {
    var all := undated + dated;
    forall k | 0 <= k < |undated| ensures all[k] == undated[k] && Undated(all[k]) {
      assert undated[k] in undated;
    }
    forall k | |undated| <= k < |all| ensures all[k] == dated[k - |undated|] && Dated(all[k]) {
      assert dated[k - |undated|] in dated;
    }
  }

  /**
   * The query answers with at most fifty live slugged posts of the table:
   * the undated ones first, then the dated ones from the latest date down.
   */
  lemma FeedRowsSound(t: Table<PostRow>, epoch: string -> int)
    ensures FeedRows(t, epoch).Failed? <==> !t.up
    ensures FeedRows(t, epoch).Rows? ==>
      var rows := FeedRows(t, epoch).rows;
      var slugged := Filter(t.rows, Sitemap.Slugged);
      |rows| == (if |slugged| <= FeedLimit then |slugged| else FeedLimit) &&
      (forall r :: r in rows ==> r in t.rows && Sitemap.Slugged(r)) &&
      DateOrdered(rows, epoch)
  {
    if t.up {
      var slugged := Filter(t.rows, Sitemap.Slugged);
      var undated := Filter(slugged, Undated);
      var dated := SortDescBy(Filter(slugged, Dated), DateKey(epoch));
      FilterComplement(slugged, Undated, Dated);
      forall r | r in dated ensures r in t.rows && Sitemap.Slugged(r) && Dated(r) {
        assert r in multiset(dated);
      }
      UndatedThenDated(undated, dated, epoch);
      DateOrderedTake(undated + dated, epoch);
    }
  }

  /**
   * A live slugged post missing from the feed was crowded out: the feed is
   * full, and every post in it is undated or dated no earlier than the
   * missing one (all of them undated when the missing one is).
   */
  lemma FeedRowsNewest(t: Table<PostRow>, epoch: string -> int)
    requires t.up
    ensures var rows := FeedRows(t, epoch).rows;
      forall x :: x in t.rows && Sitemap.Slugged(x) && x !in rows ==>
        |rows| == FeedLimit &&
        forall y :: y in rows ==>
          Undated(y) || (Dated(x) && epoch(y.publishedAt.value) >= epoch(x.publishedAt.value))
  {
    var slugged := Filter(t.rows, Sitemap.Slugged);
    var undated := Filter(slugged, Undated);
    var dated := SortDescBy(Filter(slugged, Dated), DateKey(epoch));
    forall r | r in dated ensures Dated(r) {
      assert r in multiset(dated);
    }
    UndatedThenDated(undated, dated, epoch);
    var all := undated + dated;
    forall x | x in t.rows && Sitemap.Slugged(x) && x !in Take(all, FeedLimit)
      ensures x in all
    {
      assert x in slugged;
      if Dated(x) {
        assert x in multiset(Filter(slugged, Dated));
        assert x in multiset(dated);
      }
    }
    forall x | x in all && x !in Take(all, FeedLimit)
      ensures |Take(all, FeedLimit)| == FeedLimit &&
        forall y :: y in Take(all, FeedLimit) ==>
          Undated(y) || (Dated(x) && epoch(y.publishedAt.value) >= epoch(x.publishedAt.value))
    {
      TakeCrowdsOut(all, epoch, x);
    }
  }

  /** In date order, a row left beyond the first fifty follows fifty rows dated no earlier. */
  lemma TakeCrowdsOut(all: seq<PostRow>, epoch: string -> int, x: PostRow)
    requires DateOrdered(all, epoch) && x in all && x !in Take(all, FeedLimit)
    ensures var rows := Take(all, FeedLimit);
      |rows| == FeedLimit &&
      forall y :: y in rows ==>
        Undated(y) || (Dated(x) && epoch(y.publishedAt.value) >= epoch(x.publishedAt.value))
  {
    var rows := Take(all, FeedLimit);
    var j :| 0 <= j < |all| && all[j] == x;
    forall y | y in rows
      ensures Undated(y) || (Dated(x) && epoch(y.publishedAt.value) >= epoch(x.publishedAt.value))
    {
      var i :| 0 <= i < |rows| && rows[i] == y;
      assert all[i] == y;
    }
  }

  /** The first fifty of date-ordered rows are date-ordered. */
  lemma DateOrderedTake(all: seq<PostRow>, epoch: string -> int)
    requires DateOrdered(all, epoch)
    ensures DateOrdered(Take(all, FeedLimit), epoch)
  {
    var rows := Take(all, FeedLimit);
    forall i, j | 0 <= i < j < |rows| ensures rows[i] == all[i] && rows[j] == all[j] {
    }
  }

  // ---------------------------------------------------------------------
  // One item

  datatype Enclosure = Enclosure(url: string, mimeType: string)

  datatype RssItem = RssItem(
    title: string,
    description: string,
    url: string,
    guid: string,
    categories: seq<Option<string>>,
    author: string,
    date: string,
    enclosure: Option<Enclosure>)

  /** The first joined category's name, when the relation comes back as a non-empty array; else `Общи`. */
  function CategoryName(e: Embed): (r: Option<string>)
    ensures e.EmbedArray? && |e.names| > 0 ==> r == e.names[0]
    ensures !(e.EmbedArray? && |e.names| > 0) ==> r == Some(DefaultCategory)
  {
    if e.EmbedArray? && |e.names| > 0 then e.names[0] else Some(DefaultCategory)
  }

  /** The characters the excerpt drops: `#`, `*`, `_` and the backtick. */
  predicate MarkdownMark(c: char) { c == '#' || c == '*' || c == '_' || c == '`' }
  predicate KeptChar(c: char) { !MarkdownMark(c) }

  /** The first 200 characters of the content without Markdown marks, then `...`. */
  function Excerpt(content: string): (r: string)
    ensures |r| <= ExcerptLength + 3
    ensures |r| >= 3 && r[|r| - 3..] == "..."
    ensures forall i :: 0 <= i < |r| - 3 ==> !MarkdownMark(r[i])
  {
    Filter(Take(content, ExcerptLength), KeptChar) + "..."
  }

  /** Content of at most 200 characters without Markdown marks is shown whole, then `...`. */
  lemma ExcerptPlain(content: string)
    requires |content| <= ExcerptLength
    requires forall i :: 0 <= i < |content| ==> !MarkdownMark(content[i])
    ensures Excerpt(content) == content + "..."
  {
    FilterAll(content, KeptChar);
  }

  /** A Markdown mark alone leaves nothing before the `...`. */
  lemma ExcerptMark(c: char)
    requires MarkdownMark(c)
    ensures Excerpt([c]) == "..."
  {
    assert [c][1..] == [];
  }

  /**
   * Within the first 200 characters the excerpt works character by
   * character: the excerpt of `a + b` is the text of `a`'s excerpt before
   * its `...`, then `b`'s excerpt.
   */
  lemma ExcerptConcat(a: string, b: string)
    requires |a + b| <= ExcerptLength
    ensures Excerpt(a + b) == Excerpt(a)[..|Excerpt(a)| - 3] + Excerpt(b)
  {
    FilterConcat(a, b, KeptChar);
    assert Excerpt(a)[..|Excerpt(a)| - 3] == Filter(a, KeptChar);
  }

  /** Nothing after the first 200 characters reaches the excerpt. */
  lemma ExcerptCut(content: string)
    requires |content| > ExcerptLength
    ensures Excerpt(content) == Excerpt(content[..ExcerptLength])
  {
  }

  /** An image path made absolute unless it already starts with `http`. */
  function ImageUrl(base: string, image: string): (r: string)
    ensures StartsWith(image, "http") ==> r == image
    ensures !StartsWith(image, "http") ==> r == base + image
  {
    if StartsWith(image, "http") then image else base + image
  }

  const ImgOpen: string := "<img src="
  const Quote: string := "\""
  const AltOpen: string := " alt=\""
  const ImgClose: string := "\" style=\"max-width: 100%; height: auto;\" /><br/><br/>"
  const GuidPrefix: string := "post-"
  const ImageType: string := "image/jpeg"

  /** The image tag that leads the description: `<img src="{url}" alt="{title}" ... /><br/><br/>`. */
  function ImageTag(url: string, title: string): string {
    ImgOpen + (Quote + (url + (Quote + (AltOpen + (title + ImgClose)))))
  }

  /** The item's text before the image tag: the description, else an excerpt of the content, else empty. */
  function BaseDescription(row: PostRow): (r: string)
    ensures Truthy(row.description) ==> r == row.description.value
    ensures !Truthy(row.description) && Truthy(row.content) ==> r == Excerpt(row.content.value)
    ensures !Truthy(row.description) && !Truthy(row.content) ==> r == ""
  {
    var d := OrElse(row.description, "");
    if d == "" && Truthy(row.content) then Excerpt(row.content.value) else d
  }

  /** The item of one post; `now` dates posts that have no publication date. */
  function Item(base: string, now: string, row: PostRow, encode: string -> string): (r: RssItem)
    requires Truthy(row.slug)
  {
    var description := BaseDescription(row);
    RssItem(
      row.title,
      if Truthy(row.image) then ImageTag(ImageUrl(base, row.image.value), row.title) + description else description,
      Sitemap.PostUrl(base, row.slug.value, encode),
      GuidPrefix + IntToString(row.id),
      [CategoryName(row.embeddedCategories)],
      OrElse(row.author, DefaultAuthor),
      if Truthy(row.publishedAt) then row.publishedAt.value else now,
      if Truthy(row.image) then Some(Enclosure(ImageUrl(base, row.image.value), ImageType)) else None)
  }

  /**
   * The item shows the post's title at the post's address, with guid
   * `post-{id}`, one category, the author or `stox.bg Team`, the
   * publication date or `now`, and an enclosure and a leading image tag
   * exactly when the post has an image.
   */
  lemma ItemFields(base: string, now: string, row: PostRow, encode: string -> string)
    requires Truthy(row.slug)
    ensures var r := Item(base, now, row, encode);
      r.title == row.title && StartsWith(r.url, base + "/c/") && r.guid == GuidPrefix + IntToString(row.id) &&
      |r.categories| == 1 &&
      r.author == (if Truthy(row.author) then row.author.value else DefaultAuthor) &&
      r.date == (if Truthy(row.publishedAt) then row.publishedAt.value else now) &&
      (r.enclosure.Some? <==> Truthy(row.image)) &&
      r.description == (if Truthy(row.image) then ImageTag(ImageUrl(base, row.image.value), row.title) else "") + BaseDescription(row)
  {
  }

  function Items(base: string, now: string, rows: seq<PostRow>, encode: string -> string): (r: seq<RssItem>)
    requires forall x :: x in rows ==> Truthy(x.slug)
    ensures |r| == |rows|
    ensures forall i :: 0 <= i < |rows| ==> r[i] == Item(base, now, rows[i], encode)
  {
    seq(|rows|, i requires 0 <= i < |rows| => Item(base, now, rows[i], encode))
  }

  // ---------------------------------------------------------------------
  // The route

  /** The channel fields that depend on the site's address. */
  datatype Channel = Channel(title: string, feedUrl: string, siteUrl: string, language: string, ttl: nat)

  /** What the route answers: status 500, or the feed with its items. */
  datatype FeedResponse = ServerError | FeedDocument(channel: Channel, items: seq<RssItem>)

  function FeedBase(siteUrl: Option<string>): string {
    OrElse(siteUrl, DefaultBase)
  }

  function FeedChannel(base: string): Channel {
    Channel("stox.bg - проект на Devids", base + "/feed.xml", base, "bg", 60)
  }

  /** The route: status 500 on a query error, else the channel and one item per fetched post. */
  function Feed(db: Db, siteUrl: Option<string>, now: string, encode: string -> string, epoch: string -> int): (r: FeedResponse)
    ensures r.ServerError? <==> !db.posts.up
    ensures r.FeedDocument? ==>
      r.channel.feedUrl == FeedBase(siteUrl) + "/feed.xml" && |r.items| <= FeedLimit &&
      forall i :: 0 <= i < |r.items| ==> StartsWith(r.items[i].url, FeedBase(siteUrl) + "/c/")
  {
    var base := FeedBase(siteUrl);
    var response := FeedRows(db.posts, epoch);
    if response.Failed? then ServerError
    else
      FeedRowsSound(db.posts, epoch);
      FeedDocument(FeedChannel(base), Items(base, now, response.rows, encode))
  }

  /** The body of the `for` loop: the description is built up in steps, then the item is made. */
  method MakeItem(base: string, now: string, post: PostRow, encode: string -> string) returns (item: RssItem)
    requires Truthy(post.slug)
    ensures item == Item(base, now, post, encode)
  {
    var postUrl := Sitemap.PostUrl(base, post.slug.value, encode);
    var publishDate := if Truthy(post.publishedAt) then post.publishedAt.value else now;
    var categoryName := CategoryName(post.embeddedCategories);
    var description := OrElse(post.description, "");
    if description == "" && Truthy(post.content) {
      description := Excerpt(post.content.value);
    }
    assert description == BaseDescription(post);
    var enclosure: Option<Enclosure> := None;
    if Truthy(post.image) {
      var imageUrl := ImageUrl(base, post.image.value);
      description := ImageTag(imageUrl, post.title) + description;
      enclosure := Some(Enclosure(imageUrl, ImageType));
    }
    item := RssItem(post.title, description, postUrl, GuidPrefix + IntToString(post.id),
      [categoryName], OrElse(post.author, DefaultAuthor), publishDate, enclosure);
  }

  /** The `for` loop: one item per post, in order. */
  method AddItems(base: string, now: string, posts: seq<PostRow>, encode: string -> string) returns (items: seq<RssItem>)
    requires forall x :: x in posts ==> Truthy(x.slug)
    ensures items == Items(base, now, posts, encode)
  {
    forall k | 0 <= k < |posts| ensures Truthy(posts[k].slug) {
      assert posts[k] in posts;
    }
    items := [];
    for i := 0 to |posts|
      invariant |items| == i
      invariant forall k :: 0 <= k < i ==> items[k] == Item(base, now, posts[k], encode)
    {
      var item := MakeItem(base, now, posts[i], encode);
      ghost var before := items;
      items := items + [item];
      assert forall k :: 0 <= k < i ==> items[k] == before[k];
    }
  }

  /** `GET`: status 500 on a query error, else the channel and the items. */
  method Get(db: Db, siteUrl: Option<string>, now: string, encode: string -> string, epoch: string -> int)
    returns (response: FeedResponse)
    ensures response == Feed(db, siteUrl, now, encode, epoch)
  {
    var base := FeedBase(siteUrl);
    var found := FeedRows(db.posts, epoch);
    if found.Failed? {
      return ServerError;
    }
    FeedRowsSound(db.posts, epoch);
    var items := AddItems(base, now, found.rows, encode);
    return FeedDocument(FeedChannel(base), items);
  }

  /**
   * The route fails exactly when the query does; otherwise it holds at most
   * fifty items, the `i`-th for the `i`-th fetched post: at the post's
   * address, with guid `post-{id}`, exactly one category, and the post's
   * author or `stox.bg Team`.
   */
  lemma FeedShape(db: Db, siteUrl: Option<string>, now: string, encode: string -> string, epoch: string -> int)
    ensures Feed(db, siteUrl, now, encode, epoch).ServerError? <==> !db.posts.up
    ensures Feed(db, siteUrl, now, encode, epoch).FeedDocument? ==>
      var items := Feed(db, siteUrl, now, encode, epoch).items;
      var rows := FeedRows(db.posts, epoch).rows;
      var base := FeedBase(siteUrl);
      |items| == |rows| <= FeedLimit &&
      forall i :: 0 <= i < |rows| ==>
        rows[i] in db.posts.rows && Sitemap.Slugged(rows[i]) &&
        items[i].url == Sitemap.PostUrl(base, rows[i].slug.value, encode) &&
        items[i].guid == GuidPrefix + IntToString(rows[i].id) &&
        |items[i].categories| == 1 &&
        items[i].author == OrElse(rows[i].author, DefaultAuthor)
  {
    FeedRowsSound(db.posts, epoch);
    if db.posts.up {
      var rows := FeedRows(db.posts, epoch).rows;
      forall i | 0 <= i < |rows| ensures rows[i] in db.posts.rows && Sitemap.Slugged(rows[i]) {
        assert rows[i] in rows;
      }
    }
  }

  /** Posts with different ids get different guids. */
  lemma GuidsDistinct(base: string, now: string, a: PostRow, b: PostRow, encode: string -> string)
    requires Truthy(a.slug) && Truthy(b.slug) && a.id != b.id
    ensures Item(base, now, a, encode).guid != Item(base, now, b, encode).guid
  {
    var ga := Item(base, now, a, encode).guid;
    var gb := Item(base, now, b, encode).guid;
    if ga == gb {
      assert ga[|GuidPrefix|..] == IntToString(a.id);
      assert gb[|GuidPrefix|..] == IntToString(b.id);
      IntToStringInjective(a.id, b.id);
    }
  }

  /**
   * A post with an image gets an enclosure, and the description opens with
   * an image tag showing the same URL; a post without one gets neither.
   */
  lemma ImageShownOnce(base: string, now: string, row: PostRow, encode: string -> string)
    requires Truthy(row.slug)
    ensures var item := Item(base, now, row, encode);
      (item.enclosure.Some? <==> Truthy(row.image)) &&
      (Truthy(row.image) ==>
        var url := item.enclosure.value.url;
        url == ImageUrl(base, row.image.value) &&
        StartsWith(item.description, ImgOpen + (Quote + (url + Quote)))) &&
      (!Truthy(row.image) ==> item.description == BaseDescription(row))
  {
    if Truthy(row.image) {
      var url := ImageUrl(base, row.image.value);
      var tag := ImageTag(url, row.title);
      var rest := AltOpen + (row.title + ImgClose);
      assert tag == (ImgOpen + (Quote + (url + Quote))) + rest by {
        assert Quote + (url + (Quote + rest)) == (Quote + (url + Quote)) + rest;
      }
      StartsWithAppend(ImgOpen + (Quote + (url + Quote)), rest);
      StartsWithAppend(tag, BaseDescription(row));
      StartsWithTrans(tag + BaseDescription(row), tag, ImgOpen + (Quote + (url + Quote)));
    }
  }

  /**
   * A post with neither description nor image but with content is described
   * by its excerpt: at most 203 characters, ending in `...`, free of Markdown
   * marks before that.
   */
  lemma ExcerptDescription(base: string, now: string, row: PostRow, encode: string -> string)
    requires Truthy(row.slug) && !Truthy(row.description) && !Truthy(row.image) && Truthy(row.content)
    ensures var d := Item(base, now, row, encode).description;
      d == Excerpt(row.content.value) && |d| <= ExcerptLength + 3 && d[|d| - 3..] == "..." &&
      forall i :: 0 <= i < |d| - 3 ==> !MarkdownMark(d[i])
  {
  }
}
