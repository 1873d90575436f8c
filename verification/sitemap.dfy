/**
 * `app/sitemap.ts`: the site map Next.js serves, made of seven fixed entries
 * followed by one entry per live post that has a slug, newest first. Any
 * failure, including a publication date that does not parse, leaves only
 * the fixed entries.
 */
module Sitemap {
  import opened Wrappers
  import opened Text
  import opened Seqs
  import opened Store

  /** One site-map entry; the priority is kept in tenths (`0.7` is 7). */
  datatype Entry = Entry(url: string, lastModified: string, changeFrequency: string, priorityTenths: nat)

  const DefaultBase: string := "https://stox.bg"

  /** `https://` and `VERCEL_URL` when that is set, else the site's own address. */
  function SiteBase(vercelUrl: Option<string>): (r: string)
    ensures Truthy(vercelUrl) ==> r == "https://" + vercelUrl.value
    ensures !Truthy(vercelUrl) ==> r == DefaultBase
    ensures StartsWith(r, "https://")
  {
    if Truthy(vercelUrl) then "https://" + vercelUrl.value else DefaultBase
  }

  datatype StaticPage = StaticPage(path: string, changeFrequency: string, priorityTenths: nat)

  /** The fixed pages, in their order. */
  const StaticPages: seq<StaticPage> := [
    StaticPage("", "daily", 10),
    StaticPage("/about", "monthly", 8),
    StaticPage("/business", "weekly", 8),
    StaticPage("/technology", "weekly", 8),
    StaticPage("/contact", "monthly", 7),
    StaticPage("/legal", "yearly", 5),
    StaticPage("/terms", "yearly", 5)
  ]

  /** The fixed entries, all stamped with the time of the request. */
  function StaticEntries(base: string, now: string): (r: seq<Entry>)
    ensures |r| == |StaticPages|
    ensures forall i :: 0 <= i < |r| ==>
      r[i] == Entry(base + StaticPages[i].path, now, StaticPages[i].changeFrequency, StaticPages[i].priorityTenths)
  {
    seq(|StaticPages|, i requires 0 <= i < |StaticPages| =>
      Entry(base + StaticPages[i].path, now, StaticPages[i].changeFrequency, StaticPages[i].priorityTenths))
  }

  /** `eq('isdeleted', false).not('slug', 'is', null).neq('slug', '')`. */
  predicate Slugged(p: PostRow) {
    !p.isDeleted && Truthy(p.slug)
  }

  /** The public address of a post: `/c/` and its encoded slug. */
  function PostUrl(base: string, slug: string, encode: string -> string): (r: string)
    ensures StartsWith(r, base + "/c/")
    ensures r[|base + "/c/"|..] == encode(slug)
  {
    base + "/c/" + encode(slug)
  }

  /**
   * Whether every non-empty publication date parses; `iso` renders a date
   * text as ISO 8601 and answers `None` where `toISOString` would throw.
   */
  predicate DatesParse(rows: seq<PostRow>, iso: string -> Option<string>) {
    forall r :: r in rows && Truthy(r.publishedAt) ==> iso(r.publishedAt.value).Some?
  }

  /** The entry of one post: weekly, priority 0.7, dated by its publication or else by `now`. */
  function PostEntry(base: string, now: string, row: PostRow, encode: string -> string, iso: string -> Option<string>): Entry
    requires Truthy(row.slug)
    requires Truthy(row.publishedAt) ==> iso(row.publishedAt.value).Some?
  {
    Entry(
      PostUrl(base, row.slug.value, encode),
      if Truthy(row.publishedAt) then iso(row.publishedAt.value).value else now,
      "weekly", 7)
  }

  function PostEntries(base: string, now: string, rows: seq<PostRow>, encode: string -> string, iso: string -> Option<string>): (r: seq<Entry>)
    requires forall x :: x in rows ==> Truthy(x.slug)
    requires DatesParse(rows, iso)
    ensures |r| == |rows|
    ensures forall i :: 0 <= i < |rows| ==> r[i] == PostEntry(base, now, rows[i], encode, iso)
  {
    seq(|rows|, i requires 0 <= i < |rows| => PostEntry(base, now, rows[i], encode, iso))
  }

  /** The site map: the fixed entries, then the posts' entries unless the query fails or a date does not parse. */
  function SiteMap(db: Db, vercelUrl: Option<string>, now: string, encode: string -> string, iso: string -> Option<string>): (r: seq<Entry>)
    ensures |r| >= |StaticPages| && r[..|StaticPages|] == StaticEntries(SiteBase(vercelUrl), now)
    ensures !db.posts.up ==> r == StaticEntries(SiteBase(vercelUrl), now)
  {
    var base := SiteBase(vercelUrl);
    var response := SelectPosts(db.posts, Slugged, None);
    if response.Failed? || !DatesParse(response.rows, iso) then StaticEntries(base, now)
    else
      SelectPostsSound(db.posts, Slugged, None);
      StaticEntries(base, now) + PostEntries(base, now, response.rows, encode, iso)
  }

  /**
   * The site map always begins with the fixed entries; it is exactly those
   * when the query fails or some date does not parse, and otherwise holds
   * one more entry per live slugged post, in the query's order, each at
   * `/c/{slug}`, weekly, at priority 0.7, dated by its publication when it
   * has one.
   */
  lemma SiteMapShape(db: Db, vercelUrl: Option<string>, now: string, encode: string -> string, iso: string -> Option<string>)
    ensures var r := SiteMap(db, vercelUrl, now, encode, iso);
      |r| >= |StaticPages| && r[..|StaticPages|] == StaticEntries(SiteBase(vercelUrl), now)
    ensures var response := SelectPosts(db.posts, Slugged, None);
      response.Failed? || !DatesParse(response.rows, iso) ==>
        SiteMap(db, vercelUrl, now, encode, iso) == StaticEntries(SiteBase(vercelUrl), now)
    ensures var response := SelectPosts(db.posts, Slugged, None);
      var r := SiteMap(db, vercelUrl, now, encode, iso);
      response.Rows? && DatesParse(response.rows, iso) ==>
        |r| == |StaticPages| + |response.rows| &&
        forall i :: 0 <= i < |response.rows| ==>
          var row := response.rows[i];
          var e := r[|StaticPages| + i];
          row in db.posts.rows && Slugged(row) &&
          e.url == PostUrl(SiteBase(vercelUrl), row.slug.value, encode) &&
          e.changeFrequency == "weekly" && e.priorityTenths == 7 &&
          e.lastModified == (if Truthy(row.publishedAt) then iso(row.publishedAt.value).value else now)
  {
    SelectPostsSound(db.posts, Slugged, None);
    var base := SiteBase(vercelUrl);
    var response := SelectPosts(db.posts, Slugged, None);
    var r := SiteMap(db, vercelUrl, now, encode, iso);
    if response.Rows? && DatesParse(response.rows, iso) {
      var rows := response.rows;
      var posts := PostEntries(base, now, rows, encode, iso);
      assert r == StaticEntries(base, now) + posts;
      forall i | 0 <= i < |rows|
        ensures rows[i] in db.posts.rows && Slugged(rows[i]) && r[|StaticPages| + i] == PostEntry(base, now, rows[i], encode, iso)
      {
        assert rows[i] in rows;
      }
    }
  }

  /**
   * When the store answers and every date parses, no live slugged post is
   * missing: each has an entry at its own address.
   */
  lemma SiteMapComplete(db: Db, vercelUrl: Option<string>, now: string, encode: string -> string, iso: string -> Option<string>, row: PostRow)
    requires db.posts.up && row in db.posts.rows && Slugged(row)
    requires DatesParse(SelectPosts(db.posts, Slugged, None).rows, iso)
    ensures exists e :: e in SiteMap(db, vercelUrl, now, encode, iso) && e.url == PostUrl(SiteBase(vercelUrl), row.slug.value, encode)
  {
    SelectPostsComplete(db.posts, Slugged);
    SelectPostsSound(db.posts, Slugged, None);
    var base := SiteBase(vercelUrl);
    var rows := SelectPosts(db.posts, Slugged, None).rows;
    var i :| 0 <= i < |rows| && rows[i] == row;
    var posts := PostEntries(base, now, rows, encode, iso);
    assert SiteMap(db, vercelUrl, now, encode, iso) == StaticEntries(base, now) + posts;
    assert posts[i] in posts;
  }

  /** One date that does not parse drops every post entry, not just its own. */
  lemma BadDateDropsAllPosts(db: Db, vercelUrl: Option<string>, now: string, encode: string -> string, iso: string -> Option<string>, row: PostRow)
    requires db.posts.up && row in db.posts.rows && Slugged(row)
    requires Truthy(row.publishedAt) && iso(row.publishedAt.value).None?
    ensures SiteMap(db, vercelUrl, now, encode, iso) == StaticEntries(SiteBase(vercelUrl), now)
  {
    SelectPostsComplete(db.posts, Slugged);
  }
}
