/**
 * `lib/indexing.ts`: the list of every public URL of the site (the same
 * fixed pages as the site map, then each live slugged post) and the batch
 * submission of URLs to the indexing endpoint, one request after another.
 */
module Indexing {
  import opened Wrappers
  import opened Text
  import opened Seqs
  import opened Store
  import Sitemap

  /** `NEXT_PUBLIC_SITE_URL`, else the site's own address. */
  function IndexBase(siteUrl: Option<string>): (r: string)
    ensures Truthy(siteUrl) ==> r == siteUrl.value
    ensures !Truthy(siteUrl) ==> r == Sitemap.DefaultBase
  {
    OrElse(siteUrl, Sitemap.DefaultBase)
  }

  /** The fixed URLs: the site map's fixed pages under `base`. */
  function StaticUrls(base: string): (r: seq<string>)
    ensures |r| == |Sitemap.StaticPages|
    ensures forall i :: 0 <= i < |r| ==> r[i] == base + Sitemap.StaticPages[i].path
  {
    seq(|Sitemap.StaticPages|, i requires 0 <= i < |Sitemap.StaticPages| => base + Sitemap.StaticPages[i].path)
  }

  function Urls(entries: seq<Sitemap.Entry>): (r: seq<string>)
    ensures |r| == |entries|
    ensures forall i :: 0 <= i < |r| ==> r[i] == entries[i].url
  {
    seq(|entries|, i requires 0 <= i < |entries| => entries[i].url)
  }

  function ArticleUrl(base: string, row: PostRow, encode: string -> string): string
    requires Truthy(row.slug)
  {
    Sitemap.PostUrl(base, row.slug.value, encode)
  }

  function ArticleUrls(base: string, rows: seq<PostRow>, encode: string -> string): (r: seq<string>)
    requires forall x :: x in rows ==> Truthy(x.slug)
    ensures |r| == |rows|
    ensures forall i :: 0 <= i < |rows| ==> r[i] == ArticleUrl(base, rows[i], encode)
  {
    seq(|rows|, i requires 0 <= i < |rows| => ArticleUrl(base, rows[i], encode))
  }

  /** The posts' addresses, or none when the query fails. */
  function PostUrls(db: Db, base: string, encode: string -> string): seq<string> {
    var response := SelectPosts(db.posts, Sitemap.Slugged, None);
    if response.Failed? then []
    else
      SelectPostsSound(db.posts, Sitemap.Slugged, None);
      ArticleUrls(base, response.rows, encode)
  }

  /** `getAllSiteUrls`: the fixed URLs, then the posts' addresses unless the query fails. */
  function AllSiteUrls(db: Db, siteUrl: Option<string>, encode: string -> string): (r: seq<string>)
    ensures |r| >= |Sitemap.StaticPages| && r[..|Sitemap.StaticPages|] == StaticUrls(IndexBase(siteUrl))
    ensures !db.posts.up ==> r == StaticUrls(IndexBase(siteUrl))
  {
    var base := IndexBase(siteUrl);
    StaticUrls(base) + PostUrls(db, base, encode)
  }

  /**
   * The URL list starts with the seven fixed URLs, is exactly those on a
   * query error, and otherwise adds one `/c/{slug}` address per live slugged
   * post, in the query's order.
   */
  lemma AllSiteUrlsShape(db: Db, siteUrl: Option<string>, encode: string -> string)
    ensures var r := AllSiteUrls(db, siteUrl, encode);
      |r| >= |Sitemap.StaticPages| && r[..|Sitemap.StaticPages|] == StaticUrls(IndexBase(siteUrl))
    ensures !db.posts.up ==> AllSiteUrls(db, siteUrl, encode) == StaticUrls(IndexBase(siteUrl))
    ensures db.posts.up ==>
      var rows := SelectPosts(db.posts, Sitemap.Slugged, None).rows;
      var r := AllSiteUrls(db, siteUrl, encode);
      |r| == |Sitemap.StaticPages| + |rows| &&
      forall i :: 0 <= i < |rows| ==>
        rows[i] in db.posts.rows && Sitemap.Slugged(rows[i]) &&
        r[|Sitemap.StaticPages| + i] == Sitemap.PostUrl(IndexBase(siteUrl), rows[i].slug.value, encode)
  {
    var base := IndexBase(siteUrl);
    var fixed, posts := StaticUrls(base), PostUrls(db, base, encode);
    AppendParts(fixed, posts);
    if !db.posts.up {
      assert fixed + posts == fixed;
    } else {
      SelectPostsSound(db.posts, Sitemap.Slugged, None);
      var rows := SelectPosts(db.posts, Sitemap.Slugged, None).rows;
      forall i | 0 <= i < |rows| ensures rows[i] in db.posts.rows && Sitemap.Slugged(rows[i]) {
        assert rows[i] in rows;
      }
    }
  }

  /**
   * Under the same base address, the URL list is exactly the list of the
   * site map's addresses, unless a publication date breaks the site map.
   */
  lemma AllSiteUrlsMatchSiteMap(db: Db, vercelUrl: Option<string>, siteUrl: Option<string>, now: string,
                                encode: string -> string, iso: string -> Option<string>)
    requires IndexBase(siteUrl) == Sitemap.SiteBase(vercelUrl)
    requires !db.posts.up || Sitemap.DatesParse(SelectPosts(db.posts, Sitemap.Slugged, None).rows, iso)
    ensures AllSiteUrls(db, siteUrl, encode) == Urls(Sitemap.SiteMap(db, vercelUrl, now, encode, iso))
  {
    var base := IndexBase(siteUrl);
    var n := |Sitemap.StaticPages|;
    var a := AllSiteUrls(db, siteUrl, encode);
    var entries := Sitemap.SiteMap(db, vercelUrl, now, encode, iso);
    var b := Urls(entries);
    assert |a| == |b| && n <= |a| && a[..n] == b[..n] by {
      Sitemap.SiteMapShape(db, vercelUrl, now, encode, iso);
      AllSiteUrlsShape(db, siteUrl, encode);
      StaticEntryUrls(entries, base, now);
    }
    assert forall i :: n <= i < |a| ==> a[i] == b[i] by {
      Sitemap.SiteMapShape(db, vercelUrl, now, encode, iso);
      AllSiteUrlsShape(db, siteUrl, encode);
    }
    PrefixAndTail(a, b, n);
  }

  /** Entries that open with the fixed entries have the fixed URLs as their first addresses. */
  lemma StaticEntryUrls(entries: seq<Sitemap.Entry>, base: string, now: string)
    requires |entries| >= |Sitemap.StaticPages| && entries[..|Sitemap.StaticPages|] == Sitemap.StaticEntries(base, now)
    ensures Urls(entries)[..|Sitemap.StaticPages|] == StaticUrls(base)
  {
    var n := |Sitemap.StaticPages|;
    forall i | 0 <= i < n ensures Urls(entries)[i] == StaticUrls(base)[i] {
      assert entries[i] == entries[..n][i];
    }
  }

  /** Two sequences of one length that agree on a prefix and on every later position are equal. */
  lemma PrefixAndTail<T>(a: seq<T>, b: seq<T>, n: nat)
    requires |a| == |b| && n <= |a| && a[..n] == b[..n]
    requires forall i :: n <= i < |a| ==> a[i] == b[i]
    ensures a == b
  {
    forall i | 0 <= i < n ensures a[i] == b[i] {
      assert a[i] == a[..n][i] && b[i] == b[..n][i];
    }
  }

  // ---------------------------------------------------------------------
  // Submission

  datatype IndexingResult = IndexingResult(success: bool, error: Option<string>)

  datatype IndexingResponse = IndexingResponse(
    success: bool, message: string, url: string,
    google: Option<IndexingResult>, bing: Option<IndexingResult>)

  /** What one request to the indexing endpoint came to. */
  datatype Reply = Answered(data: IndexingResponse) | HttpStatus(status: int) | Unreachable(reason: string)

  datatype Result<T> = Success(value: T) | Failure(message: string)

  const FailurePrefix: string := "Failed to submit URL for indexing: "
  const StatusPrefix: string := "HTTP error! status: "

  /**
   * `submitUrlForIndexing`: the endpoint's answer when the status is OK;
   * otherwise an error whose message starts with the common prefix (a bad
   * status is reported as `HTTP error! status: N`).
   */
  function SubmitUrl(reply: Reply): (r: Result<IndexingResponse>)
    ensures reply.Answered? <==> r.Success?
    ensures r.Success? ==> r.value == reply.data
    ensures r.Failure? ==> StartsWith(r.message, FailurePrefix)
    ensures reply.HttpStatus? ==> r == Failure(FailurePrefix + StatusPrefix + IntToString(reply.status))
    ensures reply.Unreachable? ==> r == Failure(FailurePrefix + reply.reason)
  {
    match reply
    case Answered(data) => Success(data)
    case HttpStatus(status) => Failure(FailurePrefix + StatusPrefix + IntToString(status))
    case Unreachable(reason) => Failure(FailurePrefix + reason)
  }

  /** The record of one URL: the endpoint's answer, or a failure record naming the URL. */
  function Recorded(url: string, reply: Reply): (r: IndexingResponse)
    ensures reply.Answered? ==> r == reply.data
    ensures !reply.Answered? ==>
      !r.success && r.url == url && r.google.None? && r.bing.None? && StartsWith(r.message, FailurePrefix)
  {
    var outcome := SubmitUrl(reply);
    if outcome.Success? then outcome.value else IndexingResponse(false, outcome.message, url, None, None)
  }

  /** `urls.indexOf(url)`: the first position of `url`, or -1. */
  function IndexOf(urls: seq<string>, url: string): (r: int)
    ensures -1 <= r < |urls|
    ensures r == -1 <==> url !in urls
    ensures r >= 0 ==> urls[r] == url
  {
    if urls == [] then -1
    else if urls[0] == url then 0
    else
      var k := IndexOf(urls[1..], url);
      if k == -1 then -1 else k + 1
  }

  /** `indexOf` finds the first occurrence: never a position after one where the URL occurs. */
  lemma {:induction false} IndexOfFirst(urls: seq<string>, url: string, j: nat)
    requires j < |urls| && urls[j] == url
    ensures 0 <= IndexOf(urls, url) <= j
  {
    if urls[0] != url {
      IndexOfFirst(urls[1..], url, j - 1);
    }
  }

  /** Whether the loop waits after the URL at `i`: only after a success, and judged by the URL's first position. */
  predicate WaitsAfter(urls: seq<string>, i: nat, delayMs: int, reply: Reply)
    requires i < |urls|
  {
    reply.Answered? && delayMs > 0 && IndexOf(urls, urls[i]) < |urls| - 1
  }

  /**
   * `submitMultipleUrls`: the requests run in order, the `i`-th getting
   * `replies[i]`; each URL yields one record, whether it succeeded or not,
   * and `waits` tells after which ones the loop paused.
   */
  method SubmitMultipleUrls(urls: seq<string>, delayMs: int, replies: seq<Reply>)
    returns (results: seq<IndexingResponse>, waits: seq<bool>)
    requires |replies| == |urls|
    ensures |results| == |urls| && |waits| == |urls|
    ensures forall i :: 0 <= i < |urls| ==> results[i] == Recorded(urls[i], replies[i])
    ensures forall i :: 0 <= i < |urls| ==> waits[i] == WaitsAfter(urls, i, delayMs, replies[i])
  {
    results := [];
    waits := [];
    for i := 0 to |urls|
      invariant results == MapPairs(urls, replies, Recorded, i)
      invariant waits == WaitsUpTo(urls, delayMs, replies, i)
    {
      var record, wait := SubmitOne(urls, i, delayMs, replies[i]);
      results := results + [record];
      waits := waits + [wait];
    }
    MapPairsAt(urls, replies, Recorded, |urls|);
    WaitsUpToAt(urls, delayMs, replies, |urls|);
  }

  /** Whether the loop pauses after each of the first `n` URLs, in order. */
  function WaitsUpTo(urls: seq<string>, delayMs: int, replies: seq<Reply>, n: nat): seq<bool>
    requires n <= |urls| == |replies|
  {
    if n == 0 then [] else WaitsUpTo(urls, delayMs, replies, n - 1) + [WaitsAfter(urls, n - 1, delayMs, replies[n - 1])]
  }

  lemma {:induction false} WaitsUpToAt(urls: seq<string>, delayMs: int, replies: seq<Reply>, n: nat)
    requires n <= |urls| == |replies|
    ensures |WaitsUpTo(urls, delayMs, replies, n)| == n
    ensures forall k :: 0 <= k < n ==> WaitsUpTo(urls, delayMs, replies, n)[k] == WaitsAfter(urls, k, delayMs, replies[k])
  {
    if n > 0 {
      WaitsUpToAt(urls, delayMs, replies, n - 1);
    }
  }

  /** One turn of the loop: the record of the `i`-th URL and whether to pause after it. */
  method SubmitOne(urls: seq<string>, i: nat, delayMs: int, reply: Reply) returns (record: IndexingResponse, wait: bool)
    requires i < |urls|
    ensures record == Recorded(urls[i], reply)
    ensures wait == WaitsAfter(urls, i, delayMs, reply)
  {
    var outcome := SubmitUrl(reply);
    if outcome.Success? {
      record := outcome.value;
      wait := delayMs > 0 && IndexOf(urls, urls[i]) < |urls| - 1;
    } else {
      record := IndexingResponse(false, outcome.message, urls[i], None, None);
      wait := false;
    }
  }

  /** With distinct URLs, the loop pauses after every success except the last URL's. */
  lemma DistinctUrlsWait(urls: seq<string>, i: nat, delayMs: int, reply: Reply)
    requires NoDups(urls) && i < |urls|
    ensures WaitsAfter(urls, i, delayMs, reply) <==> reply.Answered? && delayMs > 0 && i < |urls| - 1
  {
    IndexOfFirst(urls, urls[i], i);
  }

  /**
   * A URL that repeats the first one at the end of the list still pauses:
   * the first position decides, so the loop waits after its final request.
   */
  lemma RepeatedLastUrlWaits(urls: seq<string>, delayMs: int, reply: Reply)
    requires |urls| >= 2 && urls[0] == urls[|urls| - 1]
    requires delayMs > 0 && reply.Answered?
    ensures WaitsAfter(urls, |urls| - 1, delayMs, reply)
  {
    assert IndexOf(urls, urls[|urls| - 1]) == 0;
  }
}
