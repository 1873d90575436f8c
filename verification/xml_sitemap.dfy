/**
 * `app/api/sitemap/route.ts`: a hand-written XML site map in the
 * sitemaps.org 0.9 `urlset` format. The page list is six fixed pages, then
 * one page per stock, then one per category; each page becomes a `<url>`
 * block with its address, date, change frequency, priority and three
 * language alternates pointing back at the same address.
 */
module XmlSitemap {
  import opened Wrappers
  import opened Text
  import opened Seqs
  import Sitemap

  /** One page of the list; the priority is kept in tenths (`0.8` is 8). */
  datatype Page = Page(url: string, lastModified: string, changeFrequency: string, priorityTenths: nat)

  datatype Stock = Stock(ticker: string, lastModified: string)
  datatype Category = Category(id: string, lastModified: string)

  /** The stock list the route reads. */
  const Stocks: seq<Stock> := [
    Stock("nvda", "2024-01-15T15:30:00Z"),
    Stock("aapl", "2024-01-14T10:00:00Z"),
    Stock("tsla", "2024-01-13T14:20:00Z"),
    Stock("googl", "2024-01-12T11:15:00Z"),
    Stock("msft", "2024-01-11T16:45:00Z")
  ]

  /** The category list the route reads. */
  const Categories: seq<Category> := [
    Category("technology", "2024-01-10T09:00:00Z"),
    Category("healthcare", "2024-01-09T12:30:00Z"),
    Category("finance", "2024-01-08T15:20:00Z")
  ]

  /** The fixed pages under `base`, in their order. */
  function StaticPages(base: string): (r: seq<Page>)
    ensures |r| == 6
    ensures r[0].url == base + "/" && r[0].priorityTenths == 10
  {
    [
      Page(base + "/", "2024-01-15T00:00:00Z", "daily", 10),
      Page(base + "/about", "2024-01-01T00:00:00Z", "monthly", 8),
      Page(base + "/contact", "2024-01-01T00:00:00Z", "monthly", 7),
      Page(base + "/features", "2024-01-01T00:00:00Z", "monthly", 7),
      Page(base + "/stocks", "2024-01-15T00:00:00Z", "daily", 9),
      Page(base + "/categories", "2024-01-15T00:00:00Z", "weekly", 8)
    ]
  }

  /** A stock's page, at its lower-cased ticker. */
  function StockPage(base: string, s: Stock): Page {
    Page(base + "/stocks/" + Lower(s.ticker), s.lastModified, "daily", 8)
  }

  function CategoryPage(base: string, c: Category): Page {
    Page(base + "/categories/" + c.id, c.lastModified, "weekly", 7)
  }

  /** `[...staticPages, ...stockPages, ...categoryPages]`. */
  function AllPages(base: string, stocks: seq<Stock>, categories: seq<Category>): seq<Page> {
    StaticPages(base)
      + seq(|stocks|, i requires 0 <= i < |stocks| => StockPage(base, stocks[i]))
      + seq(|categories|, i requires 0 <= i < |categories| => CategoryPage(base, categories[i]))
  }

  /**
   * The page list holds the six fixed pages, then one page per stock at its
   * lower-cased ticker, then one per category at its id, in the order given.
   */
  lemma AllPagesShape(base: string, stocks: seq<Stock>, categories: seq<Category>)
    ensures var pages := AllPages(base, stocks, categories);
      |pages| == 6 + |stocks| + |categories| &&
      pages[..6] == StaticPages(base) &&
      (forall i :: 0 <= i < |stocks| ==>
        pages[6 + i].url == base + "/stocks/" + Lower(stocks[i].ticker) && pages[6 + i].priorityTenths == 8) &&
      (forall i :: 0 <= i < |categories| ==>
        pages[6 + |stocks| + i].url == base + "/categories/" + categories[i].id &&
        pages[6 + |stocks| + i].priorityTenths == 7)
  {
  }

  /** How a priority prints: `1` for 1.0, `0.N` for N tenths below one. */
  function PriorityText(tenths: nat): (r: string)
    ensures tenths == 10 ==> r == "1"
    ensures 0 < tenths < 10 ==> r == "0." + [('0' as int + tenths) as char]
  {
    if tenths == 0 then "0"
    else if tenths < 10 then "0." + [('0' as int + tenths) as char]
    else NatToString(tenths / 10) + (if tenths % 10 == 0 then "" else "." + [('0' as int + tenths % 10) as char])
  }

  const LocOpen: string := "  <url>\n    <loc>"
  const LocClose: string := "</loc>\n"
  const UrlClose: string := "  </url>"
  const LinkOpen: string := "    <xhtml:link rel=\"alternate\" hreflang=\""
  const HrefOpen: string := "\" href=\""
  const LinkClose: string := "\" />\n"

  /** One `xhtml:link` alternate line. */
  function Alternate(hreflang: string, url: string): string {
    LinkOpen + hreflang + HrefOpen + url + LinkClose
  }

  /** The three alternates of an address: `bg`, `bg-BG` and `x-default`. */
  function Alternates(url: string): string {
    Alternate("bg", url) + (Alternate("bg-BG", url) + Alternate("x-default", url))
  }

  /** The date, change frequency and priority lines of a block. */
  function Details(p: Page): string {
    "    <lastmod>" + p.lastModified + "</lastmod>\n"
      + "    <changefreq>" + p.changeFrequency + "</changefreq>\n"
      + "    <priority>" + PriorityText(p.priorityTenths) + "</priority>\n"
  }

  /** The `<url>` block of one page (grouped from the right, which reads back more easily). */
  function UrlBlock(p: Page): (r: string)
    ensures StartsWith(r, LocOpen + p.url + LocClose)
    ensures EndsWith(r, Alternates(p.url) + UrlClose)
  {
    var rest := Details(p) + (Alternates(p.url) + UrlClose);
    NestedPrefix(LocOpen, p.url, LocClose, rest);
    NestedSuffix(LocOpen, p.url, LocClose, Details(p), Alternates(p.url) + UrlClose);
    LocOpen + (p.url + (LocClose + rest))
  }

  lemma NestedPrefix(a: string, b: string, c: string, rest: string)
    ensures StartsWith(a + (b + (c + rest)), a + b + c)
  {
    assert a + (b + (c + rest)) == (a + b + c) + rest;
    StartsWithAppend(a + b + c, rest);
  }

  lemma NestedSuffix(a: string, b: string, c: string, d: string, e: string)
    ensures EndsWith(a + (b + (c + (d + e))), e)
  {
    var s := a + (b + (c + (d + e)));
    assert s == (a + b + c + d) + e;
    assert s[|s| - |e|..] == e;
  }

  const Header: string :=
    "<?xml version=\"1.0\" encoding=\"UTF-8\"?>\n<urlset xmlns=\"http://www.sitemaps.org/schemas/sitemap/0.9\" \n        xmlns:xhtml=\"http://www.w3.org/1999/xhtml\">\n"
  const Footer: string := "\n</urlset>"

  function Blocks(pages: seq<Page>): (r: seq<string>)
    ensures |r| == |pages|
    ensures forall i :: 0 <= i < |pages| ==> r[i] == UrlBlock(pages[i])
  {
    seq(|pages|, i requires 0 <= i < |pages| => UrlBlock(pages[i]))
  }

  /** The document: the header, the blocks one per line, and the closing tag. */
  function Document(pages: seq<Page>): (r: string)
    ensures StartsWith(r, Header) && EndsWith(r, Footer)
    ensures pages == [] ==> r == Header + Footer
  {
    StartsWithAppend(Header, Join(Blocks(pages), "\n") + Footer);
    EndsWithAppend(Header, Join(Blocks(pages), "\n"), Footer);
    Header + (Join(Blocks(pages), "\n") + Footer)
  }

  /** A one-page document is the header, the page's block and the closing tag. */
  lemma DocumentOne(p: Page)
    ensures Document([p]) == Header + UrlBlock(p) + Footer
  {
    assert Blocks([p]) == [UrlBlock(p)];
    AppendAssoc(Header, UrlBlock(p), Footer);
  }

  /**
   * One more page adds its block on a line of its own just before the
   * closing tag, after all the blocks already there.
   */
  lemma DocumentSnoc(pages: seq<Page>, p: Page)
    requires pages != []
    ensures |Document(pages)| >= |Footer|
    ensures Document(pages + [p]) == Document(pages)[..|Document(pages)| - |Footer|] + "\n" + UrlBlock(p) + Footer
  {
    var body := Join(Blocks(pages), "\n");
    var u := UrlBlock(p);
    JoinBlocksSnoc(pages, p);
    DocumentIs(pages);
    DocumentIs(pages + [p]);
    ReplaceLast(Document(pages), Document(pages + [p]), Header, body, "\n", u, Footer);
  }

  lemma DocumentIs(pages: seq<Page>)
    ensures Document(pages) == Header + (Join(Blocks(pages), "\n") + Footer)
  {
  }

  /** The blocks of one more page join as before, then a line break and the new block. */
  lemma JoinBlocksSnoc(pages: seq<Page>, p: Page)
    requires pages != []
    ensures Join(Blocks(pages + [p]), "\n") == Join(Blocks(pages), "\n") + "\n" + UrlBlock(p)
  {
    assert Blocks(pages + [p]) == Blocks(pages) + [UrlBlock(p)];
    JoinAppend(Blocks(pages), [UrlBlock(p)], "\n");
  }

  /** Text inserted before a closing part: the text without the closing part, the insertion, the closing part. */
  lemma ReplaceLast(whole: string, longer: string, head: string, body: string, sep: string, more: string, tail: string)
    requires whole == head + (body + tail)
    requires longer == head + (body + sep + more + tail)
    ensures |whole| >= |tail| && longer == whole[..|whole| - |tail|] + sep + more + tail
  {
    assert whole[..|whole| - |tail|] == head + body;
  }

  /** The route: the document for the page list under the deployment's base address. */
  function Get(vercelUrl: Option<string>): (r: string)
    ensures StartsWith(r, Header) && EndsWith(r, Footer)
    ensures Contains(r, UrlBlock(Page(Sitemap.SiteBase(vercelUrl) + "/", "2024-01-15T00:00:00Z", "daily", 10)))
  {
    DocumentHoldsEveryPage(AllPages(Sitemap.SiteBase(vercelUrl), Stocks, Categories), 0);
    Document(AllPages(Sitemap.SiteBase(vercelUrl), Stocks, Categories))
  }

  /**
   * The route's document is built from the fourteen pages of the list, in
   * the list's order, and holds the block of each of them.
   */
  lemma GetEveryPage(vercelUrl: Option<string>)
    ensures var pages := AllPages(Sitemap.SiteBase(vercelUrl), Stocks, Categories);
      |pages| == 14 && Get(vercelUrl) == Document(pages) &&
      forall i :: 0 <= i < |pages| ==> Contains(Get(vercelUrl), UrlBlock(pages[i]))
  {
    var pages := AllPages(Sitemap.SiteBase(vercelUrl), Stocks, Categories);
    forall i | 0 <= i < |pages| ensures Contains(Get(vercelUrl), UrlBlock(pages[i])) {
      DocumentHoldsEveryPage(pages, i);
    }
  }

  // ---------------------------------------------------------------------
  // Reading the document back

  /** The text up to the first `c`. */
  function TakeUntil(s: string, c: char): (r: string)
    ensures |r| <= |s| && r == s[..|r|]
    ensures forall i :: 0 <= i < |r| ==> r[i] != c
  {
    if s == [] || s[0] == c then [] else [s[0]] + TakeUntil(s[1..], c)
  }

  lemma {:induction false} TakeUntilAppend(a: string, b: string, c: char)
    requires forall i :: 0 <= i < |a| ==> a[i] != c
    requires b != [] && b[0] == c
    ensures TakeUntil(a + b, c) == a
  {
    if a != [] {
      assert (a + b)[1..] == a[1..] + b;
      TakeUntilAppend(a[1..], b, c);
    }
  }

  /** The address a `<url>` block gives in its `<loc>` element. */
  function LocOf(block: string): string {
    if |block| < |LocOpen| then "" else TakeUntil(block[|LocOpen|..], '<')
  }

  predicate NoTag(s: string) {
    forall i :: 0 <= i < |s| ==> s[i] != '<'
  }

  /** An address without `<` reads back from its block unchanged. */
  lemma LocRoundTrip(p: Page)
    requires NoTag(p.url)
    ensures LocOf(UrlBlock(p)) == p.url
  {
    var rest := LocClose + (Details(p) + (Alternates(p.url) + UrlClose));
    assert (LocOpen + (p.url + rest))[|LocOpen|..] == p.url + rest;
    assert rest[0] == LocClose[0] == '<';
    TakeUntilAppend(p.url, rest, '<');
  }

  /** Each block names its address in each of the three language alternates. */
  lemma BlockAlternates(p: Page)
    ensures Contains(UrlBlock(p), Alternate("bg", p.url))
    ensures Contains(UrlBlock(p), Alternate("bg-BG", p.url))
    ensures Contains(UrlBlock(p), Alternate("x-default", p.url))
  {
    var a1, a2, a3 := Alternate("bg", p.url), Alternate("bg-BG", p.url), Alternate("x-default", p.url);
    ContainsPrefix(a1, a2 + a3);
    ContainsPrefix(a2, a3);
    ContainsPrepend(a1, a2 + a3, a2);
    ContainsSuffix(a2, a3);
    ContainsPrepend(a1, a2 + a3, a3);
    forall x | x in {a1, a2, a3} ensures Contains(UrlBlock(p), x) {
      BlockHoldsAlternate(p, x);
    }
  }

  /** What the alternates contain, the block contains. */
  lemma BlockHoldsAlternate(p: Page, x: string)
    requires Contains(Alternates(p.url), x)
    ensures Contains(UrlBlock(p), x)
  {
    ContainsExtend(Alternates(p.url), UrlClose, x);
    ContainsPrepend(Details(p), Alternates(p.url) + UrlClose, x);
    ContainsPrepend(LocClose, Details(p) + (Alternates(p.url) + UrlClose), x);
    ContainsPrepend(p.url, LocClose + (Details(p) + (Alternates(p.url) + UrlClose)), x);
    ContainsPrepend(LocOpen, p.url + (LocClose + (Details(p) + (Alternates(p.url) + UrlClose))), x);
  }

  /**
   * The document opens with the XML header and `urlset`, closes it, and
   * holds every page's block, whose `<loc>` reads back as the page's address.
   */
  lemma DocumentHoldsEveryPage(pages: seq<Page>, i: nat)
    requires i < |pages|
    ensures StartsWith(Document(pages), Header)
    ensures EndsWith(Document(pages), Footer)
    ensures Contains(Document(pages), UrlBlock(pages[i]))
    ensures NoTag(pages[i].url) ==> LocOf(UrlBlock(pages[i])) == pages[i].url
  {
    var body := Join(Blocks(pages), "\n");
    assert Contains(Document(pages), UrlBlock(pages[i])) by {
      JoinContains(Blocks(pages), "\n", i);
      ContainsExtend(body, Footer, UrlBlock(pages[i]));
      ContainsPrepend(Header, body + Footer, UrlBlock(pages[i]));
    }
    if NoTag(pages[i].url) {
      LocRoundTrip(pages[i]);
    }
  }

}
