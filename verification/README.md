# stox.bg — a Dafny model of the site's derivation logic

stox.bg is a Bulgarian investing site built with Next.js. Most of its own logic is small, deterministic derivation code. This project models that code and proves what it promises:

- **SEO helpers.** Bulgarian slugs, absolute URLs, keyword extraction, page metadata records, the schema.org JSON-LD builders, the summary sentence and the hreflang links.
- **Fast-lane feed.** Three server-rendered first pages (the fast lane, one category, "all posts"). They are followed by the client-side infinite-scroll loader, which pages below a cursor of post ids.
- **Post card.** The text snippet, the card's link and its category label.
- **Machine-readable URL lists.** The Next.js site map, the hand-written sitemaps.org 0.9 XML site map, the `next-sitemap` rule table, the indexing URL list and batch submission, and the RSS 2.0 feed.
- **Section pages.** `/business` and `/technology`, which pick their category by name prefix.

The hosted database is replaced by the `Store` module. A table is a sequence of rows plus a flag saying whether queries on it succeed. A query is a filter, `order by ... desc` and an optional `limit`, with an error outcome.

Modules follow the source files. Shared modules:

- `Wrappers` holds optional values and JavaScript truthiness.
- `Text` holds the JavaScript string operations used: `toLowerCase`, `startsWith`, `includes`, `join`, `split`, `replace`, `slice`, `trim` and `String(n)`.
- `Seqs` holds the array operations: `filter`, stable descending sort, `slice(0, n)`, `Array.from(new Set(...))` and `findIndex`.

Code that changes state step by step is imperative Dafny:

- the loader is the class `InfiniteScroll.Loader`;
- the `forEach`/`for` loops are methods with loop invariants, proved equal to the functions that specify them.

The site has two title rules. The rule of `lib/seo/utils.ts` adds ` | stox.bg` only when the title does not already name the site, so composing a composed title changes nothing (`SeoUtils.FullTitleIdempotent`). The rule of `lib/seo/metadata.ts` always appends ` | Stox.bg`, so feeding its result back in appends the suffix a second time (`SeoMetadata.CreateMetadataTitleNotIdempotent`).

## Model

| member | source | states |
|---|---|---|
| Wrappers.Or | lib/seo/utils.ts:142 | `a \|\| b` on optional strings: `a` when it is a non-empty string, else `b` |
| Wrappers.OrElse | lib/seo/metadata.ts:44 | `a \|\| fallback`: the value of `a` when non-empty, else the fallback |
| Text.Lower | lib/seo/utils.ts:15 | `toLowerCase` keeps the length and lower-cases each character |
| Text.LowerIdempotent | lib/seo/utils.ts:102 | lower-casing twice is lower-casing once |
| Text.LowerAppend | lib/seo/utils.ts:102 | lower-casing distributes over concatenation |
| Text.JoinAppend | lib/seo/utils.ts:101 | joining two non-empty lists puts the separator exactly once between their joins |
| Text.JoinSplit | components/ui/page-seo.tsx:25-27 | splitting on a non-empty separator and joining back with it gives the original string |
| Text.SplitJoin | lib/seo/utils.ts:338 | joining non-empty parts that lack the separator's first character and splitting on the separator gives the parts back |
| Text.JoinContains | app/api/sitemap/route.ts:90-102 | every part of a join occurs in the joined string |
| Text.ReplaceFirstAbsent | lib/seo/utils.ts:164 | `replace` leaves a string without the pattern unchanged |
| Text.SliceTo | lib/seo/utils.ts:48 | `slice(0, end)` returns a prefix; its length is `min(end, length)` for non-negative `end`, and `max(length + end, 0)` for negative `end` |
| Text.NatToString | components/fastlane/PostCard.tsx:50 | `String(n)` of a non-negative number is a non-empty run of digits |
| Text.ParseNatToString | components/fastlane/PostCard.tsx:50 | the decimal rendering of a number reads back as that number |
| Text.IntToStringSign | app/feed.xml/route.ts:104 | a rendering starts with `-` exactly for negative numbers |
| Text.IntToStringInjective | app/feed.xml/route.ts:104 | distinct integers render as distinct strings |
| Seqs.Filter | app/sitemap.ts:27-29 | the filter keeps exactly the elements that pass, and nothing else |
| Seqs.FilterSorted | app/sitemap.ts:27-30 | filtering a sorted sequence keeps it sorted |
| Seqs.SortDescBy | lib/seo/utils.ts:63 | the sort is a permutation (same multiset) and orders keys from largest to smallest |
| Seqs.SortStable | lib/seo/utils.ts:63 | the sort is stable: the elements with any one key come out in their input order |
| Seqs.SortSameKeys | lib/seo/utils.ts:62-63 | the sort depends only on the keys, so ranking by the frequency map equals ranking by the counts |
| Seqs.Take | app/feed.xml/route.ts:66 | `limit n` returns the prefix of exactly `min(n, length)` elements, so everything when there are no more than `n` |
| Seqs.NoDupsMultiset | lib/seo/utils.ts:64-67 | a sequence has no duplicates exactly when each element occurs at most once in its multiset |
| Seqs.Distinct | lib/seo/utils.ts:64-67 | `Array.from(new Set(s))` has no duplicates and holds exactly the elements of `s` |
| Seqs.DistinctAppend | lib/seo/utils.ts:64-67 | deduplicating `a + b` (with `b` duplicate-free) gives the deduplicated `a`, then the elements of `b` not in `a`, in `b`'s order |
| Seqs.DistinctSnoc | lib/seo/utils.ts:64-67 | deduplicating one more element appends it exactly when it is new |
| Seqs.DistinctOfNoDups | lib/seo/utils.ts:64-67 | deduplicating a duplicate-free sequence returns it unchanged |
| Seqs.FindIndex | app/business/page.tsx:20 | `findIndex`: -1 exactly when no element passes, else the first position that passes |
| Store.SingleCategory | components/fastlane/CategoryFeed.tsx:32-38 | `single()` answers a row exactly when the table is reachable and exactly one row has the id; the row is the table's and has that id |
| Store.SortStrict | components/fastlane/FastlaneFeed.tsx:8-15 | with unique ids, `order by id desc` gives strictly decreasing ids |
| Store.SelectPostsSound | components/fastlane/FastlaneFeed.tsx:8-15 | a posts query fails exactly when the table is down; otherwise its rows come from the table, pass the filter, number at most `limit`, and are in descending id order (strictly with unique ids) |
| Store.SelectPostsComplete | app/sitemap.ts:24-30 | a query without a limit loses no qualifying row |
| Store.SelectPostsEmpty | components/fastlane/InfiniteScrollLoader.tsx:65-69 | with a positive limit, the answer is empty exactly when no row passes the filter |
| Store.SelectPostsNewest | components/fastlane/FastlaneFeed.tsx:8-15 | with unique ids, a qualifying row the limited query leaves out was crowded out: the answer holds exactly `limit` rows, each with a larger id |
| Store.CategoryMapFrom | components/fastlane/FastlaneFeed.tsx:33-48 | every entry of a map built from a filtered category query is the data of a row that passes the filter and has the entry's id |
| Store.CategoryMapLastWins | components/fastlane/FastlaneFeed.tsx:39-48 | the map's keys are exactly the rows' ids; each is bound to the last row with that id |
| Store.BuildCategoryMap | components/fastlane/FastlaneFeed.tsx:39-48 | the `forEach` loop of `map.set` builds exactly the specified category map |
| Store.ResolveCategory | components/fastlane/FastlaneFeed.tsx:54-57 | a post gets the mapped category when its reference is truthy and in the map, else the fallback |
| Store.ResolveFromQuery | components/fastlane/FastlaneFeed.tsx:33-57 | a post gets a category row's own data exactly when its reference is truthy, the query succeeds and a row passing the filter has that id; otherwise the fallback |
| PostCard.DisplayText | components/fastlane/PostCard.tsx:28-35 | the description when non-empty; else a prefix of the content of at most 200 characters (all of it when shorter); else `""` |
| PostCard.Snippet | components/fastlane/PostCard.tsx:38-41 | text of at most 350 characters is unchanged; longer text is its first 350 characters plus `...`; never longer than 353 |
| PostCard.SnippetPrefix | components/fastlane/PostCard.tsx:38-41 | a snippet is a prefix of the text, followed by the ellipsis exactly when something was cut |
| PostCard.ContentSnippetWhole | components/fastlane/PostCard.tsx:34-41 | a snippet drawn from the content never gets the ellipsis and is at most 200 characters |
| PostCard.ViewLink | components/fastlane/PostCard.tsx:44-50 | `/c/` plus the slug when non-empty, else the id; `?from=` plus the encoded path only when a `fromPath` is given |
| PostCard.ViewLinkIdRoundTrip | components/fastlane/PostCard.tsx:48-50 | without a slug, the link after `/c/` is all digits and reads back as the post's id |
| PostCard.ViewLinkIdInjective | components/fastlane/PostCard.tsx:48-50 | without slugs, different ids give different links |
| PostCard.ViewLinkQueryExtends | components/fastlane/PostCard.tsx:44-50 | the link with a `fromPath` is the plain link followed by the query |
| PostCard.CategoryLabel | components/fastlane/PostCard.tsx:93 | the label is never empty; a non-empty category name is shown as it is, and a missing or empty one shows `Без категория` |
| PostCard.Card | components/fastlane/PostCard.tsx:38-138 | image link (only with an image), title link, read-more link and share URL are all the same `viewLink`; the label and snippet are the derived ones |
| InfiniteScroll.NextPageSound | components/fastlane/InfiniteScrollLoader.tsx:43-54 | a next page fails only when the store does, and holds at most five live posts below the cursor, in the category when one is set, strictly descending with unique ids |
| InfiniteScroll.NextPageSkipsNothing | components/fastlane/InfiniteScrollLoader.tsx:43-54 | a live post below the cursor (in the category when one is set) missing from the next page means the page is full of five posts, each newer than it |
| InfiniteScroll.NextOutcome | components/fastlane/InfiniteScrollLoader.tsx:43-126 | a failure exactly when the store fails; more posts are one to five posts ending at the new cursor |
| InfiniteScroll.PageCategoryMap | components/fastlane/InfiniteScrollLoader.tsx:72-106 | with a category set, the map holds at most that id; otherwise only ids the page uses; every entry is the data of a stored category row with that id |
| InfiniteScroll.NextOutcomeBelowCursor | components/fastlane/InfiniteScrollLoader.tsx:43-69 | a failure only when the store fails; more posts are never empty, end at the new cursor, and with unique ids are strictly descending and below the old cursor |
| InfiniteScroll.NextKeepsDescending | components/fastlane/InfiniteScrollLoader.tsx:128-130 | appending the next page to a descending feed ending at the cursor keeps it strictly descending |
| InfiniteScroll.FetchNext | components/fastlane/InfiniteScrollLoader.tsx:43-126 | the query, the category lookup and the projection compute the specified next outcome; more posts end at the cursor |
| InfiniteScroll.FetchCategories | components/fastlane/InfiniteScrollLoader.tsx:72-106 | the single-category lookup, or the `in` query plus its `forEach`, builds exactly the specified page category map |
| InfiniteScroll.LoaderPost | components/fastlane/InfiniteScrollLoader.tsx:109-126 | a post keeps its id and always gets a definite deep-research flag; its category is the mapped one for a truthy reference found in the map, else the uncategorised record with the fallback id |
| InfiniteScroll.LoaderPosts | components/fastlane/InfiniteScrollLoader.tsx:109 | one feed post per fetched row, in the same order |
| InfiniteScroll.AppendBelowCursor | components/fastlane/InfiniteScrollLoader.tsx:128-130 | a descending page below the last post, appended to a descending list, keeps the list strictly descending |
| InfiniteScroll.LoaderPostsKeepIds | components/fastlane/InfiniteScrollLoader.tsx:109-126 | projecting rows keeps their ids, so their order and their bound below the cursor |
| InfiniteScroll.Loader.constructor | components/fastlane/InfiniteScrollLoader.tsx:29-34 | the initial posts are shown; the cursor is the last initial post's id, or none; not loading, not exhausted |
| InfiniteScroll.Loader.Begin | components/fastlane/InfiniteScrollLoader.tsx:37-39 | a load starts exactly when not loading, not exhausted and the cursor is truthy (0 blocks); only `loading` changes |
| InfiniteScroll.Loader.Complete | components/fastlane/InfiniteScrollLoader.tsx:59-130 | on an error only `loading` is reset; an empty page sets the terminal `allLoaded`; otherwise posts are appended and the cursor moves to the last new post |
| InfiniteScroll.Loader.Append | components/fastlane/InfiniteScrollLoader.tsx:128-130 | the new posts follow the old ones, and the cursor is the last new id |
| InfiniteScroll.Loader.LoadMorePosts | components/fastlane/InfiniteScrollLoader.tsx:36-131 | blocked loads change nothing; a started load applies the next outcome; `allLoaded` is never reset; a descending feed stays descending with unique ids |
| InfiniteScroll.Loader.OnScroll | components/fastlane/InfiniteScrollLoader.tsx:136-141 | a load starts exactly when near the bottom, not loading, not exhausted and with a truthy cursor; posts, cursor and `allLoaded` are unchanged |
| InfiniteScroll.Loader.ShowsEndMessage | components/fastlane/InfiniteScrollLoader.tsx:169 | the end message shows only when everything is loaded and some posts are shown, so a scroll then never starts a load |
| FastlaneFeed.FastlanePosts | components/fastlane/FastlaneFeed.tsx:51-69 | one feed post per row, in order |
| FastlaneFeed.SidebarStats | components/fastlane/FastlaneFeed.tsx:174-182 | both sidebar counters show the number of posts |
| FastlaneFeed.LoadFastlaneFeed | components/fastlane/FastlaneFeed.tsx:8-82 | the query, the category `forEach` and the projection compute the specified first page |
| FastlaneFeed.FastlaneFeedSound | components/fastlane/FastlaneFeed.tsx:8-82 | error panel exactly when the posts query fails; empty panel exactly when no post is live; otherwise at most ten live posts, one per fetched row in order, newest first with unique ids, and they are the ten newest: a live post left out means ten posts all newer than it; the loader gets no category |
| FastlaneFeed.FastlaneFeedNewest | components/fastlane/FastlaneFeed.tsx:8-15 | with unique ids, a live post missing from the first page means the page holds ten posts, each with a larger id |
| FastlaneFeed.FastlaneFeedPage | components/fastlane/FastlaneFeed.tsx:5-192 | the error panel exactly when the posts query fails; a shown feed holds one to ten posts and the loader gets no category |
| FastlaneFeed.FastlaneCategory | components/fastlane/FastlaneFeed.tsx:33-57 | a post's category is a live category row with its id when one exists and the lookup succeeds, else `{0, Без категория, #e5e5e5}` |
| CategoryFeed.PageCategory | components/fastlane/CategoryFeed.tsx:32-38 | the single looked-up category, else `{categoryId, Категория, #e5e5e5}`; its id is always `categoryId` |
| CategoryFeed.CategoryPosts | components/fastlane/CategoryFeed.tsx:41-53 | one feed post per row, in order, all with the page's category |
| CategoryFeed.CategoryFeedSound | components/fastlane/CategoryFeed.tsx:12-68 | error panel exactly on a posts error; empty panel exactly when the category has no live post; otherwise at most ten live posts of the category, the ten newest (a live post of the category left out means ten posts all newer than it), with one shared category object and a definite deep-research flag; the loader keeps the category |
| CategoryFeed.CategoryFeedNewest | components/fastlane/CategoryFeed.tsx:12-18 | with unique ids, a live post of the category missing from the first page means the page holds ten posts, each with a larger id |
| CategoryFeed.CategoryFeedPage | components/fastlane/CategoryFeed.tsx:8-70 | the error panel exactly when the posts query fails; a shown feed holds one to ten posts, all with the page's category, and the loader keeps the category |
| CategoryFeed.FirstPageMatchesLoader | components/fastlane/CategoryFeed.tsx:32-53 | for a found category, the first page and the loader's later pages give a post the same record |
| CategoryFeed.FallbackLabelsDiffer | components/fastlane/CategoryFeed.tsx:38 | when the lookup fails, the first page labels posts `Категория` but later pages label them `Без категория` |
| FastlaneAll.LoadAllPage | app/fastlane/all/page.tsx:17-82 | the query, the category `forEach` and the projection compute the specified first page |
| FastlaneAll.AllPageSound | app/fastlane/all/page.tsx:17-109 | error panel exactly on a posts error; empty panel exactly when no post is live; otherwise at most twenty live posts in order, the twenty newest (a live post left out means twenty posts all newer than it), with definite deep-research flags and categories resolved with fallback id 0; the loader gets no category |
| FastlaneAll.AllPageNewest | app/fastlane/all/page.tsx:17-22 | with unique ids, a live post missing from the page means the page holds twenty posts, each with a larger id |
| FastlaneAll.AllPage | app/fastlane/all/page.tsx:13-112 | the error panel exactly when the posts query fails; a shown feed holds one to twenty posts and the loader gets no category |
| FastlaneAll.AllPageMetadataFacts | app/fastlane/all/page.tsx:7-11 | the page title is its own title with the ` \| Stox.bg` suffix; the page is indexable, has the eight default keywords plus its five, no canonical URL, and the fallback Open Graph image |
| Sitemap.SiteBase | app/sitemap.ts:7 | `https://` plus `VERCEL_URL` when set, else `https://stox.bg`; always an `https://` address |
| Sitemap.StaticEntries | app/sitemap.ts:11-19 | the seven fixed pages in order, all stamped with the request time |
| Sitemap.PostUrl | app/sitemap.ts:40 | a post's address is `base/c/` followed by exactly the encoded slug |
| Sitemap.PostEntries | app/sitemap.ts:37-45 | one entry per post row, in order |
| Sitemap.SiteMap | app/sitemap.ts:6-52 | the site map begins with the fixed entries under the deployment's base, and is exactly those when the posts query fails |
| Sitemap.SiteMapShape | app/sitemap.ts:6-52 | begins with the fixed entries; exactly those on a query error or an unparsable date; otherwise one weekly 0.7 entry per live slugged post at `/c/{slug}`, dated by its publication or `now` |
| Sitemap.SiteMapComplete | app/sitemap.ts:24-47 | when the store answers and dates parse, every live slugged post has an entry at its address |
| Sitemap.BadDateDropsAllPosts | app/sitemap.ts:38-51 | one unparsable date drops every post entry, not just its own |
| Indexing.IndexBase | lib/indexing.ts:79 | `NEXT_PUBLIC_SITE_URL` when set, else `https://stox.bg` |
| Indexing.StaticUrls | lib/indexing.ts:82-90 | the site map's seven fixed paths under the base, in the same order |
| Indexing.ArticleUrls | lib/indexing.ts:112-114 | one address per post row, in order |
| Indexing.AllSiteUrls | lib/indexing.ts:78-122 | the URL list begins with the seven fixed URLs under the base, and is exactly those when the posts query fails |
| Indexing.AllSiteUrlsShape | lib/indexing.ts:78-122 | the seven fixed URLs first; exactly those on a query error; otherwise one `/c/{slug}` URL per live slugged post, in query order |
| Indexing.AllSiteUrlsMatchSiteMap | lib/indexing.ts:76-116 | under the same base, the URL list is exactly the site map's addresses, unless a date breaks the site map |
| Indexing.SubmitUrl | lib/indexing.ts:23-42 | success exactly when the endpoint answered; a bad status gives `Failed to submit URL for indexing: HTTP error! status: N`, every failure carries the prefix |
| Indexing.Recorded | lib/indexing.ts:53-69 | a URL's record is the answer, or a failure record naming the URL with the prefixed message and empty results |
| Indexing.IndexOf | lib/indexing.ts:59 | `indexOf` is -1 exactly for an absent URL, else a position holding it |
| Indexing.IndexOfFirst | lib/indexing.ts:59 | `indexOf` never lies after any occurrence: it is the first |
| Indexing.SubmitMultipleUrls | lib/indexing.ts:47-73 | one record per URL in input order, failures included; the pauses follow the loop's delay condition |
| Indexing.SubmitOne | lib/indexing.ts:54-69 | one turn of the loop: the URL's record and whether to pause |
| Indexing.DistinctUrlsWait | lib/indexing.ts:58-61 | with distinct URLs, the loop pauses after every success except the last URL's |
| Indexing.RepeatedLastUrlWaits | lib/indexing.ts:59 | a last URL repeating the first still pauses after its request, since the first position decides |
| RssFeed.FeedRowsSound | app/feed.xml/route.ts:49-66 | the query fails only when the store does; exactly `min(50, n)` live slugged posts of the table, for `n` such posts, undated first, then by date from the latest down |
| RssFeed.FeedRowsNewest | app/feed.xml/route.ts:49-66 | a live slugged post missing from the feed means the feed is full at fifty, and every post in it is undated or dated no earlier than the missing one (all undated when the missing one is undated) |
| RssFeed.FeedRows | app/feed.xml/route.ts:49-66 | the feed query fails exactly when the store does, and returns at most fifty rows |
| RssFeed.UndatedThenDated | app/feed.xml/route.ts:65 | undated posts followed by date-sorted dated posts are in the feed's date order |
| RssFeed.DateOrderedTake | app/feed.xml/route.ts:66 | the first fifty of date-ordered rows are date-ordered |
| RssFeed.CategoryName | app/feed.xml/route.ts:82-84 | the first joined category's name for a non-empty array, else `Общи` |
| RssFeed.Excerpt | app/feed.xml/route.ts:91 | at most 203 characters, ending in `...`, with no `#*_` or backtick before it |
| RssFeed.ExcerptPlain | app/feed.xml/route.ts:91 | content of at most 200 characters without Markdown marks is shown whole, then `...` |
| RssFeed.ExcerptMark | app/feed.xml/route.ts:91 | a Markdown mark alone leaves only `...` |
| RssFeed.ExcerptConcat | app/feed.xml/route.ts:91 | within 200 characters the excerpt works character by character: the excerpt of `a + b` is `a`'s excerpt before its `...`, then `b`'s excerpt |
| RssFeed.ExcerptCut | app/feed.xml/route.ts:91 | nothing past the first 200 characters reaches the excerpt |
| RssFeed.ImageUrl | app/feed.xml/route.ts:96 | an image starting with `http` is kept, otherwise prefixed with the base |
| RssFeed.BaseDescription | app/feed.xml/route.ts:87-92 | the description, else an excerpt of the content, else empty |
| RssFeed.Items | app/feed.xml/route.ts:75-113 | one item per fetched post, in order |
| RssFeed.ItemFields | app/feed.xml/route.ts:76-112 | the post's title; a link under `base/c/`; guid `post-{id}`; one category; the author or `stox.bg Team`; the publication date or `now`; an enclosure exactly for an image; the description led by the image tag only when there is an image |
| RssFeed.Feed | app/feed.xml/route.ts:7-133 | status 500 exactly on a query error; otherwise the channel's feed URL is `base/feed.xml` and there are at most fifty items, each linking under `base/c/` |
| RssFeed.MakeItem | app/feed.xml/route.ts:76-112 | the loop body's step-by-step description builds the specified item |
| RssFeed.AddItems | app/feed.xml/route.ts:75-113 | the `for` loop yields exactly the specified items |
| RssFeed.Get | app/feed.xml/route.ts:47-114 | the route computes the specified response |
| RssFeed.FeedShape | app/feed.xml/route.ts:68-112 | status 500 exactly on a query error; otherwise at most fifty items, the `i`-th at its post's address with guid `post-{id}`, one category and the post's author or `stox.bg Team` |
| RssFeed.GuidsDistinct | app/feed.xml/route.ts:104 | posts with different ids get different guids |
| RssFeed.ImageShownOnce | app/feed.xml/route.ts:95-111 | an enclosure exactly when there is an image; its URL is the one the leading `<img>` tag shows |
| RssFeed.ExcerptDescription | app/feed.xml/route.ts:87-92 | without description and image but with content, the description is the excerpt |
| XmlSitemap.StaticPages | app/api/sitemap/route.ts:32-69 | six fixed pages, the first being the home page at priority 1 |
| XmlSitemap.AllPagesShape | app/api/sitemap/route.ts:71-85 | the six fixed pages, then one page per stock at its lower-cased ticker (0.8), then one per category (0.7), in order |
| XmlSitemap.PriorityText | app/api/sitemap/route.ts:96 | a priority of 1.0 prints as `1`, `N` tenths below one as `0.N` |
| XmlSitemap.Blocks | app/api/sitemap/route.ts:90-101 | one `<url>` block per page, in order |
| XmlSitemap.UrlBlock | app/api/sitemap/route.ts:92-100 | a block opens with `<url>` and the `<loc>` of its address, and closes with the three alternates and `</url>` |
| XmlSitemap.Document | app/api/sitemap/route.ts:87-103 | the document opens with the XML header and `urlset` and closes it; with no pages it is just those two |
| XmlSitemap.DocumentOne | app/api/sitemap/route.ts:87-103 | a one-page document is the header, that page's block and the closing tag |
| XmlSitemap.DocumentSnoc | app/api/sitemap/route.ts:87-103 | one more page adds a line break and its block just before the closing tag, after everything already there |
| XmlSitemap.Get | app/api/sitemap/route.ts:24-111 | the route's document has the header and footer and holds the home page's block at priority 1, daily |
| XmlSitemap.GetEveryPage | app/api/sitemap/route.ts:24-111 | the route's document is the document of the fourteen-page list, in the list's order, and holds every listed page's block |
| XmlSitemap.LocRoundTrip | app/api/sitemap/route.ts:93 | an address without `<` reads back from its block's `<loc>` unchanged |
| XmlSitemap.BlockAlternates | app/api/sitemap/route.ts:97-99 | each block holds the `bg`, `bg-BG` and `x-default` alternates of its own address |
| XmlSitemap.DocumentHoldsEveryPage | app/api/sitemap/route.ts:87-103 | the document opens with the XML header and `urlset`, closes it, and holds every page's block |
| NextSitemap.SiteUrl | next-sitemap.config.js:3 | `SITE_URL` when set, else `https://stox.bg` |
| NextSitemap.Transform | next-sitemap.config.js:10-50 | the defaults and the `if` chain compute the specified entry |
| NextSitemap.TransformField | next-sitemap.config.js:10-50 | `loc` is the path; a date, `now`, only with automatic dates; three alternates at `siteUrl + path`; `/` is 1.0 daily; the rule is one of the table's four or the default |
| NextSitemap.TransformFieldShape | next-sitemap.config.js:30-49 | `loc` is the path; a date only with automatic dates; exactly the `bg`, `bg-BG`, `x-default` alternates at `siteUrl + path` |
| NextSitemap.RuleTable | next-sitemap.config.js:11-28 | first match wins: `/` 1.0 daily, `/stocks/` 0.8 daily, `/categories/` 0.7 weekly, `/about` or `/contact` 0.6 monthly, else 0.7 weekly |
| NextSitemap.StockRuleWins | next-sitemap.config.js:19-25 | `/stocks/about` mentions `/about` but is still a 0.8 daily stock page |
| NextSitemap.PrefixedFields | next-sitemap.config.js:57-70 | one transformed entry per stock or category, at its prefixed path, in listed order |
| NextSitemap.AdditionalPaths | next-sitemap.config.js:53-73 | the two loops push the stock entries, then the category entries |
| NextSitemap.AdditionalPathsShape | next-sitemap.config.js:53-73 | seven stock pages at 0.8 daily, then four category pages at 0.7 weekly, in listed order |
| SeoUtils.Sanitize | lib/seo/utils.ts:26 | same length; each character outside `[a-z0-9-]` becomes `-` |
| SeoUtils.Collapse | lib/seo/utils.ts:27 | no `--` remains, the first character is kept, the alphabet is preserved, and the characters other than dashes are exactly those of the input, in order |
| SeoUtils.CollapseSplit | lib/seo/utils.ts:27 | text cut after a non-dash character collapses piece by piece: `collapse(a + b) == collapse(a) + collapse(b)` |
| SeoUtils.CollapseDashRun | lib/seo/utils.ts:27 | a run of one or more dashes collapses to a single `-` |
| SeoUtils.Clean | lib/seo/utils.ts:26-28 | the three replacements always produce a slug: `[a-z0-9-]` only, no `--`, no dash at either end |
| SeoUtils.SlugifyBG | lib/seo/utils.ts:13-29 | every result is a slug in that sense |
| SeoUtils.Translit | lib/seo/utils.ts:16-25 | never shorter than the text; no small Cyrillic letter with a table entry survives |
| SeoUtils.TranslitNoCyrillic | lib/seo/utils.ts:16-25 | text without small Cyrillic letters passes transliteration unchanged |
| SeoUtils.TranslitOne | lib/seo/utils.ts:16-25 | one character transliterates by itself: its table value when it is a listed small Cyrillic letter, else itself |
| SeoUtils.TranslitAppend | lib/seo/utils.ts:16-25 | the replacement works letter by letter: the transliteration of `a + b` is that of `a`, then that of `b` |
| SeoUtils.TranslitLetters | lib/seo/utils.ts:16-25 | a word of listed small Cyrillic letters transliterates to small Latin letters only |
| SeoUtils.SlugOfWord | lib/seo/utils.ts:13-29 | the slug of a word of listed small Cyrillic letters is exactly its transliteration |
| SeoUtils.SlugOfAktsii | lib/seo/utils.ts:13-29 | `slugifyBG("акции")` is `aktsii` |
| SeoUtils.CollapseFixes | lib/seo/utils.ts:27 | text without `--` is left unchanged |
| SeoUtils.CleanFixes | lib/seo/utils.ts:26-28 | a slug passes the clean-up unchanged |
| SeoUtils.SlugFixed | lib/seo/utils.ts:13-29 | a slug is its own slug |
| SeoUtils.SlugifyIdempotent | lib/seo/utils.ts:13-29 | slugifying twice is slugifying once |
| SeoUtils.LatinIsSlug | lib/seo/utils.ts:17-23 | every value of the transliteration table is a slug |
| SeoUtils.SlugOfLetter | lib/seo/utils.ts:16-28 | a small Cyrillic letter alone slugifies to its transliteration, or to the empty slug when the table gives it none |
| SeoUtils.HttpUrlAppend | lib/seo/utils.ts:35 | an `http(s)://` address stays absolute when text is appended |
| SeoUtils.ToAbsoluteUrl | lib/seo/utils.ts:32-40 | empty gives the default image; `http(s)://` unchanged; a path starting with `/` is appended to the base; any other path gets base, `/`, then the path |
| SeoUtils.ToAbsoluteUrlIdempotent | lib/seo/utils.ts:32-40 | against an absolute base, applying it twice equals once |
| SeoUtils.Normalize | lib/seo/utils.ts:57 | same length; characters outside Latin and Cyrillic letters, digits and white space become spaces |
| SeoUtils.Words | lib/seo/utils.ts:58-59 | `split(/\s+/).filter(Boolean)`: non-empty words without white space, drawn from the text; no words exactly when the text is all white space |
| SeoUtils.WordsAtSpace | lib/seo/utils.ts:58-59 | the text splits at every white-space character: the words of `a + c + b` are the words of `a`, then those of `b` |
| SeoUtils.TokensShape | lib/seo/utils.ts:55-60 | every token is longer than two characters, not a stop-word, and made of small letters and digits |
| SeoUtils.LowerAll | lib/seo/utils.ts:65 | each extra keyword lower-cased, in order |
| SeoUtils.Keywords | lib/seo/utils.ts:43-69 | for any stop-word set: at most `max` keywords; an empty text gives `extra.slice(0, max)`, not lower-cased |
| SeoUtils.RankedSound | lib/seo/utils.ts:61-63 | the ranking lists each token exactly once and by non-increasing count |
| SeoUtils.KeywordsLayout | lib/seo/utils.ts:64-68 | for any stop-word set: no duplicates; the lower-cased extras first, then the ranked tokens not among them, cut to `max` |
| SeoUtils.StopwordNeverToken | lib/seo/utils.ts:49-60 | for any stop-word set, a member of it is never a token of the text |
| SeoUtils.CountTokens | lib/seo/utils.ts:61-62 | the counting loop yields the keys in first-occurrence order and each token's number of occurrences |
| SeoUtils.Tally | lib/seo/utils.ts:62 | one loop turn keeps the keys and counts in step with the tokens seen |
| SeoUtils.ExtractKeywordsBG | lib/seo/utils.ts:43-69 | the counting, sorting, merging and slicing compute exactly the specified keywords under the stop-word set as written |
| SeoUtils.BadeSurvivesAsWritten | lib/seo/utils.ts:53 | with the stop-word set as written, the Cyrillic word `бъде` is still a keyword |
| SeoUtils.BadeDroppedCorrected | lib/seo/utils.ts:53 | with `бъде` spelled in Cyrillic, it is never a keyword |
| SeoUtils.BadeKeywordAsWritten | lib/seo/utils.ts:53 | with the stop-word set as written, `extractKeywordsBG("бъде")` is `["бъде"]` |
| SeoUtils.BadeKeywordCorrected | lib/seo/utils.ts:53 | with `бъде` spelled in Cyrillic, it is never a keyword unless the caller passes it as an extra keyword |
| SeoUtils.FullTitle | lib/seo/utils.ts:102 | the title when it already contains `stox.bg` in any case, else `title \| stox.bg` |
| SeoUtils.FullTitleNamesSite | lib/seo/utils.ts:102 | the full title always contains `stox.bg` in any case |
| SeoUtils.FullTitleIdempotent | lib/seo/utils.ts:102 | composing the title of a composed title changes nothing |
| SeoUtils.SeoKeywordLine | lib/seo/utils.ts:96-101 | the keyword line is the default line, then `, ` and the page keywords joined when there are any; nothing is deduplicated |
| SeoUtils.PageUrl | lib/seo/utils.ts:103 | base plus canonical when given, else the base; always under the base |
| SeoUtils.PageImage | lib/seo/utils.ts:104 | the image (default `/images/og-default.jpg`) made absolute; always an `https://` address |
| SeoUtils.ArticleMeta | lib/seo/utils.ts:153-159 | the `other` article tags exist exactly for a dated article; the modified and updated times are `modifiedTime \|\| publishedTime` |
| SeoUtils.GenerateSEOMetadata | lib/seo/utils.ts:72-171 | the composed title everywhere; default-first keywords; URL from canonical; one absolute 1200x630 image for Open Graph and Twitter; article fields only for articles; indexable; alternates at the URL |
| SeoUtils.GenerateArticleSchema | lib/seo/utils.ts:228-277 | `dateModified` is `modifiedTime \|\| publishedTime`; `about` and the two ticker keywords only for a non-empty ticker |
| SeoUtils.GenerateFinancialProductSchema | lib/seo/utils.ts:280-305 | name `company (ticker)`; an offer exactly for a non-zero price, whose price is the price's `toString()` text and whose currency is the given one, USD by default; the URL at the lower-cased ticker |
| SeoUtils.FinancialProductUrlCaseInsensitive | lib/seo/utils.ts:304 | a ticker and its lower-cased form give the same product URL |
| SeoUtils.FaqEntities | lib/seo/utils.ts:308-319 | one question with its answer per pair, in order |
| SeoUtils.FaqRoundTrip | lib/seo/utils.ts:311-318 | the pairs read back from the FAQ page unchanged |
| SeoUtils.ListItems | lib/seo/utils.ts:325-330 | one list item per crumb, in order, numbered from the start |
| SeoUtils.GenerateBreadcrumbSchema | lib/seo/utils.ts:322-331 | one item per crumb with `position = index + 1` |
| SeoUtils.BreadcrumbRoundTrip | lib/seo/utils.ts:325-330 | the crumbs read back from the list unchanged, in order |
| SeoUtils.DropTerminators | lib/seo/utils.ts:336 | a suffix of the text that starts with no `.`, `!` or `?` |
| SeoUtils.Sentences | lib/seo/utils.ts:336 | `split(/[.!?]+/)`: at least one piece, none containing a terminator |
| SeoUtils.SentencesWhole | lib/seo/utils.ts:336 | text without `.`, `!` or `?` is a single piece, itself |
| SeoUtils.SentencesAtTerminator | lib/seo/utils.ts:336 | text `a`, a terminator, then `b` gives the piece `a` followed by the pieces of `b` after its leading run of terminators |
| SeoUtils.KeySentences | lib/seo/utils.ts:336-337 | the first `min(3, n)` of the `n` pieces longer than ten characters once trimmed, in text order |
| SeoUtils.GenerateAISummary | lib/seo/utils.ts:334-339 | `Summary: `, the key sentences joined with `. `, then `.` |
| SeoUtils.SummaryRoundTrip | lib/seo/utils.ts:334-339 | with at least one key sentence, the text between the prefix and the final `.` splits on `. ` back into the key sentences |
| SeoUtils.SummaryOfShortText | lib/seo/utils.ts:336-338 | a text of at most ten characters summarises to `Summary: .` |
| SeoUtils.SentencesShort | lib/seo/utils.ts:336 | no piece is longer than the text |
| SeoUtils.GenerateHreflangLinks | lib/seo/utils.ts:342-349 | three alternates, `bg`, `bg-BG` and `x-default`, all at base plus path |
| SeoMetadata.MetadataTitle | lib/seo/metadata.ts:28 | `title \| Stox.bg` for a non-empty title, else the fixed fallback title |
| SeoMetadata.CreateMetadata | lib/seo/metadata.ts:15-83 | eight default keywords then the page's; the description or the fallback, shared by all three cards; image or `/images/og-image.png` left relative; all robots flags `!noIndex`; canonical as given; Open Graph URL `/` |
| SeoMetadata.CreateMetadataTitleNotIdempotent | lib/seo/metadata.ts:28 | feeding a composed title back in appends the suffix a second time |
| SeoMetadata.MetadataKeywordsNotDeduplicated | lib/seo/metadata.ts:30-40 | a page keyword that is also a default appears twice |
| PageSeo.FindTag | components/ui/page-seo.tsx:25-26 | `find` returns a tag with the name, or none exactly when no tag has it |
| PageSeo.DefaultKeywordsFromConfig | components/ui/page-seo.tsx:25-27 | the default keywords, joined back with `, `, are the configured keyword line |
| PageSeo.PageImageUrl | components/ui/page-seo.tsx:39 | the given image when non-empty, else the configured Open Graph image; never empty |
| PageSeo.GeneratePageMetadata | components/ui/page-seo.tsx:15-60 | title and description verbatim; default keywords then the page's; one 1200x630 image with `alt = title` for both cards; an article block only for articles, author `Stox.bg` by default |
| SectionPages.SectionPick | app/business/page.tsx:14-37 | a feed is shown only for a live category named like the section (the first in query order) with a non-zero id; the panel when none matches or the query fails |
| SectionPages.SectionPage | app/business/page.tsx:14-37 | a feed is shown only when the categories query answers, for a non-zero id of a live category named like the section, and it is that category's feed; a failed query shows the panel |
| SectionPages.BusinessPage | app/business/page.tsx:13-41 | a shown feed belongs to a live category whose lower-cased name starts with `business` or `бизнес` |
| SectionPages.TechnologyPage | app/technology/page.tsx:12-40 | a shown feed belongs to a live category whose lower-cased name starts with `technology` or `технолог` |
| SectionPages.SectionPickFirst | app/business/page.tsx:20-21 | the first live category named like the section is the one shown, unless its id is 0 |
| SectionPages.DeletedNeverPicked | app/technology/page.tsx:14-20 | a category whose rows are all deleted is never picked |
| SectionPages.NoSiteInTitle | lib/seo/utils.ts:102 | a title without `s` or `S` gets the `\| stox.bg` suffix |
| SectionPages.RootedImage | lib/seo/utils.ts:104 | a root-relative image becomes `https://stox.bg` followed by it |
| SectionPages.BusinessMetadataFacts | app/business/page.tsx:5-11 | title `Бизнес \| stox.bg`, URL `https://stox.bg/business`, image `https://stox.bg/images/devidsbanner.png` |
| SectionPages.TechnologyMetadataFacts | app/technology/page.tsx:5-10 | title `Технологии \| Stox.bg`, canonical `/technology` kept relative, fallback image |

## Left out

- The database client is not part of this model. The store is abstract tables with a reachability flag; `null` data is read as no rows.
- Exceptions caught by `try`/`catch` are modelled only where the code shows their cause: a failed query and an unparsable date. Other thrown errors are not modelled.
- `fetch`, `setTimeout` and the indexing endpoint are not modelled. Each request's reply is an input sequence; `waits` records where the loop would pause.
- The clock, `new Date().toISOString()` and date parsing are parameters (`now`, `iso`, `epoch`). `encodeURIComponent` is the parameter `encode`.
- The RSS library's XML serialisation and the JSON stringification of non-string content are not modelled. Content is a string.
- React rendering, the browser's scroll geometry and event interleaving are not modelled. The scroll test is the boolean `nearBottom`.
- InfiniteScroll.Loader.LoadMorePosts: runs to completion without another scroll event in between, so React's asynchronous state updates and stale closures are not modelled.
- Text.Lower: lower-cases only ASCII letters and the basic Cyrillic block, which is all the site's literals use. Full Unicode case mapping is not modelled.
- Lengths and `substring` count code points, not UTF-16 units. The two agree on the Basic Multilingual Plane.
- Site-map priorities are integer tenths, not floating point.
- SeoUtils.GenerateFinancialProductSchema: the price is an exact `real`, not an IEEE double, so NaN and rounding are not modelled. `price.toString()` is the parameter `render`.
- XmlSitemap.PriorityText: states only the tenths 1 to 10 that occur, not the printing of other numbers.
- RssFeed.FeedRowsSound: the store's date order is stated with an opaque `epoch` per date text, undated posts first (PostgreSQL's `NULLS FIRST` for a descending order).
- SeoUtils.GenerateSEOMetadata: the `en-US` alternate is stated only for URLs without `/bg/`. The single-occurrence `replace` is defined but not characterised further.
- SeoUtils.GenerateSEOMetadata: the fixed robots preview settings, locale and publisher are defined but not stated.
- The stock and category lists of `app/api/sitemap/route.ts` are constants, as in the source.
- The `next-sitemap` exclude list, sitemap size and robots settings are not modelled. They are configuration for the generator, which is not part of this model.
- The `lib/seo/config.ts` constants are used only where `generatePageMetadata` reads them. `lib/seo/schema.ts` is not part of this model.
- The organization and website schema builders of `lib/seo/utils.ts` are not modelled. They return constant records with no logic.
- `process.env.GOOGLE_VERIFICATION_ID` is the parameter `googleVerificationId`.

## Findings

| source | as written | input that shows it | evidently intended | confidence | as-written member | corrected member |
|---|---|---|---|---|---|---|
| lib/seo/utils.ts:53 | the stop-word `бъдe` ends in a Latin `e` (U+0065), so it never equals the Cyrillic word after lower-casing | `extractKeywordsBG("бъде")` keeps `бъде` as a keyword | `бъде` spelled fully in Cyrillic, so the word is dropped like every other stop-word | high (not executed) | SeoUtils.BadeKeywordAsWritten | SeoUtils.BadeKeywordCorrected |
