/**
 * `FastlaneAllPage` (`/fastlane/all`): the twenty newest live posts joined
 * to the live categories, handed to an unfiltered loader, plus the page's
 * metadata.
 */
module FastlaneAll {
  import opened Wrappers
  import opened Seqs
  import opened Store
  import opened InfiniteScroll
  import SeoMetadata

  const FirstPageSize: nat := 20

  function FirstPosts(db: Db): Response<PostRow> {
    SelectPosts(db.posts, Live, Some(FirstPageSize))
  }

  /** The map of every live category, by id; a failed query leaves it empty. */
  function LiveCategories(db: Db): map<int, CategoryInfo> {
    CategoryMap(RowsOr(SelectCategories(db.categories, LiveCategory)))
  }

  /**
   * The page: the error panel on a posts error, else the empty panel or the
   * feed. Each row is projected exactly as the loader projects its own pages,
   * with fallback category id 0.
   */
  function AllPage(db: Db): (r: FirstPage)
    ensures r.ErrorPanel? <==> !db.posts.up
    ensures r.Feed? ==> r.posts != [] && |r.posts| <= FirstPageSize && r.loaderCategory.None?
  {
    SelectPostsSound(db.posts, Live, Some(FirstPageSize));
    var response := FirstPosts(db);
    if response.Failed? then ErrorPanel
    else
      var posts := LoaderPosts(response.rows, LiveCategories(db), 0);
      if posts == [] then EmptyPanel else Feed(posts, None)
  }

  /** The page as it runs: the posts query, then the category query and the `forEach` that fills the map. */
  method LoadAllPage(db: Db) returns (page: FirstPage)
    ensures page == AllPage(db)
  {
    var response := FirstPosts(db);
    if response.Failed? {
      return ErrorPanel;
    }
    var categories := SelectCategories(db.categories, LiveCategory);
    var m: map<int, CategoryInfo> := map[];
    if categories.Rows? {
      m := BuildCategoryMap(categories.rows);
    }
    var posts := LoaderPosts(response.rows, m, 0);
    if posts == [] {
      return EmptyPanel;
    }
    return Feed(posts, None);
  }

  /**
   * The page's outcomes: the error panel exactly when the posts query fails,
   * the empty panel exactly when no post is live, and otherwise at most
   * twenty live posts, one per fetched row in the same order, each with a
   * definite deep-research flag and its category resolved against the live
   * categories or the uncategorised fallback with id 0; newest first when ids
   * are unique; the loader gets no category.
   */
  lemma AllPageSound(db: Db)
    ensures AllPage(db).ErrorPanel? <==> !db.posts.up
    ensures AllPage(db).EmptyPanel? <==> db.posts.up && forall r :: r in db.posts.rows ==> !Live(r)
    ensures AllPage(db).Feed? ==>
      var page := AllPage(db);
      var rows := FirstPosts(db).rows;
      |page.posts| == |rows| <= FirstPageSize && page.loaderCategory.None? &&
      (forall i :: 0 <= i < |rows| ==>
        rows[i] in db.posts.rows && Live(rows[i]) && page.posts[i].id == rows[i].id &&
        page.posts[i].isDeepResearch == Some(DeepResearchFlag(rows[i])) &&
        page.posts[i].category == ResolveCategory(rows[i].category, LiveCategories(db), Uncategorised(0))) &&
      (UniqueIds(db.posts.rows) ==> FeedDescending(page.posts))
    ensures db.posts.up && UniqueIds(db.posts.rows) ==>
      var rows := FirstPosts(db).rows;
      forall x :: x in db.posts.rows && Live(x) && x !in rows ==>
        |rows| == FirstPageSize && forall y :: y in rows ==> x.id < y.id
  {
    AllPageNewest(db);
    SelectPostsSound(db.posts, Live, Some(FirstPageSize));
    if db.posts.up {
      SelectPostsEmpty(db.posts, Live, FirstPageSize);
      var rows := FirstPosts(db).rows;
      forall i | 0 <= i < |rows| ensures rows[i] in db.posts.rows && Live(rows[i]) {
        assert rows[i] in rows;
      }
    }
  }

  /** The page's metadata, built by `createMetadata`. */
  function AllPageMetadata(): SeoMetadata.Metadata {
    SeoMetadata.CreateMetadata(SeoMetadata.MetadataProps(
      Some("Всички публикации - Бърза лента"),
      Some("Разгледайте всички публикации от Бърза лента на Stox.bg."),
      ["бърза лента", "всички публикации", "анализи", "инвестиции", "stox.bg"],
      None, false, None))
  }

  /**
   * The page is titled with the site suffix, is indexable, keeps the eight
   * default keywords in front of its five, and has no canonical URL.
   */
  lemma AllPageMetadataFacts()
    ensures AllPageMetadata().title == "Всички публикации - Бърза лента" + " | " + SeoMetadata.SiteName
    ensures AllPageMetadata().robotsIndex && AllPageMetadata().robotsFollow
    ensures |AllPageMetadata().keywords| == |SeoMetadata.MetaKeywords| + 5
    ensures AllPageMetadata().canonical.None?
    ensures AllPageMetadata().openGraph.images[0].url == SeoMetadata.FallbackImage
  {
  }

  /**
   * The first page holds the newest qualifying posts: with unique ids, a
   * qualifying post left out means the page is full and every post on it is
   * newer.
   */
  lemma AllPageNewest(db: Db)
    ensures db.posts.up && UniqueIds(db.posts.rows) ==>
      var rows := FirstPosts(db).rows;
      forall x :: x in db.posts.rows && Live(x) && x !in rows ==>
        |rows| == FirstPageSize && forall y :: y in rows ==> x.id < y.id
  {
    if db.posts.up && UniqueIds(db.posts.rows) {
      forall x | x in db.posts.rows && Live(x) && x !in FirstPosts(db).rows
        ensures |FirstPosts(db).rows| == FirstPageSize
        ensures forall y :: y in FirstPosts(db).rows ==> x.id < y.id
      {
        SelectPostsNewest(db.posts, Live, FirstPageSize, x);
      }
    }
  }
}
