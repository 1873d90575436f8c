/**
 * `FastlaneFeed`, the server-rendered first page of the fast lane: the ten
 * newest live posts, each joined to its category through a map of all live
 * categories, then handed to the infinite-scroll loader.
 */
module FastlaneFeed {
  import opened Wrappers
  import opened Seqs
  import opened Store
  import opened InfiniteScroll

  const FirstPageSize: nat := 10

  /** The first-page query: live posts, newest first, at most ten. */
  function FirstPosts(db: Db): Response<PostRow> {
    SelectPosts(db.posts, Live, Some(FirstPageSize))
  }

  /** The map of every live category, by id; a failed query leaves it empty. */
  function LiveCategories(db: Db): map<int, CategoryInfo> {
    CategoryMap(RowsOr(SelectCategories(db.categories, LiveCategory)))
  }

  /**
   * One row as a feed post: this page keeps `content` and `published_at`,
   * carries no short content, external link or deep-research flag, and falls
   * back to the uncategorised category with id 0.
   */
  function FastlanePost(row: PostRow, m: map<int, CategoryInfo>): FeedPost {
    FeedPost(
      row.id, row.title, row.content, None, row.description, row.image, row.slug,
      None, row.publishedAt, None, ResolveCategory(row.category, m, Uncategorised(0)))
  }

  function FastlanePosts(rows: seq<PostRow>, m: map<int, CategoryInfo>): (r: seq<FeedPost>)
    ensures |r| == |rows|
    ensures forall i :: 0 <= i < |rows| ==> r[i] == FastlanePost(rows[i], m)
  {
    seq(|rows|, i requires 0 <= i < |rows| => FastlanePost(rows[i], m))
  }

  /** The page: on a posts error the error panel (no category query is made), then the empty panel or the feed. */
  function FastlaneFeedPage(db: Db): (r: FirstPage)
    ensures r.ErrorPanel? <==> !db.posts.up
    ensures r.Feed? ==> r.posts != [] && |r.posts| <= FirstPageSize && r.loaderCategory.None?
  {
    SelectPostsSound(db.posts, Live, Some(FirstPageSize));
    var response := FirstPosts(db);
    if response.Failed? then ErrorPanel
    else
      var posts := FastlanePosts(response.rows, LiveCategories(db));
      if posts == [] then EmptyPanel else Feed(posts, None)
  }

  /** The two sidebar counters, "AI analyses today" and "total articles". */
  datatype Stats = Stats(analysesToday: nat, totalArticles: nat)

  function SidebarStats(posts: seq<FeedPost>): (r: Stats)
    ensures r.analysesToday == r.totalArticles == |posts|
  {
    Stats(|posts|, |posts|)
  }

  /** The component as it runs: the posts query, then the category query and the `forEach` that fills the map. */
  method LoadFastlaneFeed(db: Db) returns (page: FirstPage)
    ensures page == FastlaneFeedPage(db)
  {
    var response := FirstPosts(db);
    if response.Failed? {
      return ErrorPanel;
    }
    var categories := SelectCategories(db.categories, LiveCategory);
    var m: map<int, CategoryInfo> := map[];
    if categories.Rows? {
      m := BuildCategoryMap(categories.rows);
    }
    var posts := FastlanePosts(response.rows, m);
    if posts == [] {
      return EmptyPanel;
    }
    return Feed(posts, None);
  }

  /**
   * The page's outcomes: the error panel exactly when the posts query fails,
   * the empty panel exactly when no post is live, and otherwise at most ten
   * posts, one per fetched row in the same order, each a live post with its
   * title, content and date, newest first when ids are unique; the loader
   * gets no category.
   */
  lemma FastlaneFeedSound(db: Db)
    ensures FastlaneFeedPage(db).ErrorPanel? <==> !db.posts.up
    ensures FastlaneFeedPage(db).EmptyPanel? <==> db.posts.up && forall r :: r in db.posts.rows ==> !Live(r)
    ensures FastlaneFeedPage(db).Feed? ==>
      var page := FastlaneFeedPage(db);
      var rows := FirstPosts(db).rows;
      |page.posts| == |rows| <= FirstPageSize && page.loaderCategory.None? &&
      (forall i :: 0 <= i < |rows| ==>
        rows[i] in db.posts.rows && Live(rows[i]) && page.posts[i].id == rows[i].id &&
        page.posts[i].title == rows[i].title && page.posts[i].content == rows[i].content &&
        page.posts[i].publishedAt == rows[i].publishedAt) &&
      (UniqueIds(db.posts.rows) ==> FeedDescending(page.posts))
    ensures db.posts.up && UniqueIds(db.posts.rows) ==>
      var rows := FirstPosts(db).rows;
      forall x :: x in db.posts.rows && Live(x) && x !in rows ==>
        |rows| == FirstPageSize && forall y :: y in rows ==> x.id < y.id
  {
    FastlaneFeedNewest(db);
    SelectPostsSound(db.posts, Live, Some(FirstPageSize));
    if db.posts.up {
      SelectPostsEmpty(db.posts, Live, FirstPageSize);
      var rows := FirstPosts(db).rows;
      forall i | 0 <= i < |rows| ensures rows[i] in db.posts.rows && Live(rows[i]) {
        assert rows[i] in rows;
      }
    }
  }

  /**
   * Each post's category is the data of a live category row with the post's
   * category id when there is one and the category query succeeds; otherwise
   * `{0, "Без категория", "#e5e5e5"}`.
   */
  lemma FastlaneCategory(db: Db, i: nat)
    requires FastlaneFeedPage(db).Feed? && i < |FastlaneFeedPage(db).posts|
    ensures var row := FirstPosts(db).rows[i];
      var c := FastlaneFeedPage(db).posts[i].category;
      if TruthyId(row.category) && db.categories.up &&
        (exists cat :: cat in db.categories.rows && LiveCategory(cat) && cat.id == row.category.value)
      then exists cat :: cat in db.categories.rows && LiveCategory(cat) && cat.id == row.category.value && c == InfoOf(cat)
      else c == Uncategorised(0)
  {
    var row := FirstPosts(db).rows[i];
    ResolveFromQuery(row.category, db.categories, LiveCategory, Uncategorised(0));
  }

  /**
   * The first page holds the newest qualifying posts: with unique ids, a
   * qualifying post left out means the page is full and every post on it is
   * newer.
   */
  lemma FastlaneFeedNewest(db: Db)
    ensures db.posts.up && UniqueIds(db.posts.rows) ==>
      var rows := FirstPosts(db).rows;
      forall x :: x in db.posts.rows && Live(x) && x !in rows ==>
        |rows| == FirstPageSize && forall y :: y in rows ==> x.id < y.id
  {
    if db.posts.up && UniqueIds(db.posts.rows) {
      forall x | x in db.posts.rows && Live(x) && x !in FirstPosts(db).rows
        ensures |FirstPosts(db).rows| == FirstPageSize
        ensures forall y :: y in FirstPosts(db).rows ==> x.id < y.id
      {
        SelectPostsNewest(db.posts, Live, FirstPageSize, x);
      }
    }
  }
}
