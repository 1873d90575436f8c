/**
 * `CategoryFeed`, the first page of one category: its ten newest live posts,
 * all carrying the same category object, handed to the loader together with
 * the category id so that later pages stay in the category.
 */
module CategoryFeed {
  import opened Wrappers
  import opened Seqs
  import opened Store
  import opened InfiniteScroll

  const FirstPageSize: nat := 10
  const FallbackCategoryName: string := "Категория"

  /** `eq('isdeleted', false).eq('category', categoryId)`. */
  function InCategory(categoryId: int): PostRow -> bool {
    (r: PostRow) => !r.isDeleted && r.category == Some(categoryId)
  }

  function FirstPosts(db: Db, categoryId: int): Response<PostRow> {
    SelectPosts(db.posts, InCategory(categoryId), Some(FirstPageSize))
  }

  /** The category looked up with `single()`, or `{categoryId, "Категория", "#e5e5e5"}` when that fails. */
  function PageCategory(db: Db, categoryId: int): (c: CategoryInfo)
    ensures c.id == categoryId
    ensures SingleCategory(db.categories, categoryId).Some? ==> c == InfoOf(SingleCategory(db.categories, categoryId).value)
    ensures SingleCategory(db.categories, categoryId).None? ==> c == CategoryInfo(categoryId, Some(FallbackCategoryName), FallbackColor)
  {
    var found := SingleCategory(db.categories, categoryId);
    if found.Some? then InfoOf(found.value) else CategoryInfo(categoryId, Some(FallbackCategoryName), FallbackColor)
  }

  /** One row as a feed post with the page's category; the deep-research flag defaults to false. */
  function CategoryPost(row: PostRow, c: CategoryInfo): FeedPost {
    FeedPost(
      row.id, row.title, None, row.shortContent, row.description, row.image, row.slug,
      row.externalLink, None, Some(DeepResearchFlag(row)), c)
  }

  function CategoryPosts(rows: seq<PostRow>, c: CategoryInfo): (r: seq<FeedPost>)
    ensures |r| == |rows|
    ensures forall i :: 0 <= i < |rows| ==> r[i] == CategoryPost(rows[i], c)
  {
    seq(|rows|, i requires 0 <= i < |rows| => CategoryPost(rows[i], c))
  }

  /** The page: the error panel before any category lookup, then the empty panel or the feed kept in the category. */
  function CategoryFeedPage(db: Db, categoryId: int): (r: FirstPage)
    ensures r.ErrorPanel? <==> !db.posts.up
    ensures r.Feed? ==>
      r.posts != [] && |r.posts| <= FirstPageSize && r.loaderCategory == Some(categoryId) &&
      forall p :: p in r.posts ==> p.category == PageCategory(db, categoryId)
  {
    SelectPostsSound(db.posts, InCategory(categoryId), Some(FirstPageSize));
    var response := FirstPosts(db, categoryId);
    if response.Failed? then ErrorPanel
    else
      var posts := CategoryPosts(response.rows, PageCategory(db, categoryId));
      if posts == [] then EmptyPanel else Feed(posts, Some(categoryId))
  }

  /**
   * The page's outcomes: the error panel exactly when the posts query fails,
   * the empty panel exactly when the category has no live post, and
   * otherwise at most ten live posts of the category, one per fetched row,
   * all with the same category object and a definite deep-research flag,
   * newest first when ids are unique; the loader keeps the category.
   */
  lemma CategoryFeedSound(db: Db, categoryId: int)
    ensures CategoryFeedPage(db, categoryId).ErrorPanel? <==> !db.posts.up
    ensures CategoryFeedPage(db, categoryId).EmptyPanel? <==>
      db.posts.up && forall r :: r in db.posts.rows && !r.isDeleted ==> r.category != Some(categoryId)
    ensures CategoryFeedPage(db, categoryId).Feed? ==>
      var page := CategoryFeedPage(db, categoryId);
      var rows := FirstPosts(db, categoryId).rows;
      |page.posts| == |rows| <= FirstPageSize && page.loaderCategory == Some(categoryId) &&
      (forall i :: 0 <= i < |rows| ==>
        rows[i] in db.posts.rows && !rows[i].isDeleted && rows[i].category == Some(categoryId) &&
        page.posts[i].id == rows[i].id && page.posts[i].isDeepResearch == Some(DeepResearchFlag(rows[i]))) &&
      (forall p :: p in page.posts ==> p.category == PageCategory(db, categoryId)) &&
      (UniqueIds(db.posts.rows) ==> FeedDescending(page.posts))
    ensures db.posts.up && UniqueIds(db.posts.rows) ==>
      var rows := FirstPosts(db, categoryId).rows;
      forall x :: x in db.posts.rows && InCategory(categoryId)(x) && x !in rows ==>
        |rows| == FirstPageSize && forall y :: y in rows ==> x.id < y.id
  {
    CategoryFeedNewest(db, categoryId);
    SelectPostsSound(db.posts, InCategory(categoryId), Some(FirstPageSize));
    if db.posts.up {
      SelectPostsEmpty(db.posts, InCategory(categoryId), FirstPageSize);
      var rows := FirstPosts(db, categoryId).rows;
      forall i | 0 <= i < |rows| ensures rows[i] in db.posts.rows && InCategory(categoryId)(rows[i]) {
        assert rows[i] in rows;
      }
    }
  }

  /**
   * The first page and the loader's later pages agree on a found category:
   * for a truthy category id, a post of the category gets the same record
   * either way.
   */
  lemma FirstPageMatchesLoader(db: Db, categoryId: int, row: PostRow, page: seq<PostRow>)
    requires categoryId != 0 && row.category == Some(categoryId)
    requires SingleCategory(db.categories, categoryId).Some?
    ensures CategoryPost(row, PageCategory(db, categoryId)) ==
      LoaderPost(row, PageCategoryMap(db, page, Some(categoryId)), categoryId)
  {
  }

  /**
   * When the category lookup fails, the first page labels its posts
   * `Категория` while the loader's later pages label the same posts
   * `Без категория`.
   */
  lemma FallbackLabelsDiffer(db: Db, categoryId: int, row: PostRow, page: seq<PostRow>)
    requires SingleCategory(db.categories, categoryId).None?
    ensures CategoryPost(row, PageCategory(db, categoryId)).category.name == Some(FallbackCategoryName)
    ensures LoaderPost(row, PageCategoryMap(db, page, Some(categoryId)), categoryId).category.name == Some(UncategorisedName)
    ensures FallbackCategoryName != UncategorisedName
  {
    assert |FallbackCategoryName| != |UncategorisedName|;
  }

  /**
   * The first page holds the newest qualifying posts: with unique ids, a
   * qualifying post left out means the page is full and every post on it is
   * newer.
   */
  lemma CategoryFeedNewest(db: Db, categoryId: int)
    ensures db.posts.up && UniqueIds(db.posts.rows) ==>
      var rows := FirstPosts(db, categoryId).rows;
      forall x :: x in db.posts.rows && InCategory(categoryId)(x) && x !in rows ==>
        |rows| == FirstPageSize && forall y :: y in rows ==> x.id < y.id
  {
    if db.posts.up && UniqueIds(db.posts.rows) {
      forall x | x in db.posts.rows && InCategory(categoryId)(x) && x !in FirstPosts(db, categoryId).rows
        ensures |FirstPosts(db, categoryId).rows| == FirstPageSize
        ensures forall y :: y in FirstPosts(db, categoryId).rows ==> x.id < y.id
      {
        SelectPostsNewest(db.posts, InCategory(categoryId), FirstPageSize, x);
      }
    }
  }
}
