/**
 * The client-side feed controller `InfiniteScrollLoader`: it holds the posts
 * shown so far, the id of the last one (the cursor), and the `loading` and
 * `allLoaded` flags; near the bottom of the page it asks the store for the
 * next five posts below the cursor, joins each to its category, and appends
 * them.
 */
module InfiniteScroll {
  import opened Wrappers
  import opened Seqs
  import opened Store

  const PageSize: nat := 5

  /** The filter of the next-page query: live, below the cursor, and in the category when one is set. */
  function PageFilter(last: int, categoryId: Option<int>): PostRow -> bool {
    (r: PostRow) => !r.isDeleted && r.id < last && (categoryId.None? || r.category == Some(categoryId.value))
  }

  /** The next-page query: `id < last`, newest first, at most five. */
  function NextPage(db: Db, last: int, categoryId: Option<int>): Response<PostRow> {
    SelectPosts(db.posts, PageFilter(last, categoryId), Some(PageSize))
  }

  /**
   * A next page holds at most five live posts below the cursor, in the
   * category when one is set, newest first; the query fails only when the
   * store does.
   */
  lemma NextPageSound(db: Db, last: int, categoryId: Option<int>)
    ensures NextPage(db, last, categoryId).Failed? <==> !db.posts.up
    ensures NextPage(db, last, categoryId).Rows? ==>
      var rows := NextPage(db, last, categoryId).rows;
      |rows| <= PageSize &&
      (forall r :: r in rows ==>
        (r in db.posts.rows && !r.isDeleted && r.id < last && (categoryId.Some? ==> r.category == categoryId))) &&
      (UniqueIds(db.posts.rows) ==> IdsDescending(rows))
  {
    SelectPostsSound(db.posts, PageFilter(last, categoryId), Some(PageSize));
  }

  /**
   * The next page skips no post: with unique ids, a live post below the
   * cursor (in the category when one is set) that the page leaves out means
   * the page is full and every post on it is newer.
   */
  lemma NextPageSkipsNothing(db: Db, last: int, categoryId: Option<int>)
    requires db.posts.up && UniqueIds(db.posts.rows)
    ensures var rows := NextPage(db, last, categoryId).rows;
      forall x ::
        x in db.posts.rows && !x.isDeleted && x.id < last &&
        (categoryId.None? || x.category == Some(categoryId.value)) && x !in rows
        ==> |rows| == PageSize && forall y :: y in rows ==> x.id < y.id
  {
    var rows := NextPage(db, last, categoryId).rows;
    forall x | x in db.posts.rows && PageFilter(last, categoryId)(x) && x !in rows
      ensures |rows| == PageSize && forall y :: y in rows ==> x.id < y.id
    {
      SelectPostsNewest(db.posts, PageFilter(last, categoryId), PageSize, x);
    }
  }

  /**
   * What the next page does to the feed: nothing when the query fails, the
   * end of the feed when it comes back empty, or more posts with the new
   * cursor (the id of the last row fetched).
   */
  datatype Outcome = QueryFailed | NoMore | More(posts: seq<FeedPost>, cursor: int)

  function NextOutcome(db: Db, last: int, categoryId: Option<int>): (r: Outcome)
    ensures r.QueryFailed? <==> !db.posts.up
    ensures r.More? ==> r.posts != [] && |r.posts| <= PageSize && r.posts[|r.posts| - 1].id == r.cursor
  {
    NextPageSound(db, last, categoryId);
    var response := NextPage(db, last, categoryId);
    if response.Failed? then QueryFailed
    else if response.rows == [] then NoMore
    else
      var rows := response.rows;
      More(LoaderPosts(rows, PageCategoryMap(db, rows, categoryId), categoryId.GetOr(0)), rows[|rows| - 1].id)
  }

  /** Appending the next page to a descending feed keeps it descending, given unique ids. */
  lemma NextKeepsDescending(db: Db, before: seq<FeedPost>, last: int, categoryId: Option<int>)
    requires before != [] && last == before[|before| - 1].id
    ensures NextOutcome(db, last, categoryId).More? && FeedDescending(before) && UniqueIds(db.posts.rows) ==>
      FeedDescending(before + NextOutcome(db, last, categoryId).posts)
  {
    var o := NextOutcome(db, last, categoryId);
    if o.More? && FeedDescending(before) && UniqueIds(db.posts.rows) {
      NextOutcomeBelowCursor(db, last, categoryId);
      AppendBelowCursor(before, o.posts);
    }
  }

  /** The query of `loadMorePosts` and, for a non-empty page, its category lookup. */
  method FetchNext(db: Db, last: int, categoryId: Option<int>) returns (outcome: Outcome)
    ensures outcome == NextOutcome(db, last, categoryId)
    ensures outcome.More? ==> outcome.posts != [] && outcome.posts[|outcome.posts| - 1].id == outcome.cursor
  {
    var response := NextPage(db, last, categoryId);
    if response.Failed? {
      return QueryFailed;
    }
    var rows := response.rows;
    if rows == [] {
      return NoMore;
    }
    var m := FetchCategories(db, rows, categoryId);
    outcome := More(LoaderPosts(rows, m, categoryId.GetOr(0)), rows[|rows| - 1].id);
  }

  /**
   * The query fails only when the store does; more posts are never empty,
   * end at the new cursor, and, with unique ids, are all below the old
   * cursor in strictly decreasing order.
   */
  lemma NextOutcomeBelowCursor(db: Db, last: int, categoryId: Option<int>)
    ensures NextOutcome(db, last, categoryId).QueryFailed? <==> !db.posts.up
    ensures NextOutcome(db, last, categoryId).More? ==>
      var ps := NextOutcome(db, last, categoryId).posts;
      ps != [] && ps[|ps| - 1].id == NextOutcome(db, last, categoryId).cursor
    ensures NextOutcome(db, last, categoryId).More? && UniqueIds(db.posts.rows) ==>
      var ps := NextOutcome(db, last, categoryId).posts;
      FeedDescending(ps) && forall p :: p in ps ==> p.id < last
  {
    NextPageSound(db, last, categoryId);
    var response := NextPage(db, last, categoryId);
    if response.Rows? && response.rows != [] && UniqueIds(db.posts.rows) {
      var rows := response.rows;
      LoaderPostsKeepIds(rows, PageCategoryMap(db, rows, categoryId), categoryId.GetOr(0), last);
    }
  }

  /** The distinct truthy category ids of a page (`new Set(...filter(Boolean))`). */
  function CategoryIds(rows: seq<PostRow>): set<int> {
    set r | r in rows && TruthyId(r.category) :: r.category.value
  }

  function IdIn(ids: set<int>): CategoryRow -> bool {
    (c: CategoryRow) => c.id in ids
  }

  /** The map fetched with one `in` query holds only the asked-for ids, each bound to its stored row. */
  lemma FetchedMapSound(db: Db, ids: set<int>)
    ensures var m := CategoryMap(RowsOr(SelectCategories(db.categories, IdIn(ids))));
      m.Keys <= ids && forall k :: k in m ==> exists c :: c in db.categories.rows && c.id == k && m[k] == InfoOf(c)
  {
    if db.categories.up {
      forall k | k in CategoryMap(Filter(db.categories.rows, IdIn(ids)))
        ensures k in ids
        ensures exists c :: c in db.categories.rows && c.id == k && CategoryMap(Filter(db.categories.rows, IdIn(ids)))[k] == InfoOf(c)
      {
        CategoryMapFrom(db.categories.rows, IdIn(ids), k);
      }
    }
  }

  /**
   * The category map of one page: with a category set, that category alone
   * (looked up with `single`); otherwise every category whose id the page
   * uses, fetched with one `in` query. A failed lookup leaves the map empty.
   */
  function PageCategoryMap(db: Db, rows: seq<PostRow>, categoryId: Option<int>): (m: map<int, CategoryInfo>)
    ensures categoryId.Some? ==> m.Keys <= {categoryId.value}
    ensures categoryId.None? ==> m.Keys <= CategoryIds(rows)
    ensures forall k :: k in m ==> exists c :: c in db.categories.rows && c.id == k && m[k] == InfoOf(c)
  {
    if categoryId.Some? then
      var c := SingleCategory(db.categories, categoryId.value);
      if c.Some? then map[categoryId.value := InfoOf(c.value)] else map[]
    else if CategoryIds(rows) == {} then map[]
    else
      FetchedMapSound(db, CategoryIds(rows));
      CategoryMap(RowsOr(SelectCategories(db.categories, IdIn(CategoryIds(rows)))))
  }

  /** One fetched row as a feed post: its category resolved, or the fallback with `fallbackId`. */
  function LoaderPost(row: PostRow, m: map<int, CategoryInfo>, fallbackId: int): (p: FeedPost)
    ensures p.id == row.id && p.isDeepResearch == Some(DeepResearchFlag(row))
    ensures p.category == ResolveCategory(row.category, m, Uncategorised(fallbackId))
  {
    FeedPost(
      row.id, row.title, None, row.shortContent, row.description, row.image, row.slug,
      row.externalLink, None, Some(DeepResearchFlag(row)),
      ResolveCategory(row.category, m, Uncategorised(fallbackId)))
  }

  /** `postsData.map(...)`: one feed post per row, in order. */
  function LoaderPosts(rows: seq<PostRow>, m: map<int, CategoryInfo>, fallbackId: int): (r: seq<FeedPost>)
    ensures |r| == |rows|
    ensures forall i :: 0 <= i < |rows| ==> r[i] == LoaderPost(rows[i], m, fallbackId)
  {
    seq(|rows|, i requires 0 <= i < |rows| => LoaderPost(rows[i], m, fallbackId))
  }

  /**
   * The category lookup of `loadMorePosts`: the single category, or one `in`
   * query whose rows fill the map in a `forEach` loop.
   */
  method FetchCategories(db: Db, rows: seq<PostRow>, categoryId: Option<int>) returns (m: map<int, CategoryInfo>)
    ensures m == PageCategoryMap(db, rows, categoryId)
  {
    m := map[];
    if categoryId.Some? {
      var c := SingleCategory(db.categories, categoryId.value);
      if c.Some? {
        m := m[categoryId.value := InfoOf(c.value)];
      }
    } else {
      var ids := CategoryIds(rows);
      if ids != {} {
        var found := SelectCategories(db.categories, IdIn(ids));
        if found.Rows? {
          m := BuildCategoryMap(found.rows);
        }
      }
    }
  }

  /**
   * Appending a page of posts below the cursor to a strictly decreasing list
   * that ends at the cursor keeps it strictly decreasing.
   */
  lemma AppendBelowCursor(before: seq<FeedPost>, page: seq<FeedPost>)
    requires before != [] && FeedDescending(before) && FeedDescending(page)
    requires forall p :: p in page ==> p.id < before[|before| - 1].id
    ensures FeedDescending(before + page)
  {
    var all := before + page;
    forall i, j | 0 <= i < j < |all| ensures all[i].id > all[j].id {
      if j >= |before| && i < |before| {
        assert all[j] == page[j - |before|];
        assert page[j - |before|] in page;
      }
    }
  }

  /** Converting a page of rows keeps their ids, hence their order and their bound. */
  lemma LoaderPostsKeepIds(rows: seq<PostRow>, m: map<int, CategoryInfo>, fallbackId: int, last: int)
    requires IdsDescending(rows) && forall r :: r in rows ==> r.id < last
    ensures FeedDescending(LoaderPosts(rows, m, fallbackId))
    ensures forall p :: p in LoaderPosts(rows, m, fallbackId) ==> p.id < last
  {
    var ps := LoaderPosts(rows, m, fallbackId);
    forall p | p in ps ensures p.id < last {
      var k :| 0 <= k < |ps| && ps[k] == p;
      assert rows[k] in rows;
    }
  }

  /**
   * What a first-page loader renders: the error panel, the empty panel, or
   * the loader mounted on the first posts (with the category it keeps later
   * pages in, if any).
   */
  datatype FirstPage = ErrorPanel | EmptyPanel | Feed(posts: seq<FeedPost>, loaderCategory: Option<int>)

  /** The scroll handler's condition for asking for more posts. */
  predicate ShouldLoad(nearBottom: bool, loading: bool, allLoaded: bool) {
    nearBottom && !loading && !allLoaded
  }

  class Loader {
    var posts: seq<FeedPost>
    var lastId: Option<int>
    var loading: bool
    var allLoaded: bool
    const initialCount: nat
    const categoryId: Option<int>

    /** The cursor is the id of the last post shown, and no post is ever dropped. */
    predicate Valid()
      reads this
    {
      |posts| >= initialCount &&
      (posts == [] ==> lastId.None?) &&
      (posts != [] ==> lastId == Some(posts[|posts| - 1].id))
    }

    constructor(initialPosts: seq<FeedPost>, categoryId: Option<int>)
      ensures Valid()
      ensures posts == initialPosts && initialCount == |initialPosts| && this.categoryId == categoryId
      ensures lastId == if initialPosts == [] then None else Some(initialPosts[|initialPosts| - 1].id)
      ensures !loading && !allLoaded
    {
      posts := initialPosts;
      lastId := if initialPosts == [] then None else Some(initialPosts[|initialPosts| - 1].id);
      loading := false;
      allLoaded := false;
      initialCount := |initialPosts|;
      this.categoryId := categoryId;
    }

    /** The end-of-feed message: everything is loaded and more than the first page is shown. */
    predicate ShowsEndMessage()
      reads this
      ensures ShowsEndMessage() ==> allLoaded && |posts| > 0 && !ShouldLoad(true, loading, allLoaded)
    {
      allLoaded && |posts| > initialCount
    }

    /**
     * The guard of `loadMorePosts` and `setLoading(true)`: nothing happens
     * while loading, after the end, or without a truthy cursor (a cursor of 0
     * blocks too).
     */
    method Begin() returns (started: bool)
      modifies this
      ensures started <==> old(!loading && !allLoaded && TruthyId(lastId))
      ensures loading == (old(loading) || started)
      ensures posts == old(posts) && lastId == old(lastId) && allLoaded == old(allLoaded)
    {
      if loading || allLoaded || !TruthyId(lastId) {
        return false;
      }
      loading := true;
      return true;
    }

    /**
     * The rest of `loadMorePosts`, once the query has answered: on an error
     * nothing but `loading` changes; an empty page marks the feed exhausted;
     * otherwise the new posts are appended and the cursor moves to the last.
     */
    method Complete(outcome: Outcome)
      requires Valid() && loading && TruthyId(lastId)
      requires outcome.More? ==> outcome.posts != [] && outcome.posts[|outcome.posts| - 1].id == outcome.cursor
      modifies this
      ensures Valid() && !loading
      ensures old(allLoaded) ==> allLoaded
      ensures outcome.QueryFailed? ==> posts == old(posts) && lastId == old(lastId) && allLoaded == old(allLoaded)
      ensures outcome.NoMore? ==> posts == old(posts) && lastId == old(lastId) && allLoaded
      ensures outcome.More? ==>
        posts == old(posts) + outcome.posts && lastId == Some(outcome.cursor) && allLoaded == old(allLoaded)
    {
      match outcome
      case QueryFailed =>
        loading := false;
      case NoMore =>
        allLoaded := true;
        loading := false;
      case More(newPosts, _) =>
        Append(newPosts);
    }

    /** Appends a non-empty page and moves the cursor to its last post. */
    method Append(newPosts: seq<FeedPost>)
      requires Valid() && newPosts != []
      modifies this
      ensures Valid() && !loading
      ensures posts == old(posts) + newPosts && lastId == Some(newPosts[|newPosts| - 1].id)
      ensures allLoaded == old(allLoaded)
    {
      posts := posts + newPosts;
      lastId := Some(newPosts[|newPosts| - 1].id);
      loading := false;
      assert posts[|posts| - 1] == newPosts[|newPosts| - 1];
    }

    /** `loadMorePosts` run to completion without another scroll event in between. */
    method LoadMorePosts(db: Db)
      requires Valid()
      modifies this
      ensures Valid() && loading == old(loading)
      ensures old(allLoaded) ==> allLoaded
      ensures !old(!loading && !allLoaded && TruthyId(lastId)) ==>
        posts == old(posts) && lastId == old(lastId) && allLoaded == old(allLoaded)
      ensures old(!loading && !allLoaded && TruthyId(lastId)) ==>
        var o := NextOutcome(db, old(lastId).value, categoryId);
        (o.More? ==> posts == old(posts) + o.posts) && (!o.More? ==> posts == old(posts)) && (o.NoMore? <==> allLoaded)
      ensures old(FeedDescending(posts)) && UniqueIds(db.posts.rows) ==> FeedDescending(posts)
    {
      ghost var before := posts;
      var started := Begin();
      if started {
        var last := lastId.value;
        var outcome := FetchNext(db, last, categoryId);
        Complete(outcome);
        NextKeepsDescending(db, before, last, categoryId);
      }
    }

    /**
     * The scroll handler: near the bottom, not loading and not exhausted, it
     * starts a load.
     */
    method OnScroll(nearBottom: bool) returns (started: bool)
      modifies this
      ensures started <==> old(ShouldLoad(nearBottom, loading, allLoaded) && TruthyId(lastId))
      ensures loading == (old(loading) || started)
      ensures posts == old(posts) && lastId == old(lastId) && allLoaded == old(allLoaded)
    {
      if ShouldLoad(nearBottom, loading, allLoaded) {
        started := Begin();
      } else {
        started := false;
      }
    }
  }
}
