/**
 * The hosted content database, reduced to what the pages ask of it: a posts
 * table and a categories table, each either reachable or failing, and
 * queries made of an equality/comparison filter, `order by ... desc` and
 * `limit`. Also the feed's post record with its denormalised category, and
 * the id-keyed category map that three of the feed loaders build.
 */
module Store {
  import opened Wrappers
  import opened Seqs

  /** A row of the `posts` table, with the columns any page selects. */
  datatype PostRow = PostRow(
    id: int,
    title: string,
    content: Option<string>,
    shortContent: Option<string>,
    description: Option<string>,
    image: Option<string>,
    slug: Option<string>,
    externalLink: Option<string>,
    publishedAt: Option<string>,
    author: Option<string>,
    category: Option<int>,
    isDeleted: bool,
    isDeepResearch: Option<bool>,
    embeddedCategories: Embed)

  /**
   * What the store returns for the embedded relation `categories(id, name)`:
   * nothing, a single object, or an array of objects (only their names are used).
   */
  datatype Embed = EmbedNull | EmbedObject(name: Option<string>) | EmbedArray(names: seq<Option<string>>)

  /** A row of the `categories` table. */
  datatype CategoryRow = CategoryRow(id: int, name: Option<string>, color: string, isDeleted: bool)

  /** A table and whether queries against it currently succeed. */
  datatype Table<T> = Table(rows: seq<T>, up: bool)

  datatype Db = Db(posts: Table<PostRow>, categories: Table<CategoryRow>)

  /** The outcome of one query: the rows, or the store's error. */
  datatype Response<T> = Rows(rows: seq<T>) | Failed

  /** The category object a feed post carries. */
  datatype CategoryInfo = CategoryInfo(id: int, name: Option<string>, color: string)

  /** The feed's `Post` record: a post row with its category resolved. */
  datatype FeedPost = FeedPost(
    id: int,
    title: string,
    content: Option<string>,
    shortContent: Option<string>,
    description: Option<string>,
    image: Option<string>,
    slug: Option<string>,
    externalLink: Option<string>,
    publishedAt: Option<string>,
    isDeepResearch: Option<bool>,
    category: CategoryInfo)

  const UncategorisedName: string := "Без категория"
  const FallbackColor: string := "#e5e5e5"

  /** The category object used when a post's category cannot be resolved. */
  function Uncategorised(id: int): CategoryInfo {
    CategoryInfo(id, Some(UncategorisedName), FallbackColor)
  }

  /** JavaScript truthiness of a nullable numeric column: present and not 0. */
  predicate TruthyId(c: Option<int>) {
    c.Some? && c.value != 0
  }

  /** `post.is_deep_research || false`. */
  function DeepResearchFlag(row: PostRow): bool {
    row.isDeepResearch == Some(true)
  }

  // ---------------------------------------------------------------------
  // Queries: filter, order by a key descending, limit

  function PostId(p: PostRow): int { p.id }

  /** `eq('isdeleted', false)` on posts. */
  predicate Live(p: PostRow) { !p.isDeleted }

  /** `eq('isdeleted', false)` on categories. */
  predicate LiveCategory(c: CategoryRow) { !c.isDeleted }

  /** `eq('id', id)` on categories. */
  function IdIs(id: int): CategoryRow -> bool {
    (c: CategoryRow) => c.id == id
  }

  /** `select ... where p order by id desc [limit n]` on the posts table. */
  function SelectPosts(t: Table<PostRow>, p: PostRow -> bool, limit: Option<nat>): Response<PostRow>
  {
    if !t.up then Failed
    else
      var sorted := SortDescBy(Filter(t.rows, p), PostId);
      Rows(if limit.Some? then Take(sorted, limit.value) else sorted)
  }

  /** `select ... where p` on the categories table, in the table's order. */
  function SelectCategories(t: Table<CategoryRow>, p: CategoryRow -> bool): Response<CategoryRow>
  {
    if t.up then Rows(Filter(t.rows, p)) else Failed
  }

  /**
   * `select ... where id = ... .single()`: the row when exactly one matches;
   * none or several make the store answer with an error and no data.
   */
  function SingleCategory(t: Table<CategoryRow>, id: int): (r: Option<CategoryRow>)
    ensures r.Some? <==> t.up && |Filter(t.rows, IdIs(id))| == 1
    ensures r.Some? ==> r.value in t.rows && r.value.id == id
  {
    var matches := Filter(t.rows, IdIs(id));
    if t.up && |matches| == 1 then
      assert matches[0] in matches;
      Some(matches[0])
    else None
  }

  /** The rows of a response, or `null` data read as no rows. */
  function RowsOr<T>(r: Response<T>): seq<T> {
    if r.Rows? then r.rows else []
  }

  predicate UniqueIds(s: seq<PostRow>) {
    forall i, j :: 0 <= i < j < |s| ==> s[i].id != s[j].id
  }

  predicate IdsDescending(s: seq<PostRow>) {
    forall i, j :: 0 <= i < j < |s| ==> s[i].id > s[j].id
  }

  /** Feed posts in strictly decreasing id order. */
  predicate FeedDescending(s: seq<FeedPost>) {
    forall i, j :: 0 <= i < j < |s| ==> s[i].id > s[j].id
  }

  lemma {:induction false} InsertStrict(x: PostRow, s: seq<PostRow>)
    requires IdsDescending(s)
    requires forall y :: y in s ==> y.id != x.id
    ensures IdsDescending(Insert(x, s, PostId))
  {
    if s != [] && x.id < s[0].id {
      var rest := Insert(x, s[1..], PostId);
      assert IdsDescending(rest) by {
        InsertStrict(x, s[1..]);
      }
      assert forall y :: y in rest ==> y.id < s[0].id by {
        forall y | y in rest ensures y.id < s[0].id {
          assert y in multiset(s[1..]) + multiset{x};
        }
      }
      assert Insert(x, s, PostId) == [s[0]] + rest;
      ConsStrict(s[0], rest);
    }
  }

  lemma ConsStrict(x: PostRow, s: seq<PostRow>)
    requires IdsDescending(s) && forall y :: y in s ==> y.id < x.id
    ensures IdsDescending([x] + s)
  {
    var r := [x] + s;
    forall i, j | 0 <= i < j < |r| ensures r[i].id > r[j].id {
      assert r[j] == s[j - 1];
      if i > 0 {
        assert r[i] == s[i - 1];
      } else {
        assert s[j - 1] in s;
      }
    }
  }

  /** With unique ids, `order by id desc` yields strictly decreasing ids. */
  lemma {:induction false} SortStrict(s: seq<PostRow>)
    requires UniqueIds(s)
    ensures IdsDescending(SortDescBy(s, PostId))
  {
    if s != [] {
      assert UniqueIds(s[1..]);
      SortStrict(s[1..]);
      var sorted := SortDescBy(s[1..], PostId);
      forall y | y in sorted ensures y.id != s[0].id {
        assert y in multiset(s[1..]);
        var k :| 0 <= k < |s[1..]| && s[1..][k] == y;
        assert s[k + 1] == y;
      }
      InsertStrict(s[0], sorted);
    }
  }

  lemma FilterUnique(s: seq<PostRow>, p: PostRow -> bool)
    requires UniqueIds(s)
    ensures UniqueIds(Filter(s, p))
  {
    if s != [] {
      FilterUnique(s[1..], p);
      assert UniqueIds(s[1..]);
      if p(s[0]) {
        var r := Filter(s, p);
        forall i, j | 0 <= i < j < |r| ensures r[i].id != r[j].id {
          if i == 0 {
            assert r[j] in s[1..];
          }
        }
      }
    }
  }

  /** A prefix of an ordered sequence of rows is ordered the same way. */
  lemma PrefixOrdered(s: seq<PostRow>, n: nat)
    requires n <= |s|
    ensures SortedDescBy(s, PostId) ==> SortedDescBy(s[..n], PostId)
    ensures IdsDescending(s) ==> IdsDescending(s[..n])
  {
    var r := s[..n];
    assert forall i :: 0 <= i < n ==> r[i] == s[i];
  }

  /**
   * A posts query answers with rows that pass its filter, at most `limit` of
   * them, each from the table, and in decreasing id order; with unique ids
   * (the table's primary key) the order is strict.
   */
  lemma SelectPostsSound(t: Table<PostRow>, p: PostRow -> bool, limit: Option<nat>)
    ensures SelectPosts(t, p, limit).Failed? <==> !t.up
    ensures SelectPosts(t, p, limit).Rows? ==>
      var r := SelectPosts(t, p, limit).rows;
      (limit.Some? ==> |r| <= limit.value) &&
      (forall x :: x in r ==> x in t.rows && p(x)) &&
      SortedDescBy(r, PostId) &&
      (UniqueIds(t.rows) ==> IdsDescending(r))
  {
    if t.up {
      var f := Filter(t.rows, p);
      var sorted := SortDescBy(f, PostId);
      var r := SelectPosts(t, p, limit).rows;
      assert r == sorted[..|r|];
      if UniqueIds(t.rows) {
        FilterUnique(t.rows, p);
        SortStrict(f);
      }
      PrefixOrdered(sorted, |r|);
      forall x | x in r ensures x in t.rows && p(x) {
        assert x in sorted;
        assert x in multiset(f);
      }
    }
  }

  /**
   * Without a limit, the query returns every qualifying row: none is lost.
   */
  lemma SelectPostsComplete(t: Table<PostRow>, p: PostRow -> bool)
    requires t.up
    ensures forall x :: x in t.rows && p(x) ==> x in SelectPosts(t, p, None).rows
  {
    var f := Filter(t.rows, p);
    forall x | x in t.rows && p(x) ensures x in SelectPosts(t, p, None).rows {
      assert x in multiset(f);
    }
  }

  /**
   * A query with a limit returns the newest qualifying rows: with unique ids,
   * a qualifying row left out means the answer is full and every row in it
   * is newer.
   */
  lemma SelectPostsNewest(t: Table<PostRow>, p: PostRow -> bool, limit: nat, x: PostRow)
    requires t.up && UniqueIds(t.rows) && x in t.rows && p(x)
    requires x !in SelectPosts(t, p, Some(limit)).rows
    ensures var rows := SelectPosts(t, p, Some(limit)).rows;
      |rows| == limit && forall y :: y in rows ==> x.id < y.id
  {
    var f := Filter(t.rows, p);
    assert x in multiset(f);
    FilterUnique(t.rows, p);
    SortStrict(f);
    TakeNewest(SortDescBy(f, PostId), limit, x);
  }

  /** Cutting a strictly descending sequence keeps every element above one it cuts off. */
  lemma TakeNewest(sorted: seq<PostRow>, limit: nat, x: PostRow)
    requires IdsDescending(sorted) && x in sorted && x !in Take(sorted, limit)
    ensures |Take(sorted, limit)| == limit && forall y :: y in Take(sorted, limit) ==> x.id < y.id
  {
    var rows := Take(sorted, limit);
    var j :| 0 <= j < |sorted| && sorted[j] == x;
    forall y | y in rows ensures x.id < y.id {
      var i :| 0 <= i < |rows| && rows[i] == y;
      assert sorted[i] == y;
    }
  }

  /** A posts query with a positive limit answers with no rows exactly when no row passes its filter. */
  lemma SelectPostsEmpty(t: Table<PostRow>, p: PostRow -> bool, limit: nat)
    requires t.up && limit > 0
    ensures SelectPosts(t, p, Some(limit)).rows == [] <==> forall x :: x in t.rows ==> !p(x)
  {
    var f := Filter(t.rows, p);
    if f != [] {
      assert f[0] in f;
    }
  }

  // ---------------------------------------------------------------------
  // The id-keyed category map of the feed loaders

  function InfoOf(c: CategoryRow): CategoryInfo {
    CategoryInfo(c.id, c.name, c.color)
  }

  /** The map after `map.set(c.id, {id, name, color})` for each row in order: later rows win. */
  function CategoryMap(rows: seq<CategoryRow>): map<int, CategoryInfo>
  {
    if rows == [] then map[]
    else CategoryMap(rows[..|rows| - 1])[rows[|rows| - 1].id := InfoOf(rows[|rows| - 1])]
  }

  /** Every entry of a map built from the rows of a filtered query comes from a row that passes the filter. */
  lemma CategoryMapFrom(rows: seq<CategoryRow>, p: CategoryRow -> bool, k: int)
    requires k in CategoryMap(Filter(rows, p))
    ensures exists c :: c in rows && p(c) && c.id == k && CategoryMap(Filter(rows, p))[k] == InfoOf(c)
  {
    var f := Filter(rows, p);
    CategoryMapLastWins(f, k);
    var i :| 0 <= i < |f| && f[i].id == k && CategoryMap(f)[k] == InfoOf(f[i]) &&
      forall j :: i < j < |f| ==> f[j].id != k;
    assert f[i] in f;
  }

  /** The map holds exactly the ids of the rows, each bound to the last row with that id. */
  lemma {:induction false} CategoryMapLastWins(rows: seq<CategoryRow>, k: int)
    ensures k in CategoryMap(rows) <==> exists i :: 0 <= i < |rows| && rows[i].id == k
    ensures k in CategoryMap(rows) ==>
      exists i :: 0 <= i < |rows| && rows[i].id == k && CategoryMap(rows)[k] == InfoOf(rows[i]) &&
        forall j :: i < j < |rows| ==> rows[j].id != k
  {
    if rows != [] {
      var init := rows[..|rows| - 1];
      CategoryMapLastWins(init, k);
      var last := |rows| - 1;
      if rows[last].id != k {
        if k in CategoryMap(rows) {
          var i :| 0 <= i < |init| && init[i].id == k && CategoryMap(init)[k] == InfoOf(init[i]) &&
            forall j :: i < j < |init| ==> init[j].id != k;
          assert rows[i] == init[i];
          assert forall j :: i < j < |rows| ==> rows[j].id != k by {
            forall j | i < j < |rows| ensures rows[j].id != k {
              if j < last { assert rows[j] == init[j]; }
            }
          }
        } else {
          forall i | 0 <= i < |rows| ensures rows[i].id != k {
            if i < last { assert rows[i] == init[i]; }
          }
        }
      } else {
        assert rows[last].id == k;
      }
    }
  }

  /** The `forEach` loop that fills the category map. */
  method BuildCategoryMap(rows: seq<CategoryRow>) returns (m: map<int, CategoryInfo>)
    ensures m == CategoryMap(rows)
  {
    m := map[];
    var i := 0;
    while i < |rows|
      invariant 0 <= i <= |rows|
      invariant m == CategoryMap(rows[..i])
    {
      assert rows[..i + 1][..i] == rows[..i];
      m := m[rows[i].id := InfoOf(rows[i])];
      i := i + 1;
    }
    assert rows[..|rows|] == rows;
  }

  /**
   * `post.category && map.has(post.category) ? map.get(post.category) : fallback`.
   */
  function ResolveCategory(ref: Option<int>, m: map<int, CategoryInfo>, fallback: CategoryInfo): (c: CategoryInfo)
    ensures TruthyId(ref) && ref.value in m ==> c == m[ref.value]
    ensures !(TruthyId(ref) && ref.value in m) ==> c == fallback
  {
    if TruthyId(ref) && ref.value in m then m[ref.value] else fallback
  }

  /**
   * Resolving a post's category against the map of a category query: the
   * post gets a category row's own data exactly when its reference is truthy,
   * the query succeeds and some row passing the filter has that id; in every
   * other case it gets the fallback.
   */
  lemma ResolveFromQuery(ref: Option<int>, t: Table<CategoryRow>, p: CategoryRow -> bool, fallback: CategoryInfo)
    ensures var c := ResolveCategory(ref, CategoryMap(RowsOr(SelectCategories(t, p))), fallback);
      if TruthyId(ref) && t.up && (exists row :: row in t.rows && p(row) && row.id == ref.value)
      then exists row :: row in t.rows && p(row) && row.id == ref.value && c == InfoOf(row)
      else c == fallback
  {
    var rows := RowsOr(SelectCategories(t, p));
    if TruthyId(ref) && t.up {
      var k := ref.value;
      assert rows == Filter(t.rows, p);
      CategoryMapLastWins(rows, k);
      if exists row :: row in t.rows && p(row) && row.id == k {
        var row :| row in t.rows && p(row) && row.id == k;
        var i :| 0 <= i < |rows| && rows[i] == row;
        CategoryMapFrom(t.rows, p, k);
      }
    } else if TruthyId(ref) {
      assert rows == [];
    }
  }
}
