/**
 * The `/business` and `/technology` pages: each picks, among the live
 * categories, the first whose lower-cased name starts with one of two
 * prefixes, and shows that category's feed, or a "category not available"
 * panel when there is none.
 */
module SectionPages {
  import opened Wrappers
  import opened Text
  import opened Seqs
  import opened Store
  import InfiniteScroll
  import CategoryFeed
  import SeoUtils
  import SeoMetadata

  /** `c.name?.toLowerCase().startsWith(a) || ... startsWith(b)`: a missing name matches nothing. */
  function NamedLike(a: string, b: string): CategoryRow -> bool {
    (c: CategoryRow) => c.name.Some? && (StartsWith(Lower(c.name.value), a) || StartsWith(Lower(c.name.value), b))
  }

  /** What the page shows below its heading. */
  datatype Section = Unavailable | Shows(categoryId: int, feed: InfiniteScroll.FirstPage)

  /**
   * The page: the live categories (none when the query fails), the first one
   * named like the section, and its feed when its id is truthy.
   */
  function SectionPage(db: Db, a: string, b: string): (r: Section)
    ensures r.Shows? ==> db.categories.up && r.categoryId != 0 && r.feed == CategoryFeed.CategoryFeedPage(db, r.categoryId)
    ensures r.Shows? ==> exists c :: c in db.categories.rows && LiveCategory(c) && NamedLike(a, b)(c) && c.id == r.categoryId
    ensures !db.categories.up ==> r == Unavailable
  {
    var categories := RowsOr(SelectCategories(db.categories, LiveCategory));
    var k := FindIndex(categories, NamedLike(a, b));
    if k == -1 || categories[k].id == 0 then Unavailable
    else Shows(categories[k].id, CategoryFeed.CategoryFeedPage(db, categories[k].id))
  }

  function BusinessPage(db: Db): (r: Section)
    ensures r.Shows? ==>
      exists c :: c in db.categories.rows && LiveCategory(c) && c.id == r.categoryId && c.name.Some? &&
        (StartsWith(Lower(c.name.value), "business") || StartsWith(Lower(c.name.value), "бизнес"))
  {
    SectionPage(db, "business", "бизнес")
  }

  function TechnologyPage(db: Db): (r: Section)
    ensures r.Shows? ==>
      exists c :: c in db.categories.rows && LiveCategory(c) && c.id == r.categoryId && c.name.Some? &&
        (StartsWith(Lower(c.name.value), "technology") || StartsWith(Lower(c.name.value), "технолог"))
  {
    SectionPage(db, "technology", "технолог")
  }

  /** `rows[i]` is named like the section and no earlier row is. */
  predicate FirstNamedAt(rows: seq<CategoryRow>, i: int, a: string, b: string) {
    0 <= i < |rows| && NamedLike(a, b)(rows[i]) && forall k :: 0 <= k < i ==> !NamedLike(a, b)(rows[k])
  }

  /**
   * The section shows a feed exactly for the first live category, in the
   * query's order, whose name starts with a prefix, provided its id is not
   * 0; with no such category, or when the query fails, the panel is shown.
   */
  lemma SectionPick(db: Db, a: string, b: string)
    ensures SectionPage(db, a, b).Shows? ==> db.categories.up && SectionPage(db, a, b).categoryId != 0
    ensures SectionPage(db, a, b).Shows? ==>
      exists i :: FirstNamedAt(Filter(db.categories.rows, LiveCategory), i, a, b) &&
        Filter(db.categories.rows, LiveCategory)[i].id == SectionPage(db, a, b).categoryId
    ensures SectionPage(db, a, b).Shows? ==>
      SectionPage(db, a, b).feed == CategoryFeed.CategoryFeedPage(db, SectionPage(db, a, b).categoryId)
    ensures (!db.categories.up || forall c :: c in db.categories.rows && LiveCategory(c) ==> !NamedLike(a, b)(c)) ==>
      SectionPage(db, a, b).Unavailable?
  {
    var categories := RowsOr(SelectCategories(db.categories, LiveCategory));
    var k := FindIndex(categories, NamedLike(a, b));
    if k != -1 {
      assert categories[k] in categories;
      if SectionPage(db, a, b).Shows? {
        assert FirstNamedAt(categories, k, a, b);
      }
    }
  }

  /**
   * Conversely, the first live category named like the section is the one
   * shown, unless its id is 0, when the panel is shown instead.
   */
  lemma SectionPickFirst(db: Db, a: string, b: string, i: int)
    requires db.categories.up && FirstNamedAt(Filter(db.categories.rows, LiveCategory), i, a, b)
    ensures var c := Filter(db.categories.rows, LiveCategory)[i];
      SectionPage(db, a, b) == if c.id == 0 then Unavailable else Shows(c.id, CategoryFeed.CategoryFeedPage(db, c.id))
  {
    var rows := Filter(db.categories.rows, LiveCategory);
    assert FindIndex(rows, NamedLike(a, b)) == i;
  }

  /** A category all of whose rows under its id are deleted is never picked, whatever its name. */
  lemma DeletedNeverPicked(db: Db, a: string, b: string, c: CategoryRow)
    requires c in db.categories.rows && c.isDeleted
    requires forall d :: d in db.categories.rows && d.id == c.id ==> d.isDeleted
    ensures SectionPage(db, a, b).Shows? ==> SectionPage(db, a, b).categoryId != c.id
  {
    SectionPick(db, a, b);
    var rows := Filter(db.categories.rows, LiveCategory);
    forall i | 0 <= i < |rows| ensures rows[i].id != c.id {
      assert rows[i] in rows;
    }
  }

  // ---------------------------------------------------------------------
  // Metadata

  const BusinessTitle: string := "Бизнес"
  const BusinessPath: string := "/business"
  const BannerPath: string := "/images/devidsbanner.png"

  /** What the business page hands the SEO helper. */
  const BusinessInput: SeoUtils.SeoInput := SeoUtils.SeoInput(
    BusinessTitle,
    "Публикации за бизнес, стратегия и изграждане на компания от екипа на Devids.",
    ["бизнес", "Devids", "стартъп", "екип", "стратегия", "продукт"],
    Some(BusinessPath), Some(BannerPath), None, None, None, None, None)

  /** The business page's metadata, built by the SEO helper. */
  function BusinessMetadata(): SeoUtils.SeoMetadata {
    SeoUtils.GenerateSEOMetadata(BusinessInput, None)
  }

  /** A title without an `s` or `S` does not name the site, so it gets the suffix. */
  lemma NoSiteInTitle(title: string)
    requires forall i :: 0 <= i < |title| ==> title[i] != 's' && title[i] != 'S'
    ensures SeoUtils.FullTitle(title) == title + SeoUtils.TitleSeparator + SeoUtils.SiteDomain
  {
    if Contains(Lower(title), SeoUtils.SiteDomain) {
      ContainsHead(Lower(title), SeoUtils.SiteDomain);
      assert false;
    }
  }

  /** A path from the site's root is not an absolute URL, so the image is the site's address followed by it. */
  lemma RootedImage(path: string)
    requires |path| >= 1 && path[0] == '/'
    ensures SeoUtils.PageImage(Some(path)) == SeoUtils.BaseUrl + path
  {
    assert |path| >= 7 ==> path[..7][0] == '/';
    assert |path| >= 8 ==> path[..8][0] == '/';
  }

  /**
   * The business page is titled `Бизнес | stox.bg`, its address is the
   * site's `/business`, and its image the absolute banner address.
   */
  lemma BusinessMetadataFacts()
    ensures BusinessMetadata().title == BusinessTitle + SeoUtils.TitleSeparator + SeoUtils.SiteDomain
    ensures BusinessMetadata().openGraph.url == SeoUtils.BaseUrl + BusinessPath
    ensures BusinessMetadata().twitter.images == [SeoUtils.BaseUrl + BannerPath]
  {
    BusinessTitleFact();
    BusinessUrlFact();
    BusinessImageFact();
  }

  lemma BusinessTitleFact()
    ensures BusinessMetadata().title == BusinessTitle + SeoUtils.TitleSeparator + SeoUtils.SiteDomain
  {
    NoSiteInTitle(BusinessTitle);
  }

  lemma BusinessUrlFact()
    ensures BusinessMetadata().openGraph.url == SeoUtils.BaseUrl + BusinessPath
  {
  }

  lemma BusinessImageFact()
    ensures BusinessMetadata().twitter.images == [SeoUtils.BaseUrl + BannerPath]
  {
    RootedImage(BannerPath);
  }

  const TechnologyTitle: string := "Технологии"
  const TechnologyPath: string := "/technology"

  /** What the technology page hands `createMetadata`. */
  const TechnologyProps: SeoMetadata.MetadataProps := SeoMetadata.MetadataProps(
    Some(TechnologyTitle),
    Some("Публикации за инженерни практики, архитектури и продуктова разработка от екипа на Devids."),
    ["технологии", "инженеринг", "архитектура", "Devids", "продукт"],
    None, false, Some(TechnologyPath))

  /** The technology page's metadata, built by `createMetadata`. */
  function TechnologyMetadata(): SeoMetadata.Metadata {
    SeoMetadata.CreateMetadata(TechnologyProps)
  }

  /**
   * The technology page is titled `Технологии | Stox.bg` and keeps its
   * canonical address relative, as given.
   */
  lemma TechnologyMetadataFacts()
    ensures TechnologyMetadata().title == TechnologyTitle + " | " + SeoMetadata.SiteName
    ensures TechnologyMetadata().canonical == Some(TechnologyPath)
    ensures TechnologyMetadata().openGraph.images == [SeoMetadata.ImageEntry(SeoMetadata.FallbackImage, 1200, 630, TechnologyMetadata().title)]
  {
  }
}
