/**
 * `createMetadata` of `lib/seo/metadata.ts`: the page metadata record with
 * the site-name title suffix, the eight default keywords, and fallbacks for
 * the description and the image.
 */
module SeoMetadata {
  import opened Wrappers

  const SiteName: string := "Stox.bg"
  const FallbackTitle: string := "Stox.bg | Инвеститорският интернет. На едно място."
  const FallbackDescription: string :=
    "Платформа за инвеститори с актуални анализи за акции, компании, икономика и геополитика. "
    + "Сбити текстове с готови AI prompt-ове за по-задълбочени разговори."
  const FallbackImage: string := "/images/og-image.png"
  const MetaKeywords: seq<string> :=
    ["инвестиции", "акции", "пазари", "анализи", "икономика", "геополитика", "финанси", "AI"]

  /** The arguments of `createMetadata`; an omitted `keywords` is `[]` and an omitted `noIndex` is `false`. */
  datatype MetadataProps = MetadataProps(
    title: Option<string>,
    description: Option<string>,
    keywords: seq<string>,
    image: Option<string>,
    noIndex: bool,
    canonical: Option<string>)

  datatype ImageEntry = ImageEntry(url: string, width: int, height: int, alt: string)
  datatype OpenGraphCard = OpenGraphCard(
    title: string, description: string, url: string, siteName: string,
    images: seq<ImageEntry>, locale: string, ogType: string)
  datatype TwitterCard = TwitterCard(
    card: string, title: string, description: string, site: string, creator: string, images: seq<string>)
  datatype Metadata = Metadata(
    title: string,
    description: string,
    keywords: seq<string>,
    metadataBase: string,
    canonical: Option<string>,
    robotsIndex: bool,
    robotsFollow: bool,
    googleBotIndex: bool,
    googleBotFollow: bool,
    openGraph: OpenGraphCard,
    twitter: TwitterCard)

  /** `title | Stox.bg` for a given title, else the fixed fallback title. */
  function MetadataTitle(title: Option<string>): (r: string)
    ensures Truthy(title) ==> r == title.value + " | " + SiteName
    ensures !Truthy(title) ==> r == FallbackTitle
  {
    if Truthy(title) then title.value + " | " + SiteName else FallbackTitle
  }

  /** `createMetadata`. */
  function CreateMetadata(props: MetadataProps): (r: Metadata)
    ensures r.title == MetadataTitle(props.title)
    ensures r.openGraph.title == r.title && r.twitter.title == r.title
    ensures |r.keywords| == |MetaKeywords| + |props.keywords|
    ensures r.keywords[..|MetaKeywords|] == MetaKeywords && r.keywords[|MetaKeywords|..] == props.keywords
    ensures r.description == OrElse(props.description, FallbackDescription) && r.description != ""
    ensures r.openGraph.description == r.description && r.twitter.description == r.description
    ensures r.openGraph.images == [ImageEntry(OrElse(props.image, FallbackImage), 1200, 630, r.title)]
    ensures r.twitter.images == [r.openGraph.images[0].url]
    ensures r.robotsIndex == !props.noIndex && r.robotsFollow == !props.noIndex
    ensures r.googleBotIndex == !props.noIndex && r.googleBotFollow == !props.noIndex
    ensures r.canonical == props.canonical && r.openGraph.url == "/"
  {
    var fullTitle := MetadataTitle(props.title);
    var description := OrElse(props.description, FallbackDescription);
    var image := OrElse(props.image, FallbackImage);
    Metadata(
      fullTitle,
      description,
      MetaKeywords + props.keywords,
      "https://stox.bg",
      props.canonical,
      !props.noIndex,
      !props.noIndex,
      !props.noIndex,
      !props.noIndex,
      OpenGraphCard(fullTitle, description, "/", SiteName, [ImageEntry(image, 1200, 630, fullTitle)], "bg_BG", "website"),
      TwitterCard("summary_large_image", fullTitle, description, "@stoxbg", "@stoxbg", [image]))
  }

  /**
   * Unlike the title rule of the SEO helpers, this one is not idempotent:
   * feeding a composed title back in appends the suffix a second time.
   */
  lemma CreateMetadataTitleNotIdempotent(props: MetadataProps)
    requires Truthy(props.title)
    ensures var once := CreateMetadata(props).title;
      CreateMetadata(props.(title := Some(once))).title == once + " | " + SiteName != once
  {
    var once := CreateMetadata(props).title;
    assert |once + " | " + SiteName| > |once|;
  }

  /** The keyword list is not deduplicated: a page keyword that is also a default appears twice. */
  lemma MetadataKeywordsNotDeduplicated(props: MetadataProps, k: string)
    requires k in MetaKeywords && k in props.keywords
    ensures multiset(CreateMetadata(props).keywords)[k] >= 2
  {
    var r := CreateMetadata(props).keywords;
    assert r == MetaKeywords + props.keywords;
    assert multiset(r) == multiset(MetaKeywords) + multiset(props.keywords);
  }
}
