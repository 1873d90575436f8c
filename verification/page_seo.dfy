/**
 * `generatePageMetadata` of `components/ui/page-seo.tsx`, with the site
 * configuration constants it reads from `lib/seo/config.ts`: the default
 * keywords (the configured keywords meta tag split on `, `) and the
 * configured Open Graph image.
 */
module PageSeo {
  import opened Wrappers
  import opened Text
  import opened SeoUtils

  /** The content of the configured `keywords` meta tag. */
  const ConfigKeywords: string :=
    "стокова борса, фондове, акции, инвестиции в акции, сайт за инвестиции, как да инвестираме, "
    + "ETF фондове, борсова търговия, инвестиционен портфейл, българска фондова борса, "
    + "инвестиционни стратегии, дивиденти, търговия с акции онлайн, пасивни инвестиции, "
    + "диверсификация, борсови индекси, SOFIX, финансови пазари, спестяване, дългосрочни инвестиции"

  datatype MetaTag = MetaTag(name: string, content: Option<string>)

  /** The configured additional meta tags, in order. */
  const AdditionalMetaTags: seq<MetaTag> := [MetaTag("keywords", Some(ConfigKeywords)), MetaTag("author", Some("Stox.bg"))]

  /** The URLs of the configured Open Graph images, in order. */
  const ConfigOgImages: seq<string> := ["/images/og-image.jpg"]

  /** `tags.find(tag => tag.name === name)`. */
  function FindTag(tags: seq<MetaTag>, name: string): (r: Option<MetaTag>)
    ensures r.Some? ==> r.value in tags && r.value.name == name
    ensures r.None? ==> forall t :: t in tags ==> t.name != name
  {
    if tags == [] then None else if tags[0].name == name then Some(tags[0]) else FindTag(tags[1..], name)
  }

  /** `find(...)?.content?.split(', ') || []`. */
  function DefaultKeywords(): seq<string> {
    var tag := FindTag(AdditionalMetaTags, "keywords");
    if tag.Some? && tag.value.content.Some? then Split(tag.value.content.value, ", ") else []
  }

  /** The default keywords are the configured keyword line, cut at each `, `. */
  lemma DefaultKeywordsFromConfig()
    ensures Join(DefaultKeywords(), ", ") == ConfigKeywords
  {
    assert FindTag(AdditionalMetaTags, "keywords") == Some(AdditionalMetaTags[0]);
    JoinSplit(ConfigKeywords, ", ");
  }

  /** `SEO_CONFIG.openGraph?.images?.[0]?.url`. */
  function ConfigOgImage(): Option<string> {
    if ConfigOgImages == [] then None else Some(ConfigOgImages[0])
  }

  /** The arguments of `generatePageMetadata`; an omitted `keywords` is `[]`. */
  datatype PageSeoProps = PageSeoProps(
    title: string,
    description: string,
    keywords: seq<string>,
    imageUrl: Option<string>,
    pageType: Option<PageType>,
    publishedTime: Option<string>,
    modifiedTime: Option<string>,
    author: Option<string>)

  datatype PageOpenGraph = PageOpenGraph(
    title: string, description: string, pageType: PageType, images: seq<OgImage>, article: Option<OgArticle>)
  datatype PageTwitter = PageTwitter(card: string, title: string, description: string, images: seq<string>)
  datatype PageMetadata = PageMetadata(
    title: string, description: string, keywords: seq<string>, openGraph: PageOpenGraph, twitter: PageTwitter)

  /** `imageUrl || configured image || ''`. */
  function PageImageUrl(imageUrl: Option<string>): (r: string)
    ensures Truthy(imageUrl) ==> r == imageUrl.value
    ensures !Truthy(imageUrl) ==> r == ConfigOgImages[0]
    ensures r != ""
  {
    if Truthy(imageUrl) then imageUrl.value
    else if ConfigOgImage().Some? && ConfigOgImage().value != "" then ConfigOgImage().value
    else ""
  }

  /** `generatePageMetadata`. */
  function GeneratePageMetadata(props: PageSeoProps): (r: PageMetadata)
    ensures r.title == props.title && r.openGraph.title == props.title && r.twitter.title == props.title
    ensures r.description == props.description && r.openGraph.description == props.description
      && r.twitter.description == props.description
    ensures |r.keywords| == |DefaultKeywords()| + |props.keywords|
    ensures r.keywords[..|DefaultKeywords()|] == DefaultKeywords() && r.keywords[|DefaultKeywords()|..] == props.keywords
    ensures r.openGraph.images == [OgImage(PageImageUrl(props.imageUrl), 1200, 630, props.title)]
    ensures r.twitter.images == [r.openGraph.images[0].url]
    ensures r.openGraph.article.Some? <==> props.pageType == Some(Article)
    ensures r.openGraph.article.Some? ==>
      r.openGraph.article.value == OgArticle(props.publishedTime, props.modifiedTime, [OrElse(props.author, "Stox.bg")])
  {
    var pageType := props.pageType.GetOr(Website);
    var image := PageImageUrl(props.imageUrl);
    PageMetadata(
      props.title,
      props.description,
      DefaultKeywords() + props.keywords,
      PageOpenGraph(
        props.title, props.description, pageType, [OgImage(image, 1200, 630, props.title)],
        if pageType == Article
        then Some(OgArticle(props.publishedTime, props.modifiedTime, [OrElse(props.author, "Stox.bg")]))
        else None),
      PageTwitter("summary_large_image", props.title, props.description, [image]))
  }
}
