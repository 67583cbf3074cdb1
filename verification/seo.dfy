/**
 * The `SEO` component (`src/components/SEO.tsx`): it resolves the page's title,
 * description, canonical URL and image through fallback chains and writes the
 * head tags, with a robots tag on request and article tags on article pages.
 * Optional props are `Option`s: `None` is a prop left out, which is when a
 * destructuring default applies.
 */
module Seo {
  import opened Wrappers
  import opened Js
  import opened Html

  const SiteName := "Flow Theory AI"
  const DefaultTitle := "Flow Theory AI - Become an AI-First Business"
  const DefaultDescription :=
    "Flow Theory AI helps businesses become AI-first. Explore our team, AI automation services, case studies, and book an intro call to start your transformation."
  const DefaultOgImage := "https://lh3.googleusercontent.com/d/1gObthFq6tfJDZLDv4KjJ65UxB2pBN8Qn"
  const SiteUrl := "https://www.flowtheoryai.com"
  const NoIndexContent := "noindex, nofollow"

  datatype ArticleInfo = ArticleInfo(
    publishedTime: Option<string>,
    modifiedTime: Option<string>,
    author: Option<string>,
    section: Option<string>,
    tags: Option<seq<string>>)

  datatype Props = Props(
    title: Option<string>,
    description: Option<string>,
    canonicalUrl: Option<string>,
    ogTitle: Option<string>,
    ogDescription: Option<string>,
    ogImage: Option<string>,
    ogType: Option<string>,
    article: Option<ArticleInfo>,
    noIndex: Option<bool>)

  // ---------------------------------------------------------------------------
  // Resolved values

  /** The description after its default: only a missing one is replaced. */
  function DescriptionOf(p: Props): string {
    p.description.GetOr(DefaultDescription)
  }

  function ImageOf(p: Props): string {
    p.ogImage.GetOr(DefaultOgImage)
  }

  function TypeOf(p: Props): string {
    p.ogType.GetOr("website")
  }

  /** `fullTitle`: the title followed by the site name, or the default title. */
  function FullTitle(p: Props): (r: string)
    ensures Present(p.title) ==> r == p.title.value + " | " + SiteName
    ensures !Present(p.title) ==> r == DefaultTitle
  {
    if Present(p.title) then p.title.value + " | " + SiteName else DefaultTitle
  }

  /** `ogTitle || title || DEFAULT_TITLE`. */
  function OgTitleOf(p: Props): (r: string)
    ensures r != ""
  {
    OrElse(p.ogTitle, OrElse(p.title, DefaultTitle))
  }

  /** `ogDescription || description`. */
  function OgDescriptionOf(p: Props): string {
    OrElse(p.ogDescription, DescriptionOf(p))
  }

  /** `canonicalUrl || SITE_URL`. */
  function CanonicalOf(p: Props): (r: string)
    ensures r != ""
  {
    OrElse(p.canonicalUrl, SiteUrl)
  }

  /** The article tags are written only for an article page given an article. */
  predicate IsArticlePage(p: Props) {
    TypeOf(p) == "article" && p.article.Some?
  }

  // ---------------------------------------------------------------------------
  // The head

  /** The values the head is written from, once every fallback is applied;
      `article` is kept only on an article page. */
  datatype Resolved = Resolved(
    fullTitle: string,
    description: string,
    canonical: string,
    ogType: string,
    ogTitle: string,
    ogDescription: string,
    image: string,
    noIndex: bool,
    article: Option<ArticleInfo>)

  function Resolve(p: Props): (v: Resolved)
    ensures v.article.Some? <==> IsArticlePage(p)
    ensures IsArticlePage(p) ==> v.article == p.article
  {
    Resolved(FullTitle(p), DescriptionOf(p), CanonicalOf(p), TypeOf(p), OgTitleOf(p),
             OgDescriptionOf(p), ImageOf(p), p.noIndex.GetOr(false),
             if IsArticlePage(p) then p.article else None)
  }

  function PrimaryTags(v: Resolved): seq<Tag> {
    [ Tag(TitleElement, v.fullTitle),
      Tag(MetaTitle, v.fullTitle),
      Tag(Description, v.description),
      Tag(Canonical, v.canonical) ]
  }

  function RobotsTags(v: Resolved): seq<Tag> {
    if v.noIndex then [Tag(Robots, NoIndexContent)] else []
  }

  function SocialTags(v: Resolved): seq<Tag> {
    [ Tag(OgType, v.ogType),
      Tag(OgUrl, v.canonical),
      Tag(OgTitle, v.ogTitle),
      Tag(OgDescription, v.ogDescription),
      Tag(OgImage, v.image),
      Tag(OgSiteName, SiteName),
      Tag(TwitterCard, "summary_large_image"),
      Tag(TwitterUrl, v.canonical),
      Tag(TwitterTitle, v.ogTitle),
      Tag(TwitterDescription, v.ogDescription),
      Tag(TwitterImage, v.image) ]
  }

  /** One tag carrying `o`'s text when it is truthy. */
  function TagIfPresent(key: Key, o: Option<string>): seq<Tag> {
    if Present(o) then [Tag(key, o.value)] else []
  }

  lemma TagIfPresentContents(key: Key, o: Option<string>, k: Key)
    ensures Contents(TagIfPresent(key, o), k) == if k == key && Present(o) then [o.value] else []
  {
    if Present(o) {
      assert TagIfPresent(key, o)[1..] == [];
    }
  }

  /** One `article:tag` per keyword, in order. */
  function KeywordTags(keywords: seq<string>): (r: seq<Tag>)
    ensures |r| == |keywords|
    decreases |keywords|
  {
    if |keywords| == 0 then [] else [Tag(ArticleTag, keywords[0])] + KeywordTags(keywords[1..])
  }

  /** The keyword tags carry the keywords, in order, under `article:tag` only. */
  lemma {:induction false} KeywordTagsContents(keywords: seq<string>, k: Key)
    ensures Contents(KeywordTags(keywords), k) == if k == ArticleTag then keywords else []
    decreases |keywords|
  {
    if |keywords| > 0 {
      var r := KeywordTags(keywords);
      KeywordTagsContents(keywords[1..], k);
      assert r[1..] == KeywordTags(keywords[1..]);
      assert keywords == [keywords[0]] + keywords[1..];
    }
  }

  function ArticleTags(article: Option<ArticleInfo>): seq<Tag> {
    match article
    case None => []
    case Some(a) =>
      TagIfPresent(ArticlePublishedTime, a.publishedTime)
      + TagIfPresent(ArticleModifiedTime, a.modifiedTime)
      + TagIfPresent(ArticleAuthor, a.author)
      + TagIfPresent(ArticleSection, a.section)
      + KeywordTags(a.tags.GetOr([]))
  }

  function HeadOf(v: Resolved): seq<Tag> {
    PrimaryTags(v) + RobotsTags(v) + SocialTags(v) + ArticleTags(v.article)
  }

  /** The tags the component writes into the head, in order. */
  function Head(p: Props): seq<Tag> {
    HeadOf(Resolve(p))
  }

  // ---------------------------------------------------------------------------
  // Where each value lands

  const PrimaryKeys: seq<Key> := [TitleElement, MetaTitle, Description, Canonical]
  const SocialKeys: seq<Key> :=
    [ OgType, OgUrl, OgTitle, OgDescription, OgImage, OgSiteName,
      TwitterCard, TwitterUrl, TwitterTitle, TwitterDescription, TwitterImage ]

  lemma BlockKeys(v: Resolved)
    ensures HasKeys(PrimaryTags(v), PrimaryKeys)
    ensures HasKeys(SocialTags(v), SocialKeys)
  {
  }

  lemma PrimaryKeysDistinct()
    ensures forall i :: 0 <= i < |PrimaryKeys| ==> OnlyAt(PrimaryKeys, i)
    ensures forall i :: 0 <= i < |PrimaryKeys| ==>
      PrimaryKeys[i] !in SocialKeys && PrimaryKeys[i] != Robots && !PrimaryKeys[i].IsArticle()
  {
  }

  lemma SocialKeysDistinct()
    ensures forall i :: 0 <= i < |SocialKeys| ==> OnlyAt(SocialKeys, i)
    ensures forall i :: 0 <= i < |SocialKeys| ==>
      SocialKeys[i] !in PrimaryKeys && SocialKeys[i] != Robots && !SocialKeys[i].IsArticle()
  {
  }

  lemma ArticleKeysNotFixed(key: Key)
    requires key.IsArticle()
    ensures key !in PrimaryKeys && key !in SocialKeys && key != Robots
  {
  }

  /** The article block splits into its five parts, for every key. */
  lemma ArticleSplit(a: ArticleInfo, key: Key)
    ensures Contents(ArticleTags(Some(a)), key)
         == Contents(TagIfPresent(ArticlePublishedTime, a.publishedTime), key)
          + Contents(TagIfPresent(ArticleModifiedTime, a.modifiedTime), key)
          + Contents(TagIfPresent(ArticleAuthor, a.author), key)
          + Contents(TagIfPresent(ArticleSection, a.section), key)
          + Contents(KeywordTags(a.tags.GetOr([])), key)
  {
    ContentsOfFive(TagIfPresent(ArticlePublishedTime, a.publishedTime),
                   TagIfPresent(ArticleModifiedTime, a.modifiedTime),
                   TagIfPresent(ArticleAuthor, a.author),
                   TagIfPresent(ArticleSection, a.section),
                   KeywordTags(a.tags.GetOr([])), key);
  }

  /** The published time has its own tag, when non-empty. */
  lemma ArticlePublishedTimeContents(a: ArticleInfo)
    ensures Contents(ArticleTags(Some(a)), ArticlePublishedTime) == if Present(a.publishedTime) then [a.publishedTime.value] else []
  {
    var p1 := Contents(TagIfPresent(ArticlePublishedTime, a.publishedTime), ArticlePublishedTime);
    var p2 := Contents(TagIfPresent(ArticleModifiedTime, a.modifiedTime), ArticlePublishedTime);
    var p3 := Contents(TagIfPresent(ArticleAuthor, a.author), ArticlePublishedTime);
    var p4 := Contents(TagIfPresent(ArticleSection, a.section), ArticlePublishedTime);
    var p5 := Contents(KeywordTags(a.tags.GetOr([])), ArticlePublishedTime);
    TagIfPresentContents(ArticlePublishedTime, a.publishedTime, ArticlePublishedTime);
    TagIfPresentContents(ArticleModifiedTime, a.modifiedTime, ArticlePublishedTime);
    TagIfPresentContents(ArticleAuthor, a.author, ArticlePublishedTime);
    TagIfPresentContents(ArticleSection, a.section, ArticlePublishedTime);
    KeywordTagsContents(a.tags.GetOr([]), ArticlePublishedTime);
    ArticleSplit(a, ArticlePublishedTime);
    assert p2 == [] && p3 == [] && p4 == [] && p5 == [];
    assert p1 + p2 + p3 + p4 + p5 == p1;
  }

  /** The modified time has its own tag, when non-empty. */
  lemma ArticleModifiedTimeContents(a: ArticleInfo)
    ensures Contents(ArticleTags(Some(a)), ArticleModifiedTime) == if Present(a.modifiedTime) then [a.modifiedTime.value] else []
  {
    var p1 := Contents(TagIfPresent(ArticlePublishedTime, a.publishedTime), ArticleModifiedTime);
    var p2 := Contents(TagIfPresent(ArticleModifiedTime, a.modifiedTime), ArticleModifiedTime);
    var p3 := Contents(TagIfPresent(ArticleAuthor, a.author), ArticleModifiedTime);
    var p4 := Contents(TagIfPresent(ArticleSection, a.section), ArticleModifiedTime);
    var p5 := Contents(KeywordTags(a.tags.GetOr([])), ArticleModifiedTime);
    TagIfPresentContents(ArticlePublishedTime, a.publishedTime, ArticleModifiedTime);
    TagIfPresentContents(ArticleModifiedTime, a.modifiedTime, ArticleModifiedTime);
    TagIfPresentContents(ArticleAuthor, a.author, ArticleModifiedTime);
    TagIfPresentContents(ArticleSection, a.section, ArticleModifiedTime);
    KeywordTagsContents(a.tags.GetOr([]), ArticleModifiedTime);
    ArticleSplit(a, ArticleModifiedTime);
    assert p1 == [] && p3 == [] && p4 == [] && p5 == [];
    assert p1 + p2 + p3 + p4 + p5 == p2;
  }

  /** The author has its own tag, when non-empty. */
  lemma ArticleAuthorContents(a: ArticleInfo)
    ensures Contents(ArticleTags(Some(a)), ArticleAuthor) == if Present(a.author) then [a.author.value] else []
  {
    var p1 := Contents(TagIfPresent(ArticlePublishedTime, a.publishedTime), ArticleAuthor);
    var p2 := Contents(TagIfPresent(ArticleModifiedTime, a.modifiedTime), ArticleAuthor);
    var p3 := Contents(TagIfPresent(ArticleAuthor, a.author), ArticleAuthor);
    var p4 := Contents(TagIfPresent(ArticleSection, a.section), ArticleAuthor);
    var p5 := Contents(KeywordTags(a.tags.GetOr([])), ArticleAuthor);
    TagIfPresentContents(ArticlePublishedTime, a.publishedTime, ArticleAuthor);
    TagIfPresentContents(ArticleModifiedTime, a.modifiedTime, ArticleAuthor);
    TagIfPresentContents(ArticleAuthor, a.author, ArticleAuthor);
    TagIfPresentContents(ArticleSection, a.section, ArticleAuthor);
    KeywordTagsContents(a.tags.GetOr([]), ArticleAuthor);
    ArticleSplit(a, ArticleAuthor);
    assert p1 == [] && p2 == [] && p4 == [] && p5 == [];
    assert p1 + p2 + p3 + p4 + p5 == p3;
  }

  /** The section has its own tag, when non-empty. */
  lemma ArticleSectionContents(a: ArticleInfo)
    ensures Contents(ArticleTags(Some(a)), ArticleSection) == if Present(a.section) then [a.section.value] else []
  {
    var p1 := Contents(TagIfPresent(ArticlePublishedTime, a.publishedTime), ArticleSection);
    var p2 := Contents(TagIfPresent(ArticleModifiedTime, a.modifiedTime), ArticleSection);
    var p3 := Contents(TagIfPresent(ArticleAuthor, a.author), ArticleSection);
    var p4 := Contents(TagIfPresent(ArticleSection, a.section), ArticleSection);
    var p5 := Contents(KeywordTags(a.tags.GetOr([])), ArticleSection);
    TagIfPresentContents(ArticlePublishedTime, a.publishedTime, ArticleSection);
    TagIfPresentContents(ArticleModifiedTime, a.modifiedTime, ArticleSection);
    TagIfPresentContents(ArticleAuthor, a.author, ArticleSection);
    TagIfPresentContents(ArticleSection, a.section, ArticleSection);
    KeywordTagsContents(a.tags.GetOr([]), ArticleSection);
    ArticleSplit(a, ArticleSection);
    assert p1 == [] && p2 == [] && p3 == [] && p5 == [];
    assert p1 + p2 + p3 + p4 + p5 == p4;
  }

  /** One `article:tag` per keyword, in order. */
  lemma ArticleKeywordContents(a: ArticleInfo)
    ensures Contents(ArticleTags(Some(a)), ArticleTag) == a.tags.GetOr([])
  {
    var p1 := Contents(TagIfPresent(ArticlePublishedTime, a.publishedTime), ArticleTag);
    var p2 := Contents(TagIfPresent(ArticleModifiedTime, a.modifiedTime), ArticleTag);
    var p3 := Contents(TagIfPresent(ArticleAuthor, a.author), ArticleTag);
    var p4 := Contents(TagIfPresent(ArticleSection, a.section), ArticleTag);
    var p5 := Contents(KeywordTags(a.tags.GetOr([])), ArticleTag);
    TagIfPresentContents(ArticlePublishedTime, a.publishedTime, ArticleTag);
    TagIfPresentContents(ArticleModifiedTime, a.modifiedTime, ArticleTag);
    TagIfPresentContents(ArticleAuthor, a.author, ArticleTag);
    TagIfPresentContents(ArticleSection, a.section, ArticleTag);
    KeywordTagsContents(a.tags.GetOr([]), ArticleTag);
    ArticleSplit(a, ArticleTag);
    assert p1 == [] && p2 == [] && p3 == [] && p4 == [];
    assert p1 + p2 + p3 + p4 + p5 == p5;
  }

  /** The article block holds article keys only. */
  lemma NoFixedKeysInArticle(article: Option<ArticleInfo>, key: Key)
    requires !key.IsArticle()
    ensures Contents(ArticleTags(article), key) == []
  {
    if article.Some? {
      var a := article.value;
      ArticleSplit(a, key);
      TagIfPresentContents(ArticlePublishedTime, a.publishedTime, key);
      TagIfPresentContents(ArticleModifiedTime, a.modifiedTime, key);
      TagIfPresentContents(ArticleAuthor, a.author, key);
      TagIfPresentContents(ArticleSection, a.section, key);
      KeywordTagsContents(a.tags.GetOr([]), key);
      assert Contents(TagIfPresent(ArticlePublishedTime, a.publishedTime), key) == [];
      assert Contents(TagIfPresent(ArticleModifiedTime, a.modifiedTime), key) == [];
      assert Contents(TagIfPresent(ArticleAuthor, a.author), key) == [];
      assert Contents(TagIfPresent(ArticleSection, a.section), key) == [];
      assert Contents(KeywordTags(a.tags.GetOr([])), key) == [];
      var e: seq<string> := [];
      assert e + e + e + e + e == [];
    }
  }

  /** Keys that are neither the robots key nor an article key come only from
      the two fixed blocks. */
  lemma FixedKeysOnly(v: Resolved, key: Key)
    requires key != Robots && !key.IsArticle()
    ensures Contents(HeadOf(v), key) == Contents(PrimaryTags(v), key) + Contents(SocialTags(v), key)
  {
    var a, b, c, d := PrimaryTags(v), RobotsTags(v), SocialTags(v), ArticleTags(v.article);
    var ca, cc := Contents(a, key), Contents(c, key);
    ContentsOfOtherKeys(b, key);
    NoFixedKeysInArticle(v.article, key);
    ContentsAppend(a, b, key);
    assert Contents(a + b, key) == ca by { assert ca + [] == ca; }
    ContentsAppend(a + b, c, key);
    ContentsAppend(a + b + c, d, key);
    assert Contents(a + b + c + d, key) == ca + cc by { assert (ca + cc) + [] == ca + cc; }
  }

  /** A key of the primary block occurs once, with that block's content. */
  lemma PrimaryTagAlone(v: Resolved, i: nat)
    requires i < |PrimaryKeys|
    ensures Contents(HeadOf(v), PrimaryKeys[i]) == [PrimaryTags(v)[i].content]
  {
    PrimaryKeysDistinct();
    BlockKeys(v);
    var key := PrimaryKeys[i];
    FixedKeysOnly(v, key);
    ContentsOfKeyAt(PrimaryTags(v), PrimaryKeys, i);
    ContentsOfAbsentKey(SocialTags(v), SocialKeys, key);
  }

  /** A key of the social block occurs once, with that block's content. */
  lemma SocialTagAlone(v: Resolved, i: nat)
    requires i < |SocialKeys|
    ensures Contents(HeadOf(v), SocialKeys[i]) == [SocialTags(v)[i].content]
  {
    SocialKeysDistinct();
    BlockKeys(v);
    var key := SocialKeys[i];
    FixedKeysOnly(v, key);
    ContentsOfAbsentKey(PrimaryTags(v), PrimaryKeys, key);
    ContentsOfKeyAt(SocialTags(v), SocialKeys, i);
  }

  /** The robots tag is there exactly when asked for. */
  lemma RobotsContents(v: Resolved)
    ensures Contents(HeadOf(v), Robots) == if v.noIndex then [NoIndexContent] else []
  {
    var a, b, c, d := PrimaryTags(v), RobotsTags(v), SocialTags(v), ArticleTags(v.article);
    ContentsOfFour(a, b, c, d, Robots);
    BlockKeys(v);
    ContentsOfAbsentKey(a, PrimaryKeys, Robots);
    ContentsOfAbsentKey(c, SocialKeys, Robots);
    NoFixedKeysInArticle(v.article, Robots);
  }

  /** The head's contents for an article key are those of the article block. */
  lemma ArticleKeysFromArticleTags(v: Resolved, key: Key)
    requires key.IsArticle()
    ensures Contents(HeadOf(v), key) == Contents(ArticleTags(v.article), key)
  {
    var a, b, c, d := PrimaryTags(v), RobotsTags(v), SocialTags(v), ArticleTags(v.article);
    ContentsOfFour(a, b, c, d, key);
    BlockKeys(v);
    ArticleKeysNotFixed(key);
    ContentsOfAbsentKey(a, PrimaryKeys, key);
    ContentsOfAbsentKey(c, SocialKeys, key);
    ContentsOfOtherKeys(b, key);
  }

  // ---------------------------------------------------------------------------
  // What the head says

  /** The document title and the `title` meta carry the page title followed by
      the site name, or the default title when no non-empty title is given. */
  lemma TitleTags(p: Props)
    ensures Contents(Head(p), TitleElement) ==
      [if Present(p.title) then p.title.value + " | " + SiteName else DefaultTitle]
    ensures Contents(Head(p), MetaTitle) ==
      [if Present(p.title) then p.title.value + " | " + SiteName else DefaultTitle]
  {
    var v := Resolve(p);
    PrimaryTagAlone(v, 0);
    PrimaryTagAlone(v, 1);
  }

  /** `og:title` and `twitter:title` carry `ogTitle || title || DEFAULT_TITLE`. */
  lemma OgTitleTags(p: Props)
    ensures Contents(Head(p), OgTitle) == [OrElse(p.ogTitle, OrElse(p.title, DefaultTitle))]
    ensures Contents(Head(p), TwitterTitle) == [OrElse(p.ogTitle, OrElse(p.title, DefaultTitle))]
  {
    var v := Resolve(p);
    SocialTagAlone(v, 2);
    SocialTagAlone(v, 8);
  }

  /** The description defaults only when left out. */
  lemma DescriptionTag(p: Props)
    ensures Contents(Head(p), Description) == [p.description.GetOr(DefaultDescription)]
  {
    PrimaryTagAlone(Resolve(p), 2);
  }

  /** The social descriptions prefer `ogDescription` when it is non-empty. */
  lemma OgDescriptionTags(p: Props)
    ensures Contents(Head(p), OgDescription) == [OrElse(p.ogDescription, p.description.GetOr(DefaultDescription))]
    ensures Contents(Head(p), TwitterDescription) == [OrElse(p.ogDescription, p.description.GetOr(DefaultDescription))]
  {
    var v := Resolve(p);
    SocialTagAlone(v, 3);
    SocialTagAlone(v, 9);
  }

  /** One URL, `canonicalUrl || SITE_URL`, is the canonical link and `og:url`. */
  lemma CanonicalTags(p: Props)
    ensures Contents(Head(p), Canonical) == [OrElse(p.canonicalUrl, SiteUrl)]
    ensures Contents(Head(p), OgUrl) == [OrElse(p.canonicalUrl, SiteUrl)]
  {
    var v := Resolve(p);
    PrimaryTagAlone(v, 3);
    SocialTagAlone(v, 1);
  }

  /** The Twitter card is the large-image summary and links the canonical URL. */
  lemma TwitterCardTags(p: Props)
    ensures Contents(Head(p), TwitterCard) == ["summary_large_image"]
    ensures Contents(Head(p), TwitterUrl) == [OrElse(p.canonicalUrl, SiteUrl)]
  {
    var v := Resolve(p);
    SocialTagAlone(v, 6);
    SocialTagAlone(v, 7);
  }

  /** The page type defaults to "website"; the site name is fixed. */
  lemma TypeTags(p: Props)
    ensures Contents(Head(p), OgType) == [p.ogType.GetOr("website")]
    ensures Contents(Head(p), OgSiteName) == [SiteName]
  {
    var v := Resolve(p);
    SocialTagAlone(v, 0);
    SocialTagAlone(v, 5);
  }

  /** The image defaults to the default image, and both cards share it. */
  lemma ImageTags(p: Props)
    ensures Contents(Head(p), OgImage) == [p.ogImage.GetOr(DefaultOgImage)]
    ensures Contents(Head(p), TwitterImage) == [p.ogImage.GetOr(DefaultOgImage)]
  {
    var v := Resolve(p);
    SocialTagAlone(v, 4);
    SocialTagAlone(v, 10);
  }

  /** The robots tag is there exactly when `noIndex` is set. */
  lemma RobotsTag(p: Props)
    ensures Contents(Head(p), Robots) == if p.noIndex == Some(true) then [NoIndexContent] else []
  {
    RobotsContents(Resolve(p));
  }

  /** Article tags appear only on an article page given an article: each of the
      four fields when it is non-empty, and one `article:tag` per keyword. */
  lemma ArticleTagsOfHead(p: Props)
    ensures Contents(Head(p), ArticleTag)
         == if IsArticlePage(p) then p.article.value.tags.GetOr([]) else []
    ensures Contents(Head(p), ArticlePublishedTime)
         == if IsArticlePage(p) && Present(p.article.value.publishedTime)
            then [p.article.value.publishedTime.value] else []
    ensures Contents(Head(p), ArticleModifiedTime)
         == if IsArticlePage(p) && Present(p.article.value.modifiedTime)
            then [p.article.value.modifiedTime.value] else []
    ensures Contents(Head(p), ArticleAuthor)
         == if IsArticlePage(p) && Present(p.article.value.author) then [p.article.value.author.value] else []
    ensures Contents(Head(p), ArticleSection)
         == if IsArticlePage(p) && Present(p.article.value.section) then [p.article.value.section.value] else []
  {
    var v := Resolve(p);
    ArticleKeysFromArticleTags(v, ArticleTag);
    ArticleKeysFromArticleTags(v, ArticlePublishedTime);
    ArticleKeysFromArticleTags(v, ArticleModifiedTime);
    ArticleKeysFromArticleTags(v, ArticleAuthor);
    ArticleKeysFromArticleTags(v, ArticleSection);
    if IsArticlePage(p) {
      var a := p.article.value;
      ArticlePublishedTimeContents(a);
      ArticleModifiedTimeContents(a);
      ArticleAuthorContents(a);
      ArticleSectionContents(a);
      ArticleKeywordContents(a);
    }
  }
}
