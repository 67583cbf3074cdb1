/**
 * The Open Graph redirect function (`supabase/functions/og-redirect/index.ts`):
 * crawlers request `?slug=<uuid>-<title-slug>`; the function reads the post id
 * from the front of the slug, fetches the post, and answers with a small HTML
 * page whose meta tags describe the post and which redirects browsers to it.
 */
module OgRedirect {
  import opened Wrappers
  import opened Text
  import opened Uuid
  import opened Js
  import opened Html

  const SiteUrl := "https://www.flowtheoryai.com"
  const DefaultOgImage := "https://lh3.googleusercontent.com/d/1gObthFq6tfJDZLDv4KjJ65UxB2pBN8Qn"
  const SiteName := "Flow Theory AI"
  const BlogTitle := "Flow Theory AI Blog"
  const BlogDescription := "Insights, strategies, and case studies from the Flow Theory AI team."
  const ArticleSectionName := "AI & Business"
  const MinShortIdLength := 8

  // ---------------------------------------------------------------------------
  // Post id extraction

  /** The slug starts with a complete UUID (matched case-insensitively). */
  predicate HasUuidPrefix(slug: string) {
    |slug| >= UuidLength && IsUuid(slug[..UuidLength])
  }

  /** A hyphen occurs among the first eight characters, or there are fewer than eight. */
  predicate ShortLead(slug: string) {
    |slug| < MinShortIdLength || '-' in slug[..MinShortIdLength]
  }

  /** `extractIdFromSlug` of the OG function: a leading UUID, else a leading
      hyphen-free segment of at least eight characters, else nothing. */
  function ExtractIdFromSlug(slug: string): (r: Option<string>)
    ensures slug == "" ==> r == None
    ensures HasUuidPrefix(slug) ==> r == Some(slug[..UuidLength])
    ensures slug != "" && !HasUuidPrefix(slug) ==> (r == None <==> ShortLead(slug))
    ensures slug != "" && !HasUuidPrefix(slug) && r.Some? ==>
      && MinShortIdLength <= |r.value| <= |slug|
      && r.value == slug[..|r.value|]
      && '-' !in r.value
      && (|r.value| == |slug| || slug[|r.value|] == '-')
  {
    if slug == "" then None
    else if HasUuidPrefix(slug) then Some(slug[..UuidLength])
    else
      var first := FirstSegment(slug, '-');
      assert ShortLead(slug) <==> |first| < MinShortIdLength by {
        if |first| >= MinShortIdLength {
          assert forall i :: 0 <= i < MinShortIdLength ==> slug[..MinShortIdLength][i] == first[i];
        } else if |slug| >= MinShortIdLength {
          assert slug[..MinShortIdLength][|first|] == '-';
        }
      }
      if |first| >= MinShortIdLength then Some(first) else None
  }

  /** Round trip with the sitemap's `<uuid>-<slug>` layout: the full id comes back,
      whatever follows it. */
  lemma SitemapLayoutRoundTrip(id: string, slug: string)
    requires IsUuid(id)
    ensures ExtractIdFromSlug(id + "-" + slug) == Some(id)
  {
    assert (id + "-" + slug)[..UuidLength] == id;
  }

  /** A bare UUID is its own id. */
  lemma BareUuidRoundTrip(id: string)
    requires IsUuid(id)
    ensures ExtractIdFromSlug(id) == Some(id)
  {
    assert id[..UuidLength] == id;
  }

  /** The `<slug>-<shortId>` links of the site are not understood here: when the
      title slug's first word is shorter than eight characters there is no id
      (`hello-world-550e8400` is a 400). */
  lemma PostLinkLayoutRejected(word: string, rest: string)
    requires '-' !in word && |word| < MinShortIdLength
    ensures ExtractIdFromSlug(word + "-" + rest) == None
  {
    var s := word + "-" + rest;
    assert s[|word|] == '-';
    assert |s| >= UuidLength ==> s[..UuidLength][|word|] == '-';
    assert |s| >= MinShortIdLength ==> s[..MinShortIdLength][|word|] == '-';
  }

  /** ... and when it is longer than eight characters the first word itself is
      taken for the id (`automation-tips-550e8400` fetches `automation`). */
  lemma PostLinkFirstWordTaken(word: string, rest: string)
    requires '-' !in word && |word| > MinShortIdLength
    ensures ExtractIdFromSlug(word + "-" + rest) == Some(word)
  {
    var s := word + "-" + rest;
    assert s[..|word|] == word && s[|word|] == '-';
    assert s[8] == word[8] != '-';
    assert |s| >= UuidLength ==> s[..UuidLength][8] == s[8];
    FirstSegmentOfJoin(word, '-', rest);
  }

  // ---------------------------------------------------------------------------
  // HTML escaping

  /** `text.replace(/c/g, rep)`. */
  function ReplaceAll(s: string, c: char, rep: string): (r: string)
    ensures c !in s ==> r == s
    decreases |s|
  {
    if |s| == 0 then ""
    else (if s[0] == c then rep else [s[0]]) + ReplaceAll(s[1..], c, rep)
  }

  lemma {:induction false} ReplaceAllAppend(a: string, b: string, c: char, rep: string)
    ensures ReplaceAll(a + b, c, rep) == ReplaceAll(a, c, rep) + ReplaceAll(b, c, rep)
    decreases |a|
  {
    if |a| == 0 {
      assert a + b == b;
    } else {
      assert (a + b)[0] == a[0];
      assert (a + b)[1..] == a[1..] + b;
      ReplaceAllAppend(a[1..], b, c, rep);
    }
  }

  /** The characters `escapeHtml` rewrites. */
  predicate IsSpecial(c: char) {
    c == '&' || c == '<' || c == '>' || c == '"' || c == '\''
  }

  /** The entity each special character becomes. */
  function Entity(c: char): string {
    match c
    case '&' => "&amp;"
    case '<' => "&lt;"
    case '>' => "&gt;"
    case '"' => "&quot;"
    case '\'' => "&#039;"
    case _ => [c]
  }

  /** Reference definition: every character is escaped on its own. */
  function EscapeEach(s: string): string
    decreases |s|
  {
    if |s| == 0 then "" else Entity(s[0]) + EscapeEach(s[1..])
  }

  /** The characters that would end an attribute value or open a tag. */
  predicate IsMarkup(c: char) {
    c == '<' || c == '>' || c == '"' || c == '\''
  }

  predicate MarkupFree(s: string) {
    forall i :: 0 <= i < |s| ==> !IsMarkup(s[i])
  }

  /** `escapeHtml`, as the source writes it: five global replacements, `&` first.
      The result is the per-character escape and holds no markup character. */
  function EscapeHtml(text: string): (r: string)
    ensures r == EscapeEach(text)
    ensures MarkupFree(r)
  {
    EscapeHtmlPerChar(text);
    EscapeEachIsMarkupFree(text);
    Chain(text)
  }

  /** The replacement chain itself. */
  function Chain(text: string): string {
    var amp := ReplaceAll(text, '&', "&amp;");
    var lt := ReplaceAll(amp, '<', "&lt;");
    var gt := ReplaceAll(lt, '>', "&gt;");
    var quot := ReplaceAll(gt, '"', "&quot;");
    ReplaceAll(quot, '\'', "&#039;")
  }

  /** Because `&` is replaced first, the entities written by later steps are not
      escaped again: the chain escapes each character independently. */
  lemma {:induction false} EscapeHtmlPerChar(s: string)
    ensures Chain(s) == EscapeEach(s)
    decreases |s|
  {
    if |s| > 0 {
      assert s == [s[0]] + s[1..];
      ChainAppend([s[0]], s[1..]);
      ChainOfChar(s[0]);
      EscapeHtmlPerChar(s[1..]);
    }
  }

  lemma ChainAppend(a: string, b: string)
    ensures Chain(a + b) == Chain(a) + Chain(b)
  {
    ReplaceAllAppend(a, b, '&', "&amp;");
    var a1, b1 := ReplaceAll(a, '&', "&amp;"), ReplaceAll(b, '&', "&amp;");
    ReplaceAllAppend(a1, b1, '<', "&lt;");
    var a2, b2 := ReplaceAll(a1, '<', "&lt;"), ReplaceAll(b1, '<', "&lt;");
    ReplaceAllAppend(a2, b2, '>', "&gt;");
    var a3, b3 := ReplaceAll(a2, '>', "&gt;"), ReplaceAll(b2, '>', "&gt;");
    ReplaceAllAppend(a3, b3, '"', "&quot;");
    var a4, b4 := ReplaceAll(a3, '"', "&quot;"), ReplaceAll(b3, '"', "&quot;");
    ReplaceAllAppend(a4, b4, '\'', "&#039;");
  }

  lemma ReplaceAllOfChar(x: char, c: char, rep: string)
    ensures ReplaceAll([x], c, rep) == if x == c then rep else [x]
  {
    assert [x][1..] == "";
  }

  /** The five steps applied to a string none of whose characters a step after
      the first one rewrites. */
  lemma LaterStepsKeep(s: string)
    requires MarkupFree(s)
    ensures var lt := ReplaceAll(s, '<', "&lt;");
      var gt := ReplaceAll(lt, '>', "&gt;");
      var quot := ReplaceAll(gt, '"', "&quot;");
      ReplaceAll(quot, '\'', "&#039;") == s
  {
    assert '<' !in s && '>' !in s && '"' !in s && '\'' !in s;
  }

  lemma ChainOfChar(c: char)
    ensures Chain([c]) == Entity(c)
  {
    ReplaceAllOfChar(c, '&', "&amp;");
    var amp := ReplaceAll([c], '&', "&amp;");
    if c == '&' {
      assert MarkupFree("&amp;");
      LaterStepsKeep("&amp;");
    } else if c == '<' {
      ReplaceAllOfChar(c, '<', "&lt;");
      assert '>' !in "&lt;" && '"' !in "&lt;" && '\'' !in "&lt;";
    } else if c == '>' {
      ReplaceAllOfChar(c, '<', "&lt;");
      ReplaceAllOfChar(c, '>', "&gt;");
      assert '"' !in "&gt;" && '\'' !in "&gt;";
    } else if c == '"' {
      ReplaceAllOfChar(c, '<', "&lt;");
      ReplaceAllOfChar(c, '>', "&gt;");
      ReplaceAllOfChar(c, '"', "&quot;");
      assert '\'' !in "&quot;";
    } else {
      ReplaceAllOfChar(c, '<', "&lt;");
      ReplaceAllOfChar(c, '>', "&gt;");
      ReplaceAllOfChar(c, '"', "&quot;");
      ReplaceAllOfChar(c, '\'', "&#039;");
    }
  }

  lemma EntityIsMarkupFree(c: char)
    ensures MarkupFree(Entity(c))
  {
    var e := Entity(c);
    if IsSpecial(c) {
      assert forall i :: 0 <= i < |e| ==> e[i] in "&ampltgquo;#039";
    } else {
      assert e == [c];
    }
  }

  lemma {:induction false} EscapeEachIsMarkupFree(s: string)
    ensures MarkupFree(EscapeEach(s))
    decreases |s|
  {
    if |s| > 0 {
      EscapeEachIsMarkupFree(s[1..]);
      var e := Entity(s[0]);
      var rest := EscapeEach(s[1..]);
      assert EscapeEach(s) == e + rest;
      EntityIsMarkupFree(s[0]);
      assert forall i :: |e| <= i < |e + rest| ==> (e + rest)[i] == rest[i - |e|];
    }
  }

  /** Text without any of the five characters is left as it is, and only such text. */
  lemma {:induction false} EscapeHtmlIdentityIff(s: string)
    ensures EscapeHtml(s) == s <==> forall i :: 0 <= i < |s| ==> !IsSpecial(s[i])
    decreases |s|
  {
    EscapeEachLength(s);
    if forall i :: 0 <= i < |s| ==> !IsSpecial(s[i]) {
      EscapeEachPlain(s);
    }
  }

  lemma {:induction false} EscapeEachPlain(s: string)
    requires forall i :: 0 <= i < |s| ==> !IsSpecial(s[i])
    ensures EscapeEach(s) == s
    decreases |s|
  {
    if |s| > 0 {
      EscapeEachPlain(s[1..]);
      assert Entity(s[0]) == [s[0]];
    }
  }

  /** Escaping never shortens, and lengthens whenever a special character occurs. */
  lemma {:induction false} EscapeEachLength(s: string)
    ensures |EscapeEach(s)| >= |s|
    ensures (exists i :: 0 <= i < |s| && IsSpecial(s[i])) ==> |EscapeEach(s)| > |s|
    decreases |s|
  {
    if |s| > 0 {
      EscapeEachLength(s[1..]);
      if exists i :: 0 <= i < |s| && IsSpecial(s[i]) {
        var i :| 0 <= i < |s| && IsSpecial(s[i]);
        if i > 0 {
          assert IsSpecial(s[1..][i - 1]);
        }
      }
    }
  }

  /** Decodes the five entities `escapeHtml` writes; every other character stays. */
  function Unescape(s: string): string
    decreases |s|
  {
    if |s| == 0 then ""
    else if "&amp;" <= s then "&" + Unescape(s[5..])
    else if "&lt;" <= s then "<" + Unescape(s[4..])
    else if "&gt;" <= s then ">" + Unescape(s[4..])
    else if "&quot;" <= s then "\"" + Unescape(s[6..])
    else if "&#039;" <= s then "'" + Unescape(s[6..])
    else [s[0]] + Unescape(s[1..])
  }

  /** No double escaping: decoding the escaped text gives the original back. */
  lemma EscapeHtmlRoundTrip(s: string)
    ensures Unescape(EscapeHtml(s)) == s
  {
    UnescapeEach(s);
  }

  lemma {:induction false} UnescapeEach(s: string)
    ensures Unescape(EscapeEach(s)) == s
    decreases |s|
  {
    if |s| > 0 {
      UnescapeEach(s[1..]);
      var rest := EscapeEach(s[1..]);
      assert EscapeEach(s) == Entity(s[0]) + rest;
      UnescapeEntity(s[0], rest);
      assert s == [s[0]] + s[1..];
    }
  }

  lemma NotPrefixAt(p: string, e: string, i: nat)
    requires i < |p| && i < |e| && p[i] != e[i]
    ensures !(p <= e)
  {
    if |p| <= |e| {
      assert e[..|p|][i] != p[i];
    }
  }

  lemma PrefixOfAppend(p: string, rest: string)
    ensures p <= p + rest && (p + rest)[|p|..] == rest
  {
    assert (p + rest)[..|p|] == p;
  }

  lemma UnescapeEntity(c: char, rest: string)
    ensures Unescape(Entity(c) + rest) == [c] + Unescape(rest)
  {
    var e := Entity(c) + rest;
    PrefixOfAppend(Entity(c), rest);
    if c == '&' {
    } else if c == '<' {
      NotPrefixAt("&amp;", e, 1);
    } else if c == '>' {
      NotPrefixAt("&amp;", e, 1);
      NotPrefixAt("&lt;", e, 1);
    } else if c == '"' {
      NotPrefixAt("&amp;", e, 1);
      NotPrefixAt("&lt;", e, 1);
      NotPrefixAt("&gt;", e, 1);
    } else if c == '\'' {
      NotPrefixAt("&amp;", e, 1);
      NotPrefixAt("&lt;", e, 1);
      NotPrefixAt("&gt;", e, 1);
      NotPrefixAt("&quot;", e, 1);
    } else {
      NotPrefixAt("&amp;", e, 0);
      NotPrefixAt("&lt;", e, 0);
      NotPrefixAt("&gt;", e, 0);
      NotPrefixAt("&quot;", e, 0);
      NotPrefixAt("&#039;", e, 0);
    }
  }

  // ---------------------------------------------------------------------------
  // The page

  datatype PageType = Website | Article

  function TypeName(t: PageType): string {
    match t
    case Website => "website"
    case Article => "article"
  }

  datatype OgParams = OgParams(
    title: string,
    description: string,
    image: string,
    url: string,
    ogType: PageType,
    authorName: Field,
    publishedTime: Field)

  /** The `article:published_time` tag, when the time is given. */
  function PublishedMeta(p: OgParams): seq<Tag> {
    if Truthy(p.publishedTime) then [Tag(ArticlePublishedTime, p.publishedTime.s)] else []
  }

  /** The `article:author` tag, when the author is given. */
  function AuthorMeta(p: OgParams): seq<Tag> {
    if Truthy(p.authorName) then [Tag(ArticleAuthor, EscapeHtml(p.authorName.s))] else []
  }

  const SectionMeta := [Tag(ArticleSection, ArticleSectionName)]

  /** The `article:*` tags of `generateHtml`. */
  function ArticleMeta(p: OgParams): seq<Tag> {
    if p.ogType == Article then PublishedMeta(p) + AuthorMeta(p) + SectionMeta else []
  }

  function PrimaryMeta(p: OgParams): seq<Tag> {
    var safeTitle := EscapeHtml(p.title);
    var safeDescription := EscapeHtml(p.description);
    var fullTitle := safeTitle + " | " + SiteName;
    [ Tag(TitleElement, fullTitle),
      Tag(MetaTitle, fullTitle),
      Tag(Description, safeDescription),
      Tag(Canonical, p.url),
      Tag(OgType, TypeName(p.ogType)),
      Tag(OgUrl, p.url),
      Tag(OgTitle, safeTitle),
      Tag(OgDescription, safeDescription),
      Tag(OgImage, p.image),
      Tag(OgSiteName, SiteName) ]
  }

  function TwitterMeta(p: OgParams): seq<Tag> {
    var safeTitle := EscapeHtml(p.title);
    var safeDescription := EscapeHtml(p.description);
    [ Tag(TwitterCard, "summary_large_image"),
      Tag(TwitterUrl, p.url),
      Tag(TwitterTitle, safeTitle),
      Tag(TwitterDescription, safeDescription),
      Tag(TwitterImage, p.image),
      Tag(Refresh, "0;url=" + p.url) ]
  }

  /** `generateHtml`: the tags of the page, in document order. */
  function GenerateHtml(p: OgParams): seq<Tag> {
    PrimaryMeta(p) + ArticleMeta(p) + TwitterMeta(p)
  }

  /** The article block holds article keys only. */
  lemma ArticleMetaHoldsArticleKeys(p: OgParams, key: Key)
    requires !key.IsArticle()
    ensures Contents(ArticleMeta(p), key) == []
  {
    if p.ogType == Article {
      var x, y, z := PublishedMeta(p), AuthorMeta(p), SectionMeta;
      var e: seq<string> := [];
      ContentsAppend(x + y, z, key);
      ContentsAppend(x, y, key);
      assert Contents(x, key) == e && Contents(y, key) == e && Contents(z, key) == e;
      assert e + e + e == e;
    }
  }

  /** The article tags are exactly those of the article block. */
  lemma ArticleKeysFromArticleMeta(p: OgParams, key: Key)
    requires key.IsArticle()
    ensures Contents(GenerateHtml(p), key) == Contents(ArticleMeta(p), key)
  {
    var a, b, c := PrimaryMeta(p), ArticleMeta(p), TwitterMeta(p);
    var e: seq<string> := [];
    var cb := Contents(b, key);
    ContentsAppend(a + b, c, key);
    ContentsAppend(a, b, key);
    BlockKeys(p);
    ArticleKeysNotFixed(key);
    ContentsOfAbsentKey(a, PrimaryKeys, key);
    ContentsOfAbsentKey(c, TwitterKeys, key);
    assert e + cb + e == cb;
  }

  /** The other tags are exactly those outside the article block. */
  lemma OtherKeysOutsideArticleMeta(p: OgParams, key: Key)
    requires !key.IsArticle()
    ensures Contents(GenerateHtml(p), key) == Contents(PrimaryMeta(p), key) + Contents(TwitterMeta(p), key)
  {
    var a, b, c := PrimaryMeta(p), ArticleMeta(p), TwitterMeta(p);
    var ca, cc := Contents(a, key), Contents(c, key);
    ArticleMetaHoldsArticleKeys(p, key);
    ContentsAppend(a, b, key);
    assert Contents(a + b, key) == ca by { assert ca + [] == ca; }
    ContentsAppend(a + b, c, key);
  }

  /** Article tags appear only on article pages: the publication time when it is
      given, the author (escaped) when given, and the section always. */
  lemma ArticleTags(p: OgParams)
    ensures Contents(GenerateHtml(p), ArticleSection)
         == (if p.ogType == Article then [ArticleSectionName] else [])
    ensures Contents(GenerateHtml(p), ArticlePublishedTime)
         == (if p.ogType == Article && Truthy(p.publishedTime) then [p.publishedTime.s] else [])
    ensures Contents(GenerateHtml(p), ArticleAuthor)
         == (if p.ogType == Article && Truthy(p.authorName) then [EscapeHtml(p.authorName.s)] else [])
  {
    ArticleKeysFromArticleMeta(p, ArticleSection);
    ArticleKeysFromArticleMeta(p, ArticlePublishedTime);
    ArticleKeysFromArticleMeta(p, ArticleAuthor);
    if p.ogType == Article {
      ArticleMetaContents(p, ArticleSection);
      ArticleMetaContents(p, ArticlePublishedTime);
      ArticleMetaContents(p, ArticleAuthor);
    }
  }

  /** Within the article block, each key comes from its own part. */
  lemma ArticleMetaContents(p: OgParams, key: Key)
    requires p.ogType == Article
    requires key == ArticleSection || key == ArticlePublishedTime || key == ArticleAuthor
    ensures Contents(ArticleMeta(p), key) ==
      if key == ArticleSection then [ArticleSectionName]
      else if key == ArticlePublishedTime then (if Truthy(p.publishedTime) then [p.publishedTime.s] else [])
      else if Truthy(p.authorName) then [EscapeHtml(p.authorName.s)] else []
  {
    var x, y, z := PublishedMeta(p), AuthorMeta(p), SectionMeta;
    var cx, cy, cz := Contents(x, key), Contents(y, key), Contents(z, key);
    ContentsAppend(x + y, z, key);
    ContentsAppend(x, y, key);
    assert cz == if key == ArticleSection then [ArticleSectionName] else [];
    assert cy == if key == ArticleAuthor && Truthy(p.authorName) then [EscapeHtml(p.authorName.s)] else [];
    assert cx == if key == ArticlePublishedTime && Truthy(p.publishedTime) then [p.publishedTime.s] else [];
  }

  /** The keys of the two fixed blocks, in document order. */
  const PrimaryKeys: seq<Key> :=
    [TitleElement, MetaTitle, Description, Canonical, OgType, OgUrl, OgTitle, OgDescription, OgImage, OgSiteName]
  const TwitterKeys: seq<Key> :=
    [TwitterCard, TwitterUrl, TwitterTitle, TwitterDescription, TwitterImage, Refresh]

  lemma BlockKeys(p: OgParams)
    ensures HasKeys(PrimaryMeta(p), PrimaryKeys)
    ensures HasKeys(TwitterMeta(p), TwitterKeys)
  {
  }

  lemma ArticleKeysNotFixed(key: Key)
    requires key.IsArticle()
    ensures key !in PrimaryKeys && key !in TwitterKeys
  {
  }

  /** No key repeats within or across the two fixed blocks, and none of them is
      an article key. */
  lemma PrimaryKeysDistinct()
    ensures forall i :: 0 <= i < |PrimaryKeys| ==> OnlyAt(PrimaryKeys, i)
    ensures forall i :: 0 <= i < |PrimaryKeys| ==> PrimaryKeys[i] !in TwitterKeys && !PrimaryKeys[i].IsArticle()
  {
  }

  lemma TwitterKeysDistinct()
    ensures forall i :: 0 <= i < |TwitterKeys| ==> OnlyAt(TwitterKeys, i)
    ensures forall i :: 0 <= i < |TwitterKeys| ==> TwitterKeys[i] !in PrimaryKeys && !TwitterKeys[i].IsArticle()
  {
  }

  /** A tag of the primary block occurs nowhere else on the page. */
  lemma PrimaryTagAlone(p: OgParams, i: nat)
    requires i < |PrimaryKeys|
    ensures Contents(GenerateHtml(p), PrimaryKeys[i]) == [PrimaryMeta(p)[i].content]
  {
    PrimaryKeysDistinct();
    BlockKeys(p);
    var key := PrimaryKeys[i];
    OtherKeysOutsideArticleMeta(p, key);
    ContentsOfKeyAt(PrimaryMeta(p), PrimaryKeys, i);
    ContentsOfAbsentKey(TwitterMeta(p), TwitterKeys, key);
  }

  /** A tag of the closing block occurs nowhere else on the page. */
  lemma TwitterTagAlone(p: OgParams, i: nat)
    requires i < |TwitterKeys|
    ensures Contents(GenerateHtml(p), TwitterKeys[i]) == [TwitterMeta(p)[i].content]
  {
    TwitterKeysDistinct();
    BlockKeys(p);
    var key := TwitterKeys[i];
    OtherKeysOutsideArticleMeta(p, key);
    ContentsOfAbsentKey(PrimaryMeta(p), PrimaryKeys, key);
    ContentsOfKeyAt(TwitterMeta(p), TwitterKeys, i);
  }

  /** The (escaped) title appears once as the document title, once as `og:title`
      and once as `twitter:title`. */
  lemma TitleTags(p: OgParams)
    ensures Contents(GenerateHtml(p), TitleElement) == [EscapeHtml(p.title) + " | " + SiteName]
    ensures Contents(GenerateHtml(p), OgTitle) == [EscapeHtml(p.title)]
    ensures Contents(GenerateHtml(p), TwitterTitle) == [EscapeHtml(p.title)]
  {
    FullTitleTag(p);
    OgTitleTag(p);
    TwitterTitleTag(p);
  }

  lemma OgTitleTag(p: OgParams)
    ensures Contents(GenerateHtml(p), OgTitle) == [EscapeHtml(p.title)]
  {
    PrimaryTagAlone(p, 6);
  }

  lemma TwitterTitleTag(p: OgParams)
    ensures Contents(GenerateHtml(p), TwitterTitle) == [EscapeHtml(p.title)]
  {
    TwitterTagAlone(p, 2);
  }

  lemma FullTitleTag(p: OgParams)
    ensures Contents(GenerateHtml(p), TitleElement) == [EscapeHtml(p.title) + " | " + SiteName]
  {
    PrimaryTagAlone(p, 0);
  }

  /** The URL is used verbatim as canonical link and `og:url`; the description is
      escaped; the page type and image are passed through. */
  lemma UrlAndDescriptionTags(p: OgParams)
    ensures Contents(GenerateHtml(p), Description) == [EscapeHtml(p.description)]
    ensures Contents(GenerateHtml(p), Canonical) == [p.url]
    ensures Contents(GenerateHtml(p), OgUrl) == [p.url]
    ensures Contents(GenerateHtml(p), OgType) == [TypeName(p.ogType)]
    ensures Contents(GenerateHtml(p), OgImage) == [p.image]
  {
    PrimaryTagAlone(p, 2);
    PrimaryTagAlone(p, 3);
    PrimaryTagAlone(p, 4);
    PrimaryTagAlone(p, 5);
    PrimaryTagAlone(p, 8);
  }

  // ---------------------------------------------------------------------------
  // The request handler

  datatype Author = Author(displayName: Field)

  /** The fields of the fetched post the page uses. */
  datatype Post = Post(
    title: Field,
    excerpt: Field,
    coverImageUrl: Field,
    author: Option<Author>,
    publishedAt: Field)

  /** What fetching the post yields: a non-2xx response, the post, or
      `Unreachable` for anything that throws on the way to the page and so ends in
      the 500 — the fetch or the body parse failing, a body whose post is `null`,
      or a title or author name that is truthy but not a string. */
  datatype Upstream = Unreachable | NotOk | Found(post: Post)

  datatype Response =
    | Preflight
    | JsonError(status: nat, error: string)
    | Page(tags: seq<Tag>)

  /** The page used when the post cannot be fetched. */
  const DefaultParams := OgParams(BlogTitle, BlogDescription, DefaultOgImage, SiteUrl + "/blog",
                                  Website, Undefined, Undefined)

  /** The author's display name when the post has an author with a non-empty
      one, else the site's name; never empty. */
  function AuthorName(post: Post): (r: string)
    ensures r != ""
    ensures post.author.Some? && Truthy(post.author.value.displayName) ==> r == post.author.value.displayName.s
    ensures !(post.author.Some? && Truthy(post.author.value.displayName)) ==> r == SiteName
  {
    match post.author
    case None => SiteName
    case Some(a) => Or(a.displayName, SiteName)
  }

  /** The page parameters built from a fetched post, with the source's fallbacks. */
  function PostParams(post: Post, slug: string): OgParams {
    OgParams(
      Or(post.title, BlogTitle),
      Or(post.excerpt, "Read " + Interpolate(post.title) + " on the Flow Theory AI blog."),
      Or(post.coverImageUrl, DefaultOgImage),
      SiteUrl + "/blog/" + slug,
      Article,
      Str(AuthorName(post)),
      post.publishedAt)
  }

  /** The handler: preflight, the two 400s, then the page for the extracted id.
      `fetch` stands for the request to the posts API for that id. */
  function Handle(verb: string, slug: Option<string>, fetch: string -> Upstream): (r: Response)
    ensures verb == "OPTIONS" ==> r == Preflight
    ensures verb != "OPTIONS" && (slug == None || slug == Some("")) ==>
      r == JsonError(400, "Missing slug parameter")
    ensures verb != "OPTIONS" && slug.Some? && slug.value != "" && ExtractIdFromSlug(slug.value) == None ==>
      r == JsonError(400, "Invalid slug format")
    ensures r.Page? ==> slug.Some? && ExtractIdFromSlug(slug.value).Some?
    ensures verb != "OPTIONS" && slug.Some? && ExtractIdFromSlug(slug.value).Some? ==>
      (r.Page? <==> !fetch(ExtractIdFromSlug(slug.value).value).Unreachable?)
    ensures r.Page? && fetch(ExtractIdFromSlug(slug.value).value).NotOk? ==> r.tags == GenerateHtml(DefaultParams)
    ensures r.Page? && fetch(ExtractIdFromSlug(slug.value).value).Found? ==>
      r.tags == GenerateHtml(PostParams(fetch(ExtractIdFromSlug(slug.value).value).post, slug.value))
  {
    if verb == "OPTIONS" then Preflight
    else if slug == None || slug == Some("") then JsonError(400, "Missing slug parameter")
    else match ExtractIdFromSlug(slug.value)
      case None => JsonError(400, "Invalid slug format")
      case Some(postId) =>
        match fetch(postId)
        case Unreachable => JsonError(500, "Internal server error")
        case NotOk => Page(GenerateHtml(DefaultParams))
        case Found(post) => Page(GenerateHtml(PostParams(post, slug.value)))
  }

  /** A "website" page carries no article tags. */
  lemma WebsitePage(p: OgParams)
    requires p.ogType == Website
    ensures Contents(GenerateHtml(p), OgType) == ["website"]
    ensures Contents(GenerateHtml(p), OgUrl) == [p.url]
    ensures Contents(GenerateHtml(p), ArticleSection) == []
    ensures Contents(GenerateHtml(p), ArticleAuthor) == []
  {
    UrlAndDescriptionTags(p);
    ArticleTags(p);
  }

  /** When the post cannot be fetched the page is the blog's own "website" page,
      with no article tags, for any method but OPTIONS. */
  lemma DefaultPageForMissingPost(verb: string, slug: string, fetch: string -> Upstream)
    requires verb != "OPTIONS"
    requires ExtractIdFromSlug(slug).Some? && fetch(ExtractIdFromSlug(slug).value).NotOk?
    ensures Handle(verb, Some(slug), fetch).Page?
    ensures Handle(verb, Some(slug), fetch).tags == GenerateHtml(DefaultParams)
  {
    assert slug != "";
  }

  /** The default page is the blog index, as a "website" page. */
  lemma DefaultPageTags()
    ensures var tags := GenerateHtml(DefaultParams);
      && Contents(tags, OgType) == ["website"]
      && Contents(tags, OgUrl) == [SiteUrl + "/blog"]
      && Contents(tags, ArticleSection) == []
      && Contents(tags, ArticleAuthor) == []
  {
    WebsitePage(DefaultParams);
  }

  /** A fetched post gives the post's own page, for any method but OPTIONS. */
  lemma PostPageForFoundPost(verb: string, slug: string, fetch: string -> Upstream)
    requires verb != "OPTIONS"
    requires ExtractIdFromSlug(slug).Some? && fetch(ExtractIdFromSlug(slug).value).Found?
    ensures Handle(verb, Some(slug), fetch)
         == Page(GenerateHtml(PostParams(fetch(ExtractIdFromSlug(slug).value).post, slug)))
  {
    var r := Handle(verb, Some(slug), fetch);
    assert r.Page?;
    assert r == Page(r.tags);
  }

  /** A post's page is an article page: the title falls back to the blog's
      title, the canonical URL repeats the requested slug verbatim, and an author
      tag is always present. */
  lemma ArticlePageForPost(post: Post, slug: string)
    ensures var tags := GenerateHtml(PostParams(post, slug));
      && Contents(tags, OgType) == ["article"]
      && Contents(tags, OgTitle) == [EscapeHtml(Or(post.title, BlogTitle))]
      && Contents(tags, OgUrl) == [SiteUrl + "/blog/" + slug]
      && Contents(tags, ArticleAuthor) == [EscapeHtml(AuthorName(post))]
      && Contents(tags, ArticlePublishedTime)
         == (if Truthy(post.publishedAt) then [post.publishedAt.s] else [])
  {
    var p := PostParams(post, slug);
    assert p.ogType == Article && p.authorName == Str(AuthorName(post)) && Truthy(p.authorName);
    TitleTags(p);
    UrlAndDescriptionTags(p);
    ArticleTags(p);
  }

  /** The excerpt, else a sentence naming the title, is the description (escaped);
      the cover image, else the default image, is the image. */
  lemma PostPageDescriptionAndImage(post: Post, slug: string)
    ensures var tags := GenerateHtml(PostParams(post, slug));
      && Contents(tags, Description)
         == [EscapeHtml(if Truthy(post.excerpt) then post.excerpt.s
                        else "Read " + Interpolate(post.title) + " on the Flow Theory AI blog.")]
      && Contents(tags, OgImage) == [if Truthy(post.coverImageUrl) then post.coverImageUrl.s else DefaultOgImage]
  {
    UrlAndDescriptionTags(PostParams(post, slug));
  }

  /** A fetch or parse that throws is answered with a 500, for any method but
      OPTIONS. */
  lemma UnreachablePostIsServerError(verb: string, slug: string, fetch: string -> Upstream)
    requires verb != "OPTIONS"
    requires ExtractIdFromSlug(slug).Some? && fetch(ExtractIdFromSlug(slug).value).Unreachable?
    ensures Handle(verb, Some(slug), fetch) == JsonError(500, "Internal server error")
  {
    assert slug != "";
  }

  /** A sitemap URL `<uuid>-<slug>` makes the handler fetch exactly that uuid,
      for any method but OPTIONS. */
  lemma SitemapUrlFetchesItsPost(verb: string, id: string, slug: string, fetch: string -> Upstream)
    requires verb != "OPTIONS"
    requires IsUuid(id) && fetch(id).Found?
    ensures Handle(verb, Some(id + "-" + slug), fetch)
         == Page(GenerateHtml(PostParams(fetch(id).post, id + "-" + slug)))
  {
    var s := id + "-" + slug;
    SitemapLayoutRoundTrip(id, slug);
    var r := Handle(verb, Some(s), fetch);
    assert r == Page(r.tags);
  }
}
