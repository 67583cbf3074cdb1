/**
 * The JSON-LD blocks of `src/components/StructuredData.tsx` that depend on their
 * props: the breadcrumb list, numbered from one in input order, and the article
 * schema with its image and modification-date fallbacks. The schema objects are
 * modelled as records; their serialisation is not.
 */
module StructuredData {
  import opened Wrappers
  import opened Js

  const SiteUrl := "https://www.flowtheoryai.com"
  const SiteName := "Flow Theory AI"
  const LogoUrl := "https://www.flowtheoryai.com/assets/flow-theory-logo-BZZLGdSM.png"

  // ---------------------------------------------------------------------------
  // Breadcrumbs

  /** An input item of `BreadcrumbSchema`. */
  datatype Crumb = Crumb(name: string, url: string)

  /** A `ListItem` of the `itemListElement` array. */
  datatype ListItem = ListItem(position: nat, name: string, item: string)

  /** The list items for `items`, numbered from `start + 1`. */
  function ItemsFrom(items: seq<Crumb>, start: nat): (r: seq<ListItem>)
    ensures |r| == |items|
    ensures forall i :: 0 <= i < |r| ==> r[i].position == start + i + 1
    ensures forall i :: 0 <= i < |r| ==> r[i].name == items[i].name && r[i].item == items[i].url
    decreases |items|
  {
    if |items| == 0 then []
    else
      var rest := ItemsFrom(items[1..], start + 1);
      var r := [ListItem(start + 1, items[0].name, items[0].url)] + rest;
      assert forall i :: 1 <= i < |r| ==> r[i] == rest[i - 1];
      r
  }

  /** `items.map((item, index) => ...)`: one list item per input item. */
  function ListItems(items: seq<Crumb>): (r: seq<ListItem>)
    ensures |r| == |items|
    ensures forall i :: 0 <= i < |r| ==> r[i] == ListItem(i + 1, items[i].name, items[i].url)
  {
    ItemsFrom(items, 0)
  }

  /** The crumbs a list of items was built from. */
  function CrumbsOf(list: seq<ListItem>): (r: seq<Crumb>)
    ensures |r| == |list|
    decreases |list|
  {
    if |list| == 0 then [] else [Crumb(list[0].name, list[0].item)] + CrumbsOf(list[1..])
  }

  /** The breadcrumb list keeps every item, in order: reading the names and
      URLs back gives the input. */
  lemma {:induction false} CrumbsRoundTrip(items: seq<Crumb>)
    ensures CrumbsOf(ListItems(items)) == items
  {
    CrumbsOfItemsFrom(items, 0);
  }

  lemma {:induction false} CrumbsOfItemsFrom(items: seq<Crumb>, start: nat)
    ensures CrumbsOf(ItemsFrom(items, start)) == items
    decreases |items|
  {
    if |items| > 0 {
      var r := ItemsFrom(items, start);
      CrumbsOfItemsFrom(items[1..], start + 1);
      assert r[1..] == ItemsFrom(items[1..], start + 1);
      assert CrumbsOf(r) == [Crumb(r[0].name, r[0].item)] + CrumbsOf(r[1..]);
      assert items == [items[0]] + items[1..];
    }
  }

  /** The positions are exactly 1 to n: each occurs once. */
  lemma PositionsAreOneToN(items: seq<Crumb>, k: nat)
    ensures (exists i :: 0 <= i < |items| && ListItems(items)[i].position == k) <==> 1 <= k <= |items|
    ensures forall i, j :: 0 <= i < |items| && 0 <= j < |items| && i != j ==>
      ListItems(items)[i].position != ListItems(items)[j].position
  {
    var r := ListItems(items);
    if 1 <= k <= |items| {
      assert r[k - 1].position == k;
    }
  }

  /** Adding crumbs at the end leaves the existing list items as they were. */
  lemma ExtendKeepsPrefix(items: seq<Crumb>, more: seq<Crumb>)
    ensures ListItems(items + more)[..|items|] == ListItems(items)
  {
    var a, b := ListItems(items + more), ListItems(items);
    assert forall i :: 0 <= i < |items| ==> (items + more)[i] == items[i];
    assert forall i :: 0 <= i < |items| ==> a[..|items|][i] == b[i];
  }

  // ---------------------------------------------------------------------------
  // Article

  /** The props of `ArticleSchema`; the optional ones are `Option`s. */
  datatype ArticleProps = ArticleProps(
    title: string,
    description: string,
    url: string,
    imageUrl: Option<string>,
    publishedTime: string,
    modifiedTime: Option<string>,
    authorName: string)

  /** The publisher block: the site as an `Organization` with its logo. */
  datatype Publisher = Publisher(name: string, logoUrl: string)

  /** The `Article` object, one field per key of the schema. */
  datatype Article = Article(
    headline: string,
    description: string,
    url: string,
    image: string,
    datePublished: string,
    dateModified: string,
    authorName: string,
    publisher: Publisher,
    mainEntityOfPage: string)

  function ArticleSchema(p: ArticleProps): (a: Article)
    ensures a.headline == p.title && a.description == p.description && a.url == p.url
    ensures a.mainEntityOfPage == p.url
    ensures a.image == if Present(p.imageUrl) then p.imageUrl.value else LogoUrl
    ensures a.datePublished == p.publishedTime
    ensures a.dateModified == if Present(p.modifiedTime) then p.modifiedTime.value else p.publishedTime
    ensures a.authorName == p.authorName
    ensures a.publisher == Publisher(SiteName, LogoUrl)
  {
    Article(
      p.title,
      p.description,
      p.url,
      OrElse(p.imageUrl, LogoUrl),
      p.publishedTime,
      OrElse(p.modifiedTime, p.publishedTime),
      p.authorName,
      Publisher(SiteName, LogoUrl),
      p.url)
  }

  /** An article never modified is dated by its publication, and one without
      an image shows the logo; an empty string counts as absent for both. */
  lemma ArticleFallbacks(p: ArticleProps)
    ensures !Present(p.modifiedTime) ==> ArticleSchema(p).dateModified == ArticleSchema(p).datePublished
    ensures p.imageUrl == Some("") ==> ArticleSchema(p).image == LogoUrl
    ensures ArticleSchema(p).image != ""
  {
  }
}
