/**
 * The sitemap function (`supabase/functions/sitemap/index.ts`): two static pages
 * followed by one entry per published post, at `/blog/<id>-<title slug>`; any
 * exception while building it yields a minimal two-page sitemap instead.
 */
module Sitemap {
  import opened Wrappers
  import opened Text
  import opened Uuid
  import opened Js
  import Slug
  import OgRedirect

  const SiteUrl := "https://www.flowtheoryai.com"

  /** One `<url>` element. */
  datatype Entry = Entry(loc: string, lastmod: Option<string>, changefreq: Option<string>, priority: string)

  /** The fields of a listed post the sitemap reads. */
  datatype Post = Post(id: string, title: Field, publishedAt: string)

  /** What fetching the post list yields: a non-2xx response, the parsed body with
      its (possibly missing) posts, or `Unreachable` for anything that throws and
      so ends in the fallback document — the fetch or the body parse failing, a
      `null` body, or a `posts` field that is truthy but not an array. */
  datatype ListResponse = Unreachable | NotOk | Ok(posts: Option<seq<Post>>)

  /** The document and whether it carries the one-hour cache header. */
  datatype Response = Response(entries: seq<Entry>, cached: bool)

  const StaticEntries: seq<Entry> := [
    Entry(SiteUrl + "/", None, Some("weekly"), "1.0"),
    Entry(SiteUrl + "/blog", None, Some("daily"), "0.9")
  ]

  const FallbackEntries: seq<Entry> := [
    Entry(SiteUrl + "/", None, None, "1.0"),
    Entry(SiteUrl + "/blog", None, None, "0.9")
  ]

  /** The posts the sitemap lists: those of a successful response, else none. */
  function ListedPosts(list: ListResponse): seq<Post>
    requires !list.Unreachable?
  {
    if list.Ok? then list.posts.GetOr([]) else []
  }

  /** The path token of a post's URL: its id, a hyphen, its title's slug. */
  function PostToken(id: string, title: string): string {
    id + "-" + Slug.GenerateSlug(title)
  }

  /** The entry of one post, or None where building it throws: a title that is not
      a string (`toLowerCase` of undefined) or a publication date `toISOString`
      rejects. `isoDate` stands for `new Date(d).toISOString()`. */
  function PostEntry(post: Post, isoDate: string -> Option<string>): (r: Option<Entry>)
    ensures r.Some? <==> post.title.Str? && isoDate(post.publishedAt).Some?
    ensures r.Some? ==>
      && r.value.loc == SiteUrl + "/blog/" + PostToken(post.id, post.title.s)
      && r.value.lastmod == Some(FirstSegment(isoDate(post.publishedAt).value, 'T'))
      && r.value.changefreq == Some("monthly")
      && r.value.priority == "0.8"
  {
    match (post.title, isoDate(post.publishedAt))
    case (Str(title), Some(iso)) =>
      Some(Entry(SiteUrl + "/blog/" + PostToken(post.id, title), Some(FirstSegment(iso, 'T')),
                 Some("monthly"), "0.8"))
    case _ => None
  }

  /** The entries of all posts in order, or None when any of them throws. */
  function PostEntries(posts: seq<Post>, isoDate: string -> Option<string>): Option<seq<Entry>> {
    MapAll(posts, post => PostEntry(post, isoDate))
  }

  /** The handler: the static pages and the post entries, cacheable; the minimal
      sitemap, not cacheable, when anything throws. */
  function Generate(list: ListResponse, isoDate: string -> Option<string>): (r: Response)
    ensures r.cached <==> !list.Unreachable? && forall post :: post in ListedPosts(list) ==> PostEntry(post, isoDate).Some?
    ensures !r.cached ==> r.entries == FallbackEntries
    ensures r.cached ==>
      && |r.entries| == |StaticEntries| + |ListedPosts(list)|
      && r.entries[..|StaticEntries|] == StaticEntries
  {
    if list.Unreachable? then Response(FallbackEntries, false)
    else
      match PostEntries(ListedPosts(list), isoDate)
      case Some(entries) => Response(StaticEntries + entries, true)
      case None => Response(FallbackEntries, false)
  }

  /** A successful sitemap lists the two static pages first and then one entry per
      post, in the order of the response, each at `/blog/<id>-<slug>` with monthly
      change frequency and priority 0.8. */
  lemma SitemapLayout(list: ListResponse, isoDate: string -> Option<string>)
    requires Generate(list, isoDate).cached
    ensures var r := Generate(list, isoDate); var posts := ListedPosts(list);
      && |r.entries| == |StaticEntries| + |posts|
      && r.entries[..2] == StaticEntries
      && forall i :: 0 <= i < |posts| ==>
           && posts[i].title.Str?
           && r.entries[2 + i].loc == SiteUrl + "/blog/" + PostToken(posts[i].id, posts[i].title.s)
           && r.entries[2 + i].changefreq == Some("monthly")
           && r.entries[2 + i].priority == "0.8"
  {
    var posts := ListedPosts(list);
    var entries := PostEntries(posts, isoDate).value;
    var r := Generate(list, isoDate);
    assert r.entries == StaticEntries + entries;
    assert r.entries[..2] == StaticEntries;
    forall i | 0 <= i < |posts|
      ensures posts[i].title.Str?
      ensures r.entries[2 + i].loc == SiteUrl + "/blog/" + PostToken(posts[i].id, posts[i].title.s)
      ensures r.entries[2 + i].changefreq == Some("monthly") && r.entries[2 + i].priority == "0.8"
    {
      var e := PostEntry(posts[i], isoDate);
      assert (post => PostEntry(post, isoDate))(posts[i]) == e;
      assert r.entries[2 + i] == entries[i] == e.value;
    }
  }

  /** A failed or missing list leaves only the static pages. */
  lemma NoPostsStaticOnly(list: ListResponse, isoDate: string -> Option<string>)
    requires list.NotOk? || list == Ok(None) || list == Ok(Some([]))
    ensures Generate(list, isoDate) == Response(StaticEntries, true)
  {
    assert StaticEntries + [] == StaticEntries;
  }

  /** One post whose date cannot be converted replaces the whole sitemap by the
      minimal one. */
  lemma BadDateFallsBack(list: ListResponse, isoDate: string -> Option<string>, i: nat)
    requires list.Ok? && list.posts.Some? && i < |list.posts.value|
    requires isoDate(list.posts.value[i].publishedAt).None?
    ensures Generate(list, isoDate) == Response(FallbackEntries, false)
  {
    var posts := ListedPosts(list);
    assert (post => PostEntry(post, isoDate))(posts[i]).None?;
  }

  /** Both documents start with the same two pages at the same priorities; the
      fallback only drops the change frequencies. */
  lemma FallbackMatchesStatic()
    ensures |FallbackEntries| == |StaticEntries|
    ensures forall i :: 0 <= i < |StaticEntries| ==>
      && FallbackEntries[i].loc == StaticEntries[i].loc
      && FallbackEntries[i].priority == StaticEntries[i].priority
      && FallbackEntries[i].changefreq == None
  {
  }

  /** The path of a post's sitemap URL names the post to the Open Graph function:
      for a UUID id, extracting the id from the token after `/blog/` gives the id. */
  lemma SitemapUrlResolvesInOgRedirect(id: string, title: string)
    requires IsUuid(id)
    ensures OgRedirect.ExtractIdFromSlug(PostToken(id, title)) == Some(id)
  {
    OgRedirect.SitemapLayoutRoundTrip(id, Slug.GenerateSlug(title));
  }

  /** The site's own link parser does not recover the id from the same token. */
  lemma SitemapUrlMisreadBySite(id: string, title: string)
    requires IsUuid(id) && Slug.GenerateSlug(title) != ""
    ensures Slug.ExtractIdFromSlug(PostToken(id, title)) != id
  {
    Slug.SitemapLayoutNotRecovered(id, Slug.GenerateSlug(title));
  }
}
