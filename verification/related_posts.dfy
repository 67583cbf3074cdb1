/**
 * The related-posts strip under a blog post (`src/components/RelatedPosts.tsx`):
 * the fetched posts other than the current one, at most `maxPosts` of them, each
 * shown as a card with a link, an author avatar (image or initials) and, when the
 * post has content, its reading time.
 */
module RelatedPosts {
  import opened Wrappers
  import opened Text
  import opened Js
  import Slug
  import Uuid
  import ReadingTime

  const DefaultMaxPosts := 3
  const SkeletonCards := 3

  datatype Author = Author(displayName: Field, avatarUrl: Field)

  datatype Post = Post(
    id: string,
    title: string,
    excerpt: Field,
    coverImageUrl: Field,
    author: Option<Author>,
    content: Option<ReadingTime.Content>)

  // ---------------------------------------------------------------------------
  // Selection

  /** `posts.filter(post => post.id !== currentPostId)`. */
  function OtherPosts(posts: seq<Post>, currentId: string): (r: seq<Post>)
    ensures |r| <= |posts|
    ensures forall i :: 0 <= i < |r| ==> r[i].id != currentId
    decreases |posts|
  {
    if |posts| == 0 then []
    else (if posts[0].id == currentId then [] else [posts[0]]) + OtherPosts(posts[1..], currentId)
  }

  /** Filtering distributes over concatenation, so it keeps the fetched order. */
  lemma {:induction false} OtherPostsAppend(a: seq<Post>, b: seq<Post>, currentId: string)
    ensures OtherPosts(a + b, currentId) == OtherPosts(a, currentId) + OtherPosts(b, currentId)
    decreases |a|
  {
    if |a| == 0 {
      assert a + b == b;
    } else {
      assert (a + b)[0] == a[0];
      assert (a + b)[1..] == a[1..] + b;
      OtherPostsAppend(a[1..], b, currentId);
    }
  }

  /** The filter drops exactly the current post: a post survives iff it was
      fetched and is not the current one. */
  lemma {:induction false} OtherPostsMembers(posts: seq<Post>, currentId: string, p: Post)
    ensures p in OtherPosts(posts, currentId) <==> p in posts && p.id != currentId
    decreases |posts|
  {
    if |posts| > 0 {
      OtherPostsMembers(posts[1..], currentId, p);
      assert posts == [posts[0]] + posts[1..];
    }
  }

  /** The end index `slice(0, end)` stops at: a negative end counts from the back,
      and the result is clamped to `0..len`. */
  function SliceEnd(len: nat, end: int): (k: nat)
    ensures k <= len
    ensures 0 <= end ==> k == if end < len then end else len
    ensures end < 0 ==> k == if len + end > 0 then len + end else 0
  {
    if end < 0 then (if len + end > 0 then len + end else 0)
    else if end < len then end
    else len
  }

  /** `data?.posts.filter(...).slice(0, maxPosts) || []`. */
  function Related(data: Option<seq<Post>>, currentId: string, maxPosts: int): (r: seq<Post>)
    ensures data.None? ==> r == []
    ensures data.Some? ==> |r| == SliceEnd(|OtherPosts(data.value, currentId)|, maxPosts)
    ensures data.Some? ==> r == OtherPosts(data.value, currentId)[..|r|]
    ensures forall i :: 0 <= i < |r| ==> r[i].id != currentId
    ensures maxPosts >= 0 ==> |r| <= maxPosts
  {
    match data
    case None => []
    case Some(posts) =>
      var others := OtherPosts(posts, currentId);
      others[..SliceEnd(|others|, maxPosts)]
  }

  /** With enough other posts, exactly `maxPosts` are shown: the first ones. */
  lemma RelatedTakesFirst(posts: seq<Post>, currentId: string, maxPosts: nat)
    requires maxPosts <= |OtherPosts(posts, currentId)|
    ensures Related(Some(posts), currentId, maxPosts) == OtherPosts(posts, currentId)[..maxPosts]
  {
  }

  /** Every shown post was fetched. */
  lemma RelatedWereFetched(posts: seq<Post>, currentId: string, maxPosts: int, p: Post)
    requires p in Related(Some(posts), currentId, maxPosts)
    ensures p in posts && p.id != currentId
  {
    var others := OtherPosts(posts, currentId);
    var r := Related(Some(posts), currentId, maxPosts);
    var i :| 0 <= i < |r| && r[i] == p;
    assert others[i] == p;
    OtherPostsMembers(posts, currentId, p);
  }

  // ---------------------------------------------------------------------------
  // Authors

  /** Where an avatar comes from: one of the bundled portraits, or a URL. */
  datatype Image = Local(name: string) | Remote(url: string)

  /** The names with a bundled portrait. */
  predicate HasPortrait(name: string) {
    name == "Hakim Cisse" || name == "Yassine Diallo" || name == "Yunus Kounkourou"
  }

  /** `getAuthorImage`: nothing without a display name; else the bundled portrait,
      else a non-empty avatar URL, else nothing. */
  function AuthorImage(author: Option<Author>): (r: Option<Image>)
    ensures r.Some? ==> author.Some? && Truthy(author.value.displayName)
    ensures r.Some? && r.value.Local? <==>
      author.Some? && Truthy(author.value.displayName) && HasPortrait(author.value.displayName.s)
    ensures r.Some? && r.value.Local? ==> r.value.name == author.value.displayName.s
    ensures r.Some? && r.value.Remote? <==>
      && author.Some? && Truthy(author.value.displayName) && !HasPortrait(author.value.displayName.s)
      && Truthy(author.value.avatarUrl)
    ensures r.Some? && r.value.Remote? ==> r.value.url == author.value.avatarUrl.s
  {
    match author
    case None => None
    case Some(a) =>
      if !Truthy(a.displayName) then None
      else if HasPortrait(a.displayName.s) then Some(Local(a.displayName.s))
      else if Truthy(a.avatarUrl) then Some(Remote(a.avatarUrl.s))
      else None
  }

  /** The first character of every non-empty piece, in order (`n[0]` of an empty
      piece is `undefined`, which `join` writes as nothing). */
  function Heads(parts: seq<string>): string
    decreases |parts|
  {
    if |parts| == 0 then ""
    else (if parts[0] == "" then "" else [parts[0][0]]) + Heads(parts[1..])
  }

  /** `getAuthorInitials`: "A" for a missing or empty name, else the upper-cased
      first letters of the space-separated parts. */
  function AuthorInitials(name: Field): (r: string)
    ensures !Truthy(name) ==> r == "A"
    ensures Truthy(name) ==> r == ToUpper(WordHeads(name.s, true))
  {
    if !Truthy(name) then "A"
    else
      HeadsOfSplit(name.s);
      ToUpper(Heads(Split(name.s, ' ')))
  }

  /** Reference definition: the characters that open a word, i.e. a non-space
      character at the start (when `afterSpace`) or right after a space. */
  function WordHeads(s: string, afterSpace: bool): string
    decreases |s|
  {
    if |s| == 0 then ""
    else (if afterSpace && s[0] != ' ' then [s[0]] else "") + WordHeads(s[1..], s[0] == ' ')
  }

  lemma HeadsCons(p: string, rest: seq<string>)
    ensures Heads([p] + rest) == (if p == "" then "" else [p[0]]) + Heads(rest)
  {
    assert ([p] + rest)[1..] == rest;
  }

  /** Split-then-take-heads finds exactly the word openers of the text. */
  lemma {:induction false} HeadsOfSplit(s: string)
    ensures Heads(Split(s, ' ')) == WordHeads(s, true)
    ensures Heads(Split(s, ' ')[1..]) == WordHeads(s, false)
    decreases |s|
  {
    if |s| > 0 {
      HeadsOfSplit(s[1..]);
      var rest := Split(s[1..], ' ');
      if s[0] == ' ' {
        assert Split(s, ' ') == [""] + rest;
        HeadsCons("", rest);
        assert Split(s, ' ')[1..] == rest;
      } else {
        var first := [s[0]] + rest[0];
        assert Split(s, ' ') == [first] + rest[1..];
        HeadsCons(first, rest[1..]);
        assert Split(s, ' ')[1..] == rest[1..];
      }
    }
  }

  /** Inside a word, nothing opens a new one. */
  lemma {:induction false} WordHeadsOfWord(s: string, afterSpace: bool)
    requires forall i :: 0 <= i < |s| ==> s[i] != ' '
    ensures WordHeads(s, afterSpace) == if afterSpace && |s| > 0 then [s[0]] else ""
    decreases |s|
  {
    if |s| > 0 {
      WordHeadsOfWord(s[1..], false);
    }
  }

  lemma {:induction false} WordHeadsAppend(a: string, afterSpace: bool, b: string)
    requires |a| > 0 && a[|a| - 1] != ' '
    ensures WordHeads(a + b, afterSpace) == WordHeads(a, afterSpace) + WordHeads(b, false)
    decreases |a|
  {
    assert (a + b)[0] == a[0];
    assert (a + b)[1..] == a[1..] + b;
    if |a| > 1 {
      WordHeadsAppend(a[1..], a[0] == ' ', b);
    } else {
      assert a[1..] + b == b;
    }
  }

  /** A first and a last name give their two opening letters, upper-cased. */
  lemma TwoWordInitials(first: string, last: string)
    requires first != "" && last != "" && ' ' !in first && ' ' !in last
    ensures AuthorInitials(Str(first + " " + last)) == ToUpper([first[0], last[0]])
  {
    var rest := " " + last;
    assert first + " " + last == first + rest;
    WordHeadsOfWord(first, true);
    WordHeadsOfWord(last, true);
    assert rest[0] == ' ' && rest[1..] == last;
    assert WordHeads(rest, false) == WordHeads(last, true);
    WordHeadsAppend(first, true, rest);
  }

  // ---------------------------------------------------------------------------
  // Rendering

  /** JavaScript truthiness of a post's content. */
  predicate ContentPresent(content: Option<ReadingTime.Content>) {
    match content
    case None => false
    case Some(Raw(body)) => body != ""
    case Some(Structured(doc)) =>
      match doc
      case JNull => false
      case JBool(b) => b
      case JNumber(n) => n != 0
      case JString(s) => s != ""
      case _ => true
  }

  /** What one card shows. */
  datatype Card = Card(
    path: string,
    coverImage: Option<string>,
    avatar: Option<Image>,
    avatarAlt: string,
    initials: string,
    readingTime: Option<string>,
    excerpt: Option<string>)

  function FieldIfTruthy(f: Field): (r: Option<string>)
    ensures r.Some? <==> Truthy(f)
    ensures r.Some? ==> r.value == f.s
  {
    if Truthy(f) then Some(f.s) else None
  }

  /** The card of one post. `parse` stands for `JSON.parse`. */
  function CardOf(post: Post, parse: string -> Option<ReadingTime.Json>): (c: Card)
    ensures c.readingTime.Some? <==> ContentPresent(post.content)
    ensures c.readingTime.Some? ==>
      c.readingTime.value == ReadingTime.FormatReadingTime(ReadingTime.CalculateReadingTime(post.content.value, parse))
    ensures c.path == Slug.CreateBlogPath(post.id, post.title)
  {
    var name := if post.author.Some? then post.author.value.displayName else Undefined;
    Card(
      Slug.CreateBlogPath(post.id, post.title),
      FieldIfTruthy(post.coverImageUrl),
      AuthorImage(post.author),
      Or(name, "Author"),
      AuthorInitials(if Truthy(name) then name else Null),
      if ContentPresent(post.content)
        then Some(ReadingTime.FormatReadingTime(ReadingTime.CalculateReadingTime(post.content.value, parse)))
        else None,
      FieldIfTruthy(post.excerpt))
  }

  /** What the component renders. */
  datatype View = Skeleton(placeholders: nat) | Nothing | Cards(cards: seq<Card>)

  /** The component: placeholders while loading, nothing when no other post is
      left, else one card per related post, in order. `maxPosts` is the prop,
      `None` when it is left out, which shows at most three posts. */
  function Render(isLoading: bool, data: Option<seq<Post>>, currentId: string, maxPosts: Option<int>,
                  parse: string -> Option<ReadingTime.Json>): (v: View)
    ensures isLoading <==> v.Skeleton?
    ensures v.Skeleton? ==> v.placeholders == SkeletonCards
    ensures v.Nothing? <==> !isLoading && Related(data, currentId, maxPosts.GetOr(DefaultMaxPosts)) == []
    ensures v.Cards? ==>
      var r := Related(data, currentId, maxPosts.GetOr(DefaultMaxPosts));
      |v.cards| == |r| > 0 && forall i :: 0 <= i < |r| ==> v.cards[i] == CardOf(r[i], parse)
    ensures v.Cards? && maxPosts.None? ==> |v.cards| <= DefaultMaxPosts
  {
    var related := Related(data, currentId, maxPosts.GetOr(DefaultMaxPosts));
    if isLoading then Skeleton(SkeletonCards)
    else if |related| == 0 then Nothing
    else Cards(seq(|related|, i requires 0 <= i < |related| => CardOf(related[i], parse)))
  }

  /** Every card links to a path from which the site's parser recovers the
      post's short id. */
  lemma CardLinksResolve(isLoading: bool, data: Option<seq<Post>>, currentId: string, maxPosts: Option<int>,
                         parse: string -> Option<ReadingTime.Json>, i: nat)
    requires Render(isLoading, data, currentId, maxPosts, parse).Cards?
    requires i < |Related(data, currentId, maxPosts.GetOr(DefaultMaxPosts))|
    requires Uuid.IsUuid(Related(data, currentId, maxPosts.GetOr(DefaultMaxPosts))[i].id)
    ensures var v := Render(isLoading, data, currentId, maxPosts, parse);
      var id := Related(data, currentId, maxPosts.GetOr(DefaultMaxPosts))[i].id;
      Slug.ExtractIdFromSlug(v.cards[i].path[6..]) == id[..8]
  {
  }
}
