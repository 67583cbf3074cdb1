/**
 * The head of an HTML page seen as the ordered list of tags emitted into it:
 * which tag (element plus the name, property, rel or http-equiv it carries) and
 * its content. Exact markup and white space are not modelled.
 */
module Html {

  /** Every tag the site's pages put in their head. */
  datatype Key =
    | TitleElement          // <title>
    | MetaTitle             // <meta name="title">
    | Description           // <meta name="description">
    | Robots                // <meta name="robots">
    | Canonical             // <link rel="canonical">
    | OgType | OgUrl | OgTitle | OgDescription | OgImage | OgSiteName
    | ArticlePublishedTime | ArticleModifiedTime | ArticleAuthor | ArticleSection | ArticleTag
    | TwitterCard | TwitterUrl | TwitterTitle | TwitterDescription | TwitterImage
    | Refresh               // <meta http-equiv="refresh">
  {
    /** The name, property, rel or http-equiv value written into the markup. */
    function Name(): string {
      match this
      case TitleElement => "title"
      case MetaTitle => "title"
      case Description => "description"
      case Robots => "robots"
      case Canonical => "canonical"
      case OgType => "og:type"
      case OgUrl => "og:url"
      case OgTitle => "og:title"
      case OgDescription => "og:description"
      case OgImage => "og:image"
      case OgSiteName => "og:site_name"
      case ArticlePublishedTime => "article:published_time"
      case ArticleModifiedTime => "article:modified_time"
      case ArticleAuthor => "article:author"
      case ArticleSection => "article:section"
      case ArticleTag => "article:tag"
      case TwitterCard => "twitter:card"
      case TwitterUrl => "twitter:url"
      case TwitterTitle => "twitter:title"
      case TwitterDescription => "twitter:description"
      case TwitterImage => "twitter:image"
      case Refresh => "refresh"
    }

    predicate IsArticle() {
      || this.ArticlePublishedTime? || this.ArticleModifiedTime? || this.ArticleAuthor?
      || this.ArticleSection? || this.ArticleTag?
    }
  }

  datatype Tag = Tag(key: Key, content: string)

  /** The contents of every tag with the given key, in document order. */
  function Contents(tags: seq<Tag>, key: Key): (r: seq<string>)
    ensures |r| <= |tags|
    decreases |tags|
  {
    if |tags| == 0 then []
    else (if tags[0].key == key then [tags[0].content] else []) + Contents(tags[1..], key)
  }

  lemma {:induction false} ContentsAppend(a: seq<Tag>, b: seq<Tag>, key: Key)
    ensures Contents(a + b, key) == Contents(a, key) + Contents(b, key)
    decreases |a|
  {
    if |a| == 0 {
      assert a + b == b;
    } else {
      var ab := a + b;
      assert ab[0] == a[0];
      assert ab[1..] == a[1..] + b;
      ContentsAppend(a[1..], b, key);
      var h := if a[0].key == key then [a[0].content] else [];
      assert Contents(ab, key) == h + Contents(ab[1..], key);
      assert Contents(a, key) == h + Contents(a[1..], key);
    }
  }

  /** Tags all of other keys contribute nothing. */
  lemma {:induction false} ContentsOfOtherKeys(tags: seq<Tag>, key: Key)
    requires forall i :: 0 <= i < |tags| ==> tags[i].key != key
    ensures Contents(tags, key) == []
    decreases |tags|
  {
    if |tags| > 0 {
      ContentsOfOtherKeys(tags[1..], key);
    }
  }

  /** A key carried by exactly one tag has exactly that tag's content. */
  lemma ContentsOfUniqueKey(tags: seq<Tag>, key: Key, i: nat)
    requires i < |tags| && tags[i].key == key
    requires forall j :: 0 <= j < |tags| && j != i ==> tags[j].key != key
    ensures Contents(tags, key) == [tags[i].content]
  {
    var front, back := tags[..i], tags[i + 1..];
    assert tags == front + [tags[i]] + back;
    ContentsAppend(front + [tags[i]], back, key);
    ContentsAppend(front, [tags[i]], key);
    assert forall j :: 0 <= j < |front| ==> front[j] == tags[j];
    ContentsOfOtherKeys(front, key);
    assert forall j :: 0 <= j < |back| ==> back[j] == tags[i + 1 + j];
    ContentsOfOtherKeys(back, key);
  }

  /** Every content listed for a key belongs to a tag with that key. */
  lemma {:induction false} ContentsComeFromTags(tags: seq<Tag>, key: Key, c: string)
    requires c in Contents(tags, key)
    ensures Tag(key, c) in tags
    decreases |tags|
  {
    if tags[0] != Tag(key, c) {
      ContentsComeFromTags(tags[1..], key, c);
    }
  }

  /** The key at position `i` of `keys` occurs there only. */
  predicate OnlyAt(keys: seq<Key>, i: nat) {
    i < |keys| && forall j :: 0 <= j < |keys| && j != i ==> keys[j] != keys[i]
  }

  /** The tags carry exactly the given keys, in order. */
  predicate HasKeys(tags: seq<Tag>, keys: seq<Key>) {
    |tags| == |keys| && forall j :: 0 <= j < |keys| ==> tags[j].key == keys[j]
  }

  /** In a block whose keys are known, a key found only at `i` has that tag's content. */
  lemma ContentsOfKeyAt(tags: seq<Tag>, keys: seq<Key>, i: nat)
    requires HasKeys(tags, keys) && OnlyAt(keys, i)
    ensures Contents(tags, keys[i]) == [tags[i].content]
  {
    ContentsOfUniqueKey(tags, keys[i], i);
  }

  /** In a block whose keys are known, a key not among them has no content. */
  lemma ContentsOfAbsentKey(tags: seq<Tag>, keys: seq<Key>, key: Key)
    requires HasKeys(tags, keys) && key !in keys
    ensures Contents(tags, key) == []
  {
    assert forall j :: 0 <= j < |tags| ==> tags[j].key == keys[j] != key;
    ContentsOfOtherKeys(tags, key);
  }

  /** Contents of four consecutive blocks. */
  lemma ContentsOfFour(a: seq<Tag>, b: seq<Tag>, c: seq<Tag>, d: seq<Tag>, key: Key)
    ensures Contents(a + b + c + d, key) == Contents(a, key) + Contents(b, key) + Contents(c, key) + Contents(d, key)
  {
    ContentsAppend(a + b + c, d, key);
    ContentsAppend(a + b, c, key);
    ContentsAppend(a, b, key);
  }

  /** Contents of five consecutive blocks. */
  lemma ContentsOfFive(a: seq<Tag>, b: seq<Tag>, c: seq<Tag>, d: seq<Tag>, e: seq<Tag>, key: Key)
    ensures Contents(a + b + c + d + e, key)
         == Contents(a, key) + Contents(b, key) + Contents(c, key) + Contents(d, key) + Contents(e, key)
  {
    ContentsAppend(a + b + c + d, e, key);
    ContentsOfFour(a, b, c, d, key);
  }
}
