/**
 * The blog URL codec of `src/lib/slug.ts`: a title is normalised into a slug,
 * a post path is `/blog/<slug>-<shortId>` where the short id is the first
 * `-`-segment of the record id, and the router parameter is turned back into an
 * id by keeping a bare UUID as it is and otherwise taking the text after the
 * last hyphen.
 */
module Slug {
  import opened Text
  import opened Uuid

  const MaxSlugLength := 60

  /** Characters a slug is made of: lower-case ASCII letters, digits, `_` and `-`. */
  predicate IsSlugChar(c: char) {
    IsAsciiLower(c) || IsDigit(c) || c == '_' || c == '-'
  }

  predicate NoDoubleHyphen(s: string) {
    forall i :: 0 <= i < |s| - 1 ==> !(s[i] == '-' && s[i + 1] == '-')
  }

  /** The shape every generated slug has. */
  predicate IsSlug(s: string) {
    && |s| <= MaxSlugLength
    && (forall i :: 0 <= i < |s| ==> IsSlugChar(s[i]))
    && NoDoubleHyphen(s)
  }

  /** The characters of `s` that satisfy `p`, in order. */
  function Filter(s: string, p: char -> bool): (r: string)
    ensures |r| <= |s|
    decreases |s|
  {
    if |s| == 0 then ""
    else (if p(s[0]) then [s[0]] else []) + Filter(s[1..], p)
  }

  lemma {:induction false} FilterAppend(a: string, b: string, p: char -> bool)
    ensures Filter(a + b, p) == Filter(a, p) + Filter(b, p)
    decreases |a|
  {
    if |a| == 0 {
      assert a + b == b;
    } else {
      var ab := a + b;
      var head: string := if p(a[0]) then [a[0]] else [];
      assert ab[0] == a[0] && ab[1..] == a[1..] + b;
      FilterAppend(a[1..], b, p);
      assert Filter(ab, p) == head + (Filter(a[1..], p) + Filter(b, p));
      assert Filter(a, p) == head + Filter(a[1..], p);
    }
  }

  /** What `/[^\w\s-]/g` leaves in place. */
  predicate Kept(c: char) {
    IsWordChar(c) || IsSpace(c) || c == '-'
  }

  /** `replace(/[^\w\s-]/g, "")`: removes every other character. */
  function StripSpecial(s: string): (r: string)
    ensures |r| <= |s|
    ensures forall i :: 0 <= i < |r| ==> Kept(r[i])
    ensures NoUpper(s) ==> NoUpper(r)
    ensures (forall i :: 0 <= i < |s| ==> Kept(s[i])) ==> r == s
    ensures |s| == 1 ==> (r == s <==> Kept(s[0])) && (r == "" <==> !Kept(s[0]))
    decreases |s|
  {
    if |s| == 0 then ""
    else (if Kept(s[0]) then [s[0]] else []) + StripSpecial(s[1..])
  }

  /** Stripping keeps exactly the kept characters, in order. */
  lemma {:induction false} StripSpecialIsFilter(s: string)
    ensures StripSpecial(s) == Filter(s, Kept)
    decreases |s|
  {
    if |s| > 0 {
      StripSpecialIsFilter(s[1..]);
    }
  }

  /** Stripping works character by character: with the one-character cases of
      its contract this makes the result exactly the kept characters, in order. */
  lemma StripSpecialAppend(a: string, b: string)
    ensures StripSpecial(a + b) == StripSpecial(a) + StripSpecial(b)
  {
    StripSpecialIsFilter(a + b);
    StripSpecialIsFilter(a);
    StripSpecialIsFilter(b);
    FilterAppend(a, b, Kept);
  }

  /** `replace(/X+/g, "-")` where `inRun` is the class X: every maximal run of
      class characters becomes one hyphen; other characters stay. */
  function CollapseRuns(s: string, inRun: char -> bool): (r: string)
    ensures |r| <= |s|
    ensures |s| > 0 && !inRun(s[0]) ==> |r| > 0 && r[0] == s[0]
    decreases |s|
  {
    if |s| == 0 then ""
    else if inRun(s[0]) then "-" + CollapseRuns(s[SpanLength(s, inRun)..], inRun)
    else [s[0]] + CollapseRuns(s[1..], inRun)
  }

  /** Every class character is a lone hyphen. */
  predicate SingleRuns(s: string, inRun: char -> bool) {
    forall i {:trigger s[i]} :: 0 <= i < |s| ==> inRun(s[i]) ==> s[i] == '-' && (i + 1 < |s| ==> !inRun(s[i + 1]))
  }

  /** Collapsing leaves a string whose runs are already single hyphens unchanged. */
  lemma {:induction false} CollapseSingleRuns(s: string, inRun: char -> bool)
    requires SingleRuns(s, inRun)
    ensures CollapseRuns(s, inRun) == s
    decreases |s|
  {
    if |s| > 0 {
      assert SingleRuns(s[1..], inRun) by {
        forall i | 0 <= i < |s| - 1 && inRun(s[1..][i])
          ensures s[1..][i] == '-' && (i + 1 < |s| - 1 ==> !inRun(s[1..][i + 1]))
        {
          assert s[1..][i] == s[i + 1];
          assert i + 1 < |s| - 1 ==> s[1..][i + 1] == s[i + 2];
        }
      }
      CollapseSingleRuns(s[1..], inRun);
      if inRun(s[0]) {
        assert |s| > 1 ==> !inRun(s[1]);
        assert SpanLength(s, inRun) == 1;
        assert CollapseRuns(s, inRun) == "-" + CollapseRuns(s[1..], inRun);
        assert s == [s[0]] + s[1..];
      }
    }
  }

  /** After collapsing, a class character is a `-` and is never followed by another
      class character. */
  lemma {:induction false} CollapsedRunsAreSingle(s: string, inRun: char -> bool)
    ensures SingleRuns(CollapseRuns(s, inRun), inRun)
    decreases |s|
  {
    if |s| > 0 {
      var r := CollapseRuns(s, inRun);
      var t, head;
      if inRun(s[0]) {
        t := s[SpanLength(s, inRun)..];
        head := '-';
      } else {
        t := s[1..];
        head := s[0];
      }
      CollapsedRunsAreSingle(t, inRun);
      var rest := CollapseRuns(t, inRun);
      assert r == [head] + rest;
      assert inRun(head) && |rest| > 0 ==> !inRun(rest[0]);
      forall i | 0 <= i < |r| && inRun(r[i])
        ensures r[i] == '-' && (i + 1 < |r| ==> !inRun(r[i + 1]))
      {
        if i > 0 {
          assert r[i] == rest[i - 1];
          assert i + 1 < |r| ==> r[i + 1] == rest[i];
        }
      }
    }
  }

  /** Collapsing introduces no character other than `-`. */
  lemma {:induction false} CollapseKeepsSlugChars(s: string, inRun: char -> bool)
    requires forall i :: 0 <= i < |s| ==> IsSlugChar(s[i]) || inRun(s[i])
    ensures forall i :: 0 <= i < |CollapseRuns(s, inRun)| ==>
      var c := CollapseRuns(s, inRun)[i]; c == '-' || (IsSlugChar(c) && !inRun(c))
    decreases |s|
  {
    if |s| > 0 {
      var t := if inRun(s[0]) then s[SpanLength(s, inRun)..] else s[1..];
      assert forall i :: 0 <= i < |t| ==> t[i] == s[|s| - |t| + i];
      CollapseKeepsSlugChars(t, inRun);
    }
  }

  lemma CleanKeepsSlug(title: string)
    requires IsSlug(title)
    ensures StripSpecial(Trim(ToLower(title))) == title
  {
    assert NoUpper(title) && NoSpace(title);
    assert forall i :: 0 <= i < |title| ==> Kept(title[i]);
  }

  /** The first three steps of `generateSlug`: lower-case, trim, strip. */
  function Clean(title: string): (r: string)
    ensures forall i :: 0 <= i < |r| ==> IsSlugChar(r[i]) || IsSpace(r[i])
    ensures IsSlug(title) ==> r == title
  {
    var lowered := ToLower(title);
    var trimmed := Trim(lowered);
    assert NoUpper(trimmed) by {
      TrimKeeps(lowered, c => !IsAsciiUpper(c));
    }
    assert IsSlug(title) ==> StripSpecial(trimmed) == title by {
      if IsSlug(title) {
        CleanKeepsSlug(title);
      }
    }
    StripSpecial(trimmed)
  }

  /** Keeps at most the first 60 characters (`substring(0, 60)`). */
  function Truncate(s: string): (r: string)
    ensures |r| <= MaxSlugLength && |r| <= |s|
    ensures r == s[..|r|]
    ensures |s| <= MaxSlugLength ==> r == s
    ensures |s| > MaxSlugLength ==> |r| == MaxSlugLength
  {
    if |s| <= MaxSlugLength then s else s[..MaxSlugLength]
  }

  /** For hyphens, "every run is a single character" is "no `--`". */
  lemma HyphenRunsAreSingle(s: string)
    ensures SingleRuns(s, IsHyphen) <==> NoDoubleHyphen(s)
  {
    if NoDoubleHyphen(s) {
      forall i | 0 <= i < |s| && IsHyphen(s[i])
        ensures s[i] == '-' && (i + 1 < |s| ==> !IsHyphen(s[i + 1]))
      {
      }
    }
  }

  /** A slug has no white space and no `--`, so neither collapsing step changes it. */
  lemma SlugRunsAreSingle(s: string)
    requires IsSlug(s)
    ensures SingleRuns(s, IsSpace) && SingleRuns(s, IsHyphen)
  {
    HyphenRunsAreSingle(s);
  }

  /** Keeping a prefix keeps the slug shape. */
  lemma TruncateKeepsShape(s: string)
    requires forall i :: 0 <= i < |s| ==> IsSlugChar(s[i])
    requires NoDoubleHyphen(s)
    ensures IsSlug(Truncate(s)) && NoSpace(Truncate(s))
  {
    var r := Truncate(s);
    assert forall i :: 0 <= i < |r| ==> r[i] == s[i];
  }

  /** `generateSlug`: lower-case, trim, strip special characters, white-space runs
      to `-`, hyphen runs to one `-`, keep at most 60 characters. */
  function GenerateSlug(title: string): (r: string)
    ensures IsSlug(r)
    ensures NoSpace(r)
    ensures IsSlug(title) ==> r == title
  {
    var cleaned := Clean(title);
    var dashed := CollapseRuns(cleaned, IsSpace);
    var single := CollapseRuns(dashed, IsHyphen);
    assert forall i :: 0 <= i < |dashed| ==> IsSlugChar(dashed[i]) by {
      CollapseKeepsSlugChars(cleaned, IsSpace);
    }
    assert NoDoubleHyphen(single) && forall i :: 0 <= i < |single| ==> IsSlugChar(single[i]) by {
      CollapseKeepsSlugChars(dashed, IsHyphen);
      CollapsedRunsAreSingle(dashed, IsHyphen);
      HyphenRunsAreSingle(single);
    }
    assert IsSlug(Truncate(single)) && NoSpace(Truncate(single)) by {
      TruncateKeepsShape(single);
    }
    assert IsSlug(title) ==> single == title by {
      if IsSlug(title) {
        SlugRunsAreSingle(title);
        CollapseSingleRuns(title, IsSpace);
        CollapseSingleRuns(title, IsHyphen);
      }
    }
    Truncate(single)
  }

  // ---------------------------------------------------------------------------
  // What a slug keeps of its title

  /** The `\w` characters of `s`, in order. A slug's characters are these and
      `-`, so for a slug this is the slug with its hyphens removed. */
  function WordChars(s: string): string {
    Filter(s, IsWordChar)
  }

  lemma WordCharsAppend(a: string, b: string)
    ensures WordChars(a + b) == WordChars(a) + WordChars(b)
  {
    FilterAppend(a, b, IsWordChar);
  }

  lemma {:induction false} WordCharsOfNonWord(s: string)
    requires forall i :: 0 <= i < |s| ==> !IsWordChar(s[i])
    ensures WordChars(s) == ""
    decreases |s|
  {
    if |s| > 0 {
      assert forall i :: 0 <= i < |s| - 1 ==> s[1..][i] == s[i + 1];
      WordCharsOfNonWord(s[1..]);
    }
  }

  lemma WordCharsOfSpaces(s: string)
    requires AllSpace(s)
    ensures WordChars(s) == ""
  {
    assert forall i :: 0 <= i < |s| ==> IsSpace(s[i]) && !IsWordChar(s[i]);
    WordCharsOfNonWord(s);
  }

  /** Cutting white space off the front keeps the word characters. */
  lemma WordCharsAfterSpaces(s: string, k: nat)
    requires k <= |s| && forall i :: 0 <= i < k ==> IsSpace(s[i])
    ensures WordChars(s[k..]) == WordChars(s)
  {
    assert s == s[..k] + s[k..];
    WordCharsOfSpaces(s[..k]);
    WordCharsAppend(s[..k], s[k..]);
  }

  /** Cutting white space off the end keeps the word characters. */
  lemma WordCharsBeforeSpaces(s: string, m: nat)
    requires m <= |s| && forall i :: m <= i < |s| ==> IsSpace(s[i])
    ensures WordChars(s[..m]) == WordChars(s)
  {
    assert s == s[..m] + s[m..];
    assert AllSpace(s[m..]) by {
      forall i | 0 <= i < |s| - m ensures IsSpace(s[m..][i]) {
        assert s[m..][i] == s[m + i];
      }
    }
    WordCharsOfSpaces(s[m..]);
    WordCharsAppend(s[..m], s[m..]);
  }

  /** Cutting white space off both ends keeps the word characters. */
  lemma WordCharsOfInner(s: string, k: nat, m: nat)
    requires k <= m <= |s|
    requires forall i :: 0 <= i < k ==> IsSpace(s[i])
    requires forall i :: m <= i < |s| ==> IsSpace(s[i])
    ensures WordChars(s[k..m]) == WordChars(s)
  {
    WordCharsBeforeSpaces(s, m);
    var t := s[..m];
    assert forall i :: 0 <= i < k ==> t[i] == s[i];
    WordCharsAfterSpaces(t, k);
    assert t[k..] == s[k..m];
  }

  /** Trimming removes only white space, so no word character. */
  lemma TrimKeepsWordChars(s: string)
    ensures WordChars(Trim(s)) == WordChars(s)
  {
    var r := Trim(s);
    var k := SpanLength(s, IsSpace);
    assert forall i :: 0 <= i < k ==> IsSpace(s[i]);
    WordCharsOfInner(s, k, k + |r|);
  }

  /** `/[^\w\s-]/g` never matches a word character. */
  lemma {:induction false} StripKeepsWordChars(s: string)
    ensures WordChars(StripSpecial(s)) == WordChars(s)
    decreases |s|
  {
    if |s| > 0 {
      var head: string := if Kept(s[0]) then [s[0]] else [];
      StripKeepsWordChars(s[1..]);
      WordCharsAppend(head, StripSpecial(s[1..]));
      assert WordChars(head) == if IsWordChar(s[0]) then [s[0]] else [];
    }
  }

  /** Replacing runs of non-word characters by `-` keeps the word characters. */
  lemma {:induction false} CollapseKeepsWordChars(s: string, inRun: char -> bool)
    requires forall c: char :: inRun(c) ==> !IsWordChar(c)
    ensures WordChars(CollapseRuns(s, inRun)) == WordChars(s)
    decreases |s|
  {
    if |s| > 0 {
      if inRun(s[0]) {
        var n := SpanLength(s, inRun);
        CollapseKeepsWordChars(s[n..], inRun);
        assert s == s[..n] + s[n..];
        WordCharsOfNonWord(s[..n]);
        WordCharsAppend(s[..n], s[n..]);
        WordCharsAppend("-", CollapseRuns(s[n..], inRun));
      } else {
        CollapseKeepsWordChars(s[1..], inRun);
        WordCharsAppend([s[0]], CollapseRuns(s[1..], inRun));
      }
    }
  }

  /** The slug keeps the word characters of the lower-cased title in order: it
      holds a prefix of them, and all of them unless it was cut at 60
      characters. */
  lemma SlugKeepsWordChars(title: string)
    ensures var w, all := WordChars(GenerateSlug(title)), WordChars(ToLower(title));
      |w| <= |all| && w == all[..|w|]
    ensures |GenerateSlug(title)| < MaxSlugLength ==>
      WordChars(GenerateSlug(title)) == WordChars(ToLower(title))
  {
    var dashed := CollapseRuns(Clean(title), IsSpace);
    var single := CollapseRuns(dashed, IsHyphen);
    var slug := GenerateSlug(title);
    SlugSteps(title);
    RunClassesAreNotWords();
    CleanKeepsWordChars(title);
    CollapseKeepsWordChars(Clean(title), IsSpace);
    CollapseKeepsWordChars(dashed, IsHyphen);
    WordCharsOfPrefix(single, |slug|);
  }

  lemma WordCharsOfPrefix(s: string, n: nat)
    requires n <= |s|
    ensures var w, all := WordChars(s[..n]), WordChars(s);
      |w| <= |all| && w == all[..|w|]
  {
    assert s == s[..n] + s[n..];
    WordCharsAppend(s[..n], s[n..]);
  }

  lemma RunClassesAreNotWords()
    ensures forall c: char :: IsSpace(c) ==> !IsWordChar(c)
    ensures forall c: char :: IsHyphen(c) ==> !IsWordChar(c)
  {
  }

  lemma SlugSteps(title: string)
    ensures GenerateSlug(title) == Truncate(CollapseRuns(CollapseRuns(Clean(title), IsSpace), IsHyphen))
  {
  }

  /** Lower-casing aside, the first three steps keep every word character. */
  lemma CleanKeepsWordChars(title: string)
    ensures WordChars(Clean(title)) == WordChars(ToLower(title))
  {
    var lowered := ToLower(title);
    assert Clean(title) == StripSpecial(Trim(lowered));
    TrimKeepsWordChars(lowered);
    StripKeepsWordChars(Trim(lowered));
  }

  /** A string is its own slug exactly when it already has the slug shape. */
  lemma SlugFixedPoint(s: string)
    ensures GenerateSlug(s) == s <==> IsSlug(s)
  {
  }

  lemma GenerateSlugIdempotent(title: string)
    ensures GenerateSlug(GenerateSlug(title)) == GenerateSlug(title)
  {
    SlugFixedPoint(GenerateSlug(title));
  }

  /** Trimming comes before stripping, so a slug may begin or end with a hyphen. */
  lemma SlugMayEndWithHyphen()
    ensures GenerateSlug("Hi !") == "hi-"
  {
    CleanExample();
    CollapseExample();
  }

  lemma CleanExample()
    ensures Clean("Hi !") == "hi "
  {
    LowerTrimExample();
    StripExample();
  }

  lemma LowerTrimExample()
    ensures Trim(ToLower("Hi !")) == "hi !"
  {
    LowerExample();
    TrimExample();
  }

  lemma TrimExample()
    ensures Trim("hi !") == "hi !"
  {
    assert !IsSpace('h') && !IsSpace('!');
  }

  lemma LowerExample()
    ensures ToLower("Hi !") == "hi !"
  {
    var l := ToLower("Hi !");
    assert l[0] == ToLowerChar('H') == 'h';
    assert l[1] == 'i' && l[2] == ' ' && l[3] == '!';
  }

  lemma StripExample()
    ensures StripSpecial("hi !") == "hi "
  {
    assert !Kept('!') && Kept(' ') && Kept('i') && Kept('h');
    assert StripSpecial("!") == "";
    assert StripSpecial(" !") == " ";
    assert StripSpecial("i !") == "i ";
  }

  lemma CollapseExample()
    ensures CollapseRuns("hi ", IsSpace) == "hi-"
    ensures CollapseRuns("hi-", IsHyphen) == "hi-"
  {
    assert "hi "[1..] == "i " && "i "[1..] == " ";
    assert SpanLength(" ", IsSpace) == 1;
    assert "hi-"[1..] == "i-" && "i-"[1..] == "-";
    assert SpanLength("-", IsHyphen) == 1;
  }

  /** `id.split("-")[0]`. */
  function ShortId(id: string): string {
    FirstSegment(id, '-')
  }

  /** The router parameter a post link carries: `<slug>-<shortId>`. */
  function PathToken(id: string, title: string): string {
    GenerateSlug(title) + "-" + ShortId(id)
  }

  /** `createBlogPath`. */
  function CreateBlogPath(id: string, title: string): (r: string)
    ensures r == "/blog/" + PathToken(id, title)
    ensures |r| > 6 && r[..6] == "/blog/"
    ensures IsUuid(id) ==> ExtractIdFromSlug(r[6..]) == id[..8]
    ensures |ShortId(id)| != 12 ==> ExtractIdFromSlug(r[6..]) == ShortId(id)
  {
    var token := GenerateSlug(title) + "-" + ShortId(id);
    assert IsUuid(id) ==> ExtractIdFromSlug(token) == id[..8] by {
      if IsUuid(id) {
        ShortIdRoundTrip(id, title);
      }
    }
    assert |ShortId(id)| != 12 ==> ExtractIdFromSlug(token) == ShortId(id) by {
      if |ShortId(id)| != 12 {
        ExtractTail(GenerateSlug(title), ShortId(id));
      }
    }
    assert ("/blog/" + token)[6..] == token;
    "/blog/" + token
  }

  /** `extractIdFromSlug`: a bare UUID is returned as it is; anything else yields
      the text after its last hyphen (all of it when there is none). */
  function ExtractIdFromSlug(slugWithId: string): (r: string)
    ensures IsUuid(slugWithId) ==> r == slugWithId
    ensures !IsUuid(slugWithId) ==>
      && '-' !in r
      && |r| <= |slugWithId|
      && r == slugWithId[|slugWithId| - |r|..]
      && (|r| == |slugWithId| || slugWithId[|slugWithId| - |r| - 1] == '-')
  {
    if IsUuid(slugWithId) then slugWithId else LastSegment(slugWithId, '-')
  }

  /** Any token `<text>-<short>` whose hyphen-free tail is not twelve characters
      long (so the token cannot be a UUID) gives back that tail. */
  lemma ExtractTail(text: string, short: string)
    requires '-' !in short && |short| != 12
    ensures ExtractIdFromSlug(text + "-" + short) == short
  {
    var token := text + "-" + short;
    if IsUuid(token) {
      assert token == token[..|token| - |short| - 1] + ['-'] + short;
      HyphenFreeTailOfUuid(token, short);
    }
    LastSegmentOfJoin(text, '-', short);
  }

  /** Round trip of the `<slug>-<shortId>` layout: the id extracted from a link
      built for a UUID is that UUID's short id, whatever the title. */
  lemma ShortIdRoundTrip(id: string, title: string)
    requires IsUuid(id)
    ensures ExtractIdFromSlug(PathToken(id, title)) == ShortId(id) == id[..8]
  {
    ShortIdOfUuid(id);
    ExtractTail(GenerateSlug(title), id[..8]);
  }

  /** A bare UUID, the oldest link format, is returned unchanged. */
  lemma BareUuidKept(id: string)
    requires IsUuid(id)
    ensures ExtractIdFromSlug(id) == id
  {
  }

  /** The `<uuid>-<slug>` layout the sitemap emits is not understood here: for a
      non-empty slug the extractor never returns the record id. */
  lemma SitemapLayoutNotRecovered(id: string, slug: string)
    requires IsUuid(id) && |slug| > 0
    ensures ExtractIdFromSlug(id + "-" + slug) != id
  {
    assert id[8] == '-';
  }
}
