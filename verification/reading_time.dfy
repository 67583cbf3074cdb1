/**
 * Reading-time estimate (`src/lib/readingTime.ts`): the text of a post — taken
 * from its rich-text document tree, or from the raw body with HTML tags blanked
 * out when the body is not JSON — counted in white-space separated words at 200
 * words a minute, rounded up, never below one minute.
 */
module ReadingTime {
  import opened Wrappers
  import opened Text

  const WordsPerMinute := 200

  // ---------------------------------------------------------------------------
  // Words

  /** `s.split(/\s+/)`: the pieces between maximal runs of white space. A leading
      or trailing run yields an empty first or last piece. */
  function SplitWs(s: string): (parts: seq<string>)
    ensures |parts| >= 1
    decreases |s|
  {
    var k := LeadingWord(s);
    if k == |s| then [s]
    else
      var m := LeadingSpaces(s[k..]);
      [s[..k]] + SplitWs(s[k + m..])
  }

  /** `.filter(word => word.length > 0)`. */
  function NonEmpty(parts: seq<string>): (r: seq<string>)
    ensures |r| <= |parts|
    ensures forall i :: 0 <= i < |r| ==> r[i] != ""
    decreases |parts|
  {
    if |parts| == 0 then []
    else (if parts[0] == "" then [] else [parts[0]]) + NonEmpty(parts[1..])
  }

  /** `text.trim().split(/\s+/).filter(word => word.length > 0).length`. */
  function WordCount(text: string): nat {
    |NonEmpty(SplitWs(Trim(text)))|
  }

  /** Reference count: the positions where a word starts, i.e. a non-space
      character that opens the text (when `afterSpace`) or follows white space. */
  function WordStarts(s: string, afterSpace: bool): nat
    decreases |s|
  {
    if |s| == 0 then 0
    else (if afterSpace && !IsSpace(s[0]) then 1 else 0) + WordStarts(s[1..], IsSpace(s[0]))
  }

  function Words(s: string): nat {
    WordStarts(s, true)
  }

  /** Whether a word can start right after `s`, given the same for its start. */
  function EndsAfterSpace(s: string, afterSpace: bool): bool {
    if |s| == 0 then afterSpace else IsSpace(s[|s| - 1])
  }

  lemma {:induction false} WordStartsAppend(a: string, b: string, afterSpace: bool)
    ensures WordStarts(a + b, afterSpace) == WordStarts(a, afterSpace) + WordStarts(b, EndsAfterSpace(a, afterSpace))
    decreases |a|
  {
    if |a| == 0 {
      assert a + b == b;
    } else {
      assert (a + b)[0] == a[0];
      assert (a + b)[1..] == a[1..] + b;
      WordStartsAppend(a[1..], b, IsSpace(a[0]));
      assert |a[1..]| > 0 ==> a[1..][|a[1..]| - 1] == a[|a| - 1];
    }
  }

  lemma {:induction false} WordStartsOfSpaces(s: string, afterSpace: bool)
    requires AllSpace(s)
    ensures WordStarts(s, afterSpace) == 0
    decreases |s|
  {
    if |s| > 0 {
      WordStartsOfSpaces(s[1..], true);
    }
  }

  lemma {:induction false} WordStartsOfWord(s: string, afterSpace: bool)
    requires NoSpace(s)
    ensures WordStarts(s, afterSpace) == if afterSpace && |s| > 0 then 1 else 0
    decreases |s|
  {
    if |s| > 0 {
      WordStartsOfWord(s[1..], false);
    }
  }

  /** A word followed by a non-empty run of white space: the word counts once and
      the text after the run starts afresh. */
  lemma WordThenSpaces(w: string, sp: string, tail: string)
    requires NoSpace(w)
    requires |sp| > 0 && AllSpace(sp)
    ensures Words(w + (sp + tail)) == (if |w| > 0 then 1 else 0) + Words(tail)
  {
    WordStartsOfWord(w, true);
    WordStartsAppend(w, sp + tail, true);
    var after := EndsAfterSpace(w, true);
    WordStartsAppend(sp, tail, after);
    WordStartsOfSpaces(sp, after);
    assert EndsAfterSpace(sp, after);
  }

  /** Splitting at white-space runs and dropping empty pieces finds exactly the
      words of the reference count. */
  lemma {:induction false} SplitCountsWords(s: string)
    ensures |NonEmpty(SplitWs(s))| == Words(s)
    decreases |s|
  {
    var k := LeadingWord(s);
    if k == |s| {
      assert s[..k] == s;
      WordStartsOfWord(s, true);
    } else {
      var w, sp, tail := SplitWsStep(s);
      SplitCountsWords(tail);
      WordThenSpaces(w, sp, tail);
    }
  }

  /** One step of `SplitWs`: a word, then a non-empty run of white space. */
  lemma SplitWsStep(s: string) returns (w: string, sp: string, tail: string)
    requires LeadingWord(s) < |s|
    ensures NoSpace(w) && |sp| > 0 && AllSpace(sp) && |tail| < |s|
    ensures s == w + (sp + tail)
    ensures NonEmpty(SplitWs(s)) == (if w == "" then [] else [w]) + NonEmpty(SplitWs(tail))
  {
    var k := LeadingWord(s);
    var m := LeadingSpaces(s[k..]);
    w, sp, tail := s[..k], s[k..][..m], s[k + m..];
    assert m > 0;
    var parts := SplitWs(s);
    var rest := SplitWs(tail);
    assert parts[0] == w && parts[1..] == rest by {
      assert parts == [w] + rest;
    }
    NonEmptyCons(parts);
    assert s == w + (sp + tail);
  }

  lemma NonEmptyCons(parts: seq<string>)
    requires |parts| > 0
    ensures NonEmpty(parts) == (if parts[0] == "" then [] else [parts[0]]) + NonEmpty(parts[1..])
  {
  }

  /** White space around a text adds no words. */
  lemma WordsIgnoreOuterSpaces(front: string, mid: string, back: string)
    requires AllSpace(front) && AllSpace(back)
    ensures Words(front + (mid + back)) == Words(mid)
  {
    WordStartsAppend(front, mid + back, true);
    WordStartsOfSpaces(front, true);
    assert EndsAfterSpace(front, true);
    WordStartsAppend(mid, back, true);
    WordStartsOfSpaces(back, EndsAfterSpace(mid, true));
  }

  /** Trimming changes no word count. */
  lemma TrimKeepsWords(s: string)
    ensures Words(Trim(s)) == Words(s)
  {
    var r := Trim(s);
    var k := SpanLength(s, IsSpace);
    var j := k + |r|;
    var front, back := s[..k], s[j..];
    assert AllSpace(front);
    assert AllSpace(back) by {
      forall i | 0 <= i < |back| ensures IsSpace(back[i]) {
        assert back[i] == s[j + i];
      }
    }
    assert s == front + (s[k..j] + back);
    WordsIgnoreOuterSpaces(front, r, back);
  }

  /** The word count of a text is its reference count. */
  lemma WordCountIsWords(text: string)
    ensures WordCount(text) == Words(text)
  {
    SplitCountsWords(Trim(text));
    TrimKeepsWords(text);
  }

  /** Joining pieces with a space neither merges nor splits words. */
  lemma JoinedWords(a: string, b: string)
    ensures Words(a + " " + b) == Words(a) + Words(b)
  {
    WordStartsAppend(a + " ", b, true);
    WordStartsAppend(a, " ", true);
    assert EndsAfterSpace(a + " ", true) by {
      assert (a + " ")[|a|] == ' ';
    }
  }

  // ---------------------------------------------------------------------------
  // Document text

  /** A parsed JSON value. Objects keep the three members the extractor reads:
      `type` and `text` when they are strings, and the `content` array, empty when
      the member is missing or not an array (both give no text). */
  datatype Json =
    | JNull
    | JBool(b: bool)
    | JNumber(n: int)
    | JString(s: string)
    | JArray(items: seq<Json>)
    | JObject(nodeType: Option<string>, text: Option<string>, content: seq<Json>)

  /** A text node with a non-empty text. */
  predicate IsTextLeaf(j: Json) {
    j.JObject? && j.nodeType == Some("text") && j.text.Some? && j.text.value != ""
  }

  /** `extractTextFromTipTap`: a text node's text; an object with a `content`
      array, its children's texts joined by single spaces; anything else, "". */
  function ExtractText(j: Json): string
    decreases j
  {
    if IsTextLeaf(j) then j.text.value
    else if j.JObject? then
      Join(seq(|j.content|, i requires 0 <= i < |j.content| => ExtractText(j.content[i])), " ")
    else ""
  }

  /** Reference count: the words of the text nodes, summed over the tree. */
  function LeafWords(j: Json): nat
    decreases j
  {
    if IsTextLeaf(j) then Words(j.text.value)
    else if j.JObject? then ChildWords(j, j.content)
    else 0
  }

  function ChildWords(ghost parent: Json, children: seq<Json>): nat
    requires forall i :: 0 <= i < |children| ==> children[i] < parent
    decreases parent, |children|
  {
    if |children| == 0 then 0 else LeafWords(children[0]) + ChildWords(parent, children[1..])
  }

  lemma {:induction false} JoinWords(parts: seq<string>, parent: Json, children: seq<Json>)
    requires |parts| == |children|
    requires forall i :: 0 <= i < |children| ==> children[i] < parent
    requires forall i :: 0 <= i < |parts| ==> Words(parts[i]) == LeafWords(children[i])
    ensures Words(Join(parts, " ")) == ChildWords(parent, children)
    decreases |parts|
  {
    if |parts| == 1 {
      assert ChildWords(parent, children[1..]) == 0;
    } else if |parts| > 1 {
      JoinWords(parts[1..], parent, children[1..]);
      JoinedWords(parts[0], Join(parts[1..], " "));
    }
  }

  /** The extracted text has exactly the words of the document's text nodes. */
  lemma {:induction false} ExtractedWords(j: Json)
    ensures Words(ExtractText(j)) == LeafWords(j)
    decreases j
  {
    if !IsTextLeaf(j) && j.JObject? {
      var children := j.content;
      var parts := seq(|children|, i requires 0 <= i < |children| => ExtractText(children[i]));
      forall i | 0 <= i < |children|
        ensures Words(parts[i]) == LeafWords(children[i])
      {
        ExtractedWords(children[i]);
      }
      JoinWords(parts, j, children);
    }
  }

  /** Only objects contribute text: scalars, strings and arrays give "". */
  lemma NonObjectsHaveNoText(j: Json)
    requires !j.JObject?
    ensures ExtractText(j) == ""
  {
  }

  // ---------------------------------------------------------------------------
  // Tags

  /** `s.replace(/<[^>]*>/g, ' ')`: each `<` that has a `>` after it, up to the
      first such `>`, becomes one space; a `<` with no `>` after it stays. */
  function StripTags(s: string): (r: string)
    ensures |r| <= |s|
    decreases |s|
  {
    if |s| == 0 then ""
    else if s[0] == '<' && '>' in s[1..] then " " + StripTags(AfterGt(s[1..]))
    else [s[0]] + StripTags(s[1..])
  }

  /** What follows the first `>` of `s`. */
  function AfterGt(s: string): (r: string)
    requires '>' in s
    ensures |r| < |s| && r == s[|s| - |r|..]
    ensures '>' !in s[..|s| - |r| - 1] && s[|s| - |r| - 1] == '>'
    decreases |s|
  {
    if s[0] == '>' then s[1..]
    else
      var r := AfterGt(s[1..]);
      assert s[..|s| - |r| - 1] == [s[0]] + s[1..][..|s| - 1 - |r| - 1];
      r
  }

  /** No `<` is followed, anywhere later, by a `>`. */
  predicate TagFree(s: string) {
    forall i, j :: 0 <= i < j < |s| && s[i] == '<' ==> s[j] != '>'
  }

  lemma {:induction false} StripTagsIsTagFree(s: string)
    ensures TagFree(StripTags(s))
    decreases |s|
  {
    if |s| > 0 {
      if s[0] == '<' && '>' in s[1..] {
        var rest := AfterGt(s[1..]);
        StripTagsIsTagFree(rest);
        TagFreeCons(' ', StripTags(rest));
      } else {
        StripTagsIsTagFree(s[1..]);
        StripTagsKeepsGt(s[1..]);
        TagFreeCons(s[0], StripTags(s[1..]));
      }
    }
  }

  /** A character in front of tag-free text keeps it tag-free unless it opens a
      tag that a later `>` closes. */
  lemma TagFreeCons(c: char, t: string)
    requires TagFree(t) && (c == '<' ==> '>' !in t)
    ensures TagFree([c] + t)
  {
    var r := [c] + t;
    assert forall i :: 1 <= i < |r| ==> r[i] == t[i - 1];
  }

  /** Stripping introduces no `>`. */
  lemma {:induction false} StripTagsKeepsGt(s: string)
    ensures '>' in StripTags(s) ==> '>' in s
    decreases |s|
  {
    if |s| > 0 {
      if s[0] == '<' && '>' in s[1..] {
      } else {
        StripTagsKeepsGt(s[1..]);
        assert '>' in s[1..] ==> '>' in s;
      }
    }
  }

  /** Text without tags is left as it is. */
  lemma {:induction false} StripTagsOfTagFree(s: string)
    requires TagFree(s)
    ensures StripTags(s) == s
    decreases |s|
  {
    if |s| > 0 {
      assert s[0] == '<' ==> '>' !in s[1..];
      assert TagFree(s[1..]) by {
        forall i, j | 0 <= i < j < |s[1..]| && s[1..][i] == '<'
          ensures s[1..][j] != '>'
        {
          assert s[i + 1] == '<';
        }
      }
      StripTagsOfTagFree(s[1..]);
    }
  }

  // ---------------------------------------------------------------------------
  // Minutes

  /** `Math.max(1, Math.ceil(words / 200))`: the fewest whole minutes in which
      `words` words can be read at 200 a minute, and at least one. */
  function MinutesFor(words: nat): (r: nat)
    ensures r >= 1
    ensures words <= WordsPerMinute * r
    ensures r == 1 || WordsPerMinute * (r - 1) < words
  {
    var m := (words + WordsPerMinute - 1) / WordsPerMinute;
    if m < 1 then 1 else m
  }

  /** More words never take less time. */
  lemma MinutesMonotone(a: nat, b: nat)
    requires a <= b
    ensures MinutesFor(a) <= MinutesFor(b)
  {
  }

  lemma MinutesExamples()
    ensures MinutesFor(0) == 1 && MinutesFor(200) == 1 && MinutesFor(201) == 2 && MinutesFor(400) == 2
  {
  }

  /** What a post's body is: the raw text stored for it, or an already parsed
      document. A string body is always `Raw`, since it goes through `JSON.parse`;
      `Structured` stands only for a body that is not a string. */
  datatype Content = Raw(body: string) | Structured(doc: Json)

  /** The text whose words are counted. `parse` stands for `JSON.parse`, None where
      it throws. */
  function ContentText(content: Content, parse: string -> Option<Json>): string {
    match content
    case Structured(doc) => ExtractText(doc)
    case Raw(body) =>
      match parse(body)
      case Some(doc) => ExtractText(doc)
      case None => StripTags(body)
  }

  /** `calculateReadingTime`: whole minutes for the words of the content. */
  function CalculateReadingTime(content: Content, parse: string -> Option<Json>): (r: nat)
    ensures r >= 1
    ensures r == MinutesFor(Words(ContentText(content, parse)))
  {
    WordCountIsWords(ContentText(content, parse));
    MinutesFor(WordCount(ContentText(content, parse)))
  }

  /** A document's reading time depends only on the words of its text nodes. */
  lemma ReadingTimeOfDocument(doc: Json, parse: string -> Option<Json>)
    ensures CalculateReadingTime(Structured(doc), parse) == MinutesFor(LeafWords(doc))
  {
    ExtractedWords(doc);
  }

  /** A body that is not JSON is read as HTML with its tags blanked out. */
  lemma ReadingTimeOfHtml(body: string, parse: string -> Option<Json>)
    requires parse(body).None?
    ensures CalculateReadingTime(Raw(body), parse) == MinutesFor(Words(StripTags(body)))
    ensures TagFree(ContentText(Raw(body), parse))
  {
    StripTagsIsTagFree(body);
  }

  // ---------------------------------------------------------------------------
  // Formatting

  function DigitChar(d: nat): char
    requires d < 10
  {
    ('0' as int + d) as char
  }

  /** The decimal digits of `n`, without leading zeros. */
  function NatToString(n: nat): (r: string)
    ensures |r| >= 1
    ensures forall i :: 0 <= i < |r| ==> IsDigit(r[i])
    ensures |r| > 1 ==> r[0] != '0'
    decreases n
  {
    if n < 10 then [DigitChar(n)] else NatToString(n / 10) + [DigitChar(n % 10)]
  }

  /** The number a string of decimal digits denotes. */
  function DigitsValue(s: string): nat
    requires forall i :: 0 <= i < |s| ==> IsDigit(s[i])
    decreases |s|
  {
    if |s| == 0 then 0
    else
      assert IsDigit(s[|s| - 1]);
      DigitsValue(s[..|s| - 1]) * 10 + (s[|s| - 1] as int - '0' as int)
  }

  lemma {:induction false} NatToStringRoundTrip(n: nat)
    ensures DigitsValue(NatToString(n)) == n
    decreases n
  {
    if n >= 10 {
      NatToStringRoundTrip(n / 10);
      var r := NatToString(n);
      assert r[..|r| - 1] == NatToString(n / 10);
    }
  }

  /** `${n}` for an integer. */
  function IntToString(n: int): string {
    if n < 0 then "-" + NatToString(-n) else NatToString(n)
  }

  /** `formatReadingTime`: the number followed by " min read". */
  function FormatReadingTime(minutes: int): (r: string)
    ensures |r| > 9 && r[|r| - 9..] == " min read"
    ensures r[..|r| - 9] == IntToString(minutes)
  {
    IntToString(minutes) + " min read"
  }

  /** The number in the label reads back as the number of minutes. */
  lemma FormatReadingTimeRoundTrip(minutes: nat)
    ensures var r := FormatReadingTime(minutes);
      var digits := r[..|r| - 9];
      (forall i :: 0 <= i < |digits| ==> IsDigit(digits[i])) && DigitsValue(digits) == minutes
  {
    NatToStringRoundTrip(minutes);
  }
}
