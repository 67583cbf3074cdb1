/**
 * Character classes and string helpers that mirror the JavaScript built-ins the
 * site's code relies on: the `\s` class and `String.prototype.trim`, the ASCII
 * part of `\w`, case mapping, `split` and `join`.
 */
module Text {

  /** JavaScript's white space: the code points `\s` matches and `trim` removes
      (WhiteSpace and LineTerminator). */
  predicate IsSpace(c: char) {
    var n := c as int;
    (0x09 <= n <= 0x0D) || n == 0x20 || n == 0xA0 || n == 0x1680
    || (0x2000 <= n <= 0x200A) || n == 0x2028 || n == 0x2029
    || n == 0x202F || n == 0x205F || n == 0x3000 || n == 0xFEFF
  }

  predicate NotSpace(c: char) { !IsSpace(c) }

  predicate IsAsciiUpper(c: char) { 'A' <= c <= 'Z' }

  predicate IsAsciiLower(c: char) { 'a' <= c <= 'z' }

  predicate IsDigit(c: char) { '0' <= c <= '9' }

  /** The regular-expression class `\w` (no `u` flag): ASCII letters, digits and `_`. */
  predicate IsWordChar(c: char) {
    IsAsciiLower(c) || IsAsciiUpper(c) || IsDigit(c) || c == '_'
  }

  predicate IsHyphen(c: char) { c == '-' }

  predicate NoUpper(s: string) {
    forall i :: 0 <= i < |s| ==> !IsAsciiUpper(s[i])
  }

  predicate NoSpace(s: string) {
    forall i :: 0 <= i < |s| ==> !IsSpace(s[i])
  }

  predicate AllSpace(s: string) {
    forall i :: 0 <= i < |s| ==> IsSpace(s[i])
  }

  function ToLowerChar(c: char): char {
    if IsAsciiUpper(c) then (c as int + 32) as char else c
  }

  function ToUpperChar(c: char): char {
    if IsAsciiLower(c) then (c as int - 32) as char else c
  }

  /** `toLowerCase`, restricted to the ASCII letters. */
  function ToLower(s: string): (r: string)
    ensures |r| == |s|
    ensures NoUpper(r)
    ensures NoUpper(s) ==> r == s
    ensures forall i :: 0 <= i < |s| ==> (IsAsciiUpper(s[i]) <==> r[i] != s[i])
    ensures forall i :: 0 <= i < |s| && IsAsciiUpper(s[i]) ==> r[i] as int == s[i] as int + 32
  {
    seq(|s|, i requires 0 <= i < |s| => ToLowerChar(s[i]))
  }

  /** `toUpperCase`, restricted to the ASCII letters. */
  function ToUpper(s: string): (r: string)
    ensures |r| == |s|
    ensures forall i :: 0 <= i < |r| ==> !IsAsciiLower(r[i])
    ensures forall i :: 0 <= i < |s| ==> (IsAsciiLower(s[i]) <==> r[i] != s[i])
  {
    seq(|s|, i requires 0 <= i < |s| => ToUpperChar(s[i]))
  }

  /** Length of the longest prefix of `s` whose characters all satisfy `p`. */
  function SpanLength(s: string, p: char -> bool): (n: nat)
    ensures n <= |s|
    ensures forall i :: 0 <= i < n ==> p(s[i])
    ensures n == |s| || !p(s[n])
    decreases |s|
  {
    if |s| == 0 || !p(s[0]) then 0 else 1 + SpanLength(s[1..], p)
  }

  /** Length of the white-space run that opens `s`. */
  function LeadingSpaces(s: string): (n: nat)
    ensures n <= |s| && AllSpace(s[..n]) && (n == |s| || !IsSpace(s[n]))
    decreases |s|
  {
    if |s| == 0 || !IsSpace(s[0]) then 0
    else
      var n := 1 + LeadingSpaces(s[1..]);
      assert forall i :: 1 <= i < n ==> s[..n][i] == s[1..][..n - 1][i - 1];
      n
  }

  /** Length of the run of non-space characters that opens `s`. */
  function LeadingWord(s: string): (n: nat)
    ensures n <= |s| && NoSpace(s[..n]) && (n == |s| || IsSpace(s[n]))
    decreases |s|
  {
    if |s| == 0 || IsSpace(s[0]) then 0
    else
      var n := 1 + LeadingWord(s[1..]);
      assert forall i :: 1 <= i < n ==> s[..n][i] == s[1..][..n - 1][i - 1];
      n
  }

  /** `trimStart`: drops the leading white space. */
  function TrimStart(s: string): (r: string)
    ensures |r| <= |s|
    ensures r == s[|s| - |r|..]
    ensures |r| == 0 || !IsSpace(r[0])
    ensures forall i :: 0 <= i < |s| - |r| ==> IsSpace(s[i])
  {
    s[SpanLength(s, IsSpace)..]
  }

  /** `trimEnd`: drops the trailing white space. */
  function TrimEnd(s: string): (r: string)
    ensures |r| <= |s|
    ensures r == s[..|r|]
    ensures |r| == 0 || !IsSpace(r[|r| - 1])
    ensures forall i :: |r| <= i < |s| ==> IsSpace(s[i])
    decreases |s|
  {
    if |s| > 0 && IsSpace(s[|s| - 1]) then TrimEnd(s[..|s| - 1]) else s
  }

  /** `trim`: the text between the first and the last non-space character. */
  function Trim(s: string): (r: string)
    ensures |r| <= |s|
    ensures |r| == 0 || (!IsSpace(r[0]) && !IsSpace(r[|r| - 1]))
    ensures var k := SpanLength(s, IsSpace); k + |r| <= |s| && r == s[k..k + |r|]
    ensures var k := SpanLength(s, IsSpace); forall i :: k + |r| <= i < |s| ==> IsSpace(s[i])
    ensures (|s| == 0 || (!IsSpace(s[0]) && !IsSpace(s[|s| - 1]))) ==> r == s
  {
    var t := TrimStart(s);
    var r := TrimEnd(t);
    assert forall i :: |r| <= i < |t| ==> t[i] == s[|s| - |t| + i];
    r
  }

  /** Trimming only removes characters, so a property of every character survives it. */
  lemma TrimKeeps(s: string, p: char -> bool)
    requires forall i :: 0 <= i < |s| ==> p(s[i])
    ensures forall i :: 0 <= i < |Trim(s)| ==> p(Trim(s)[i])
  {
    var k := SpanLength(s, IsSpace);
    var r := Trim(s);
    assert forall i :: 0 <= i < |r| ==> r[i] == s[k + i];
  }

  /** `s.join(sep)`. */
  function Join(parts: seq<string>, sep: string): string
    decreases |parts|
  {
    if |parts| == 0 then ""
    else if |parts| == 1 then parts[0]
    else parts[0] + sep + Join(parts[1..], sep)
  }

  /** `s.split(d)` for a one-character separator: the maximal `d`-free pieces,
      one more than the number of separators. */
  function Split(s: string, d: char): (parts: seq<string>)
    ensures |parts| >= 1
    ensures |parts| == 1 <==> d !in s
    ensures forall i :: 0 <= i < |parts| ==> d !in parts[i]
    decreases |s|
  {
    if |s| == 0 then [""]
    else
      var rest := Split(s[1..], d);
      if s[0] == d then
        assert ([""] + rest)[1..] == rest;
        [""] + rest
      else
        var parts := [[s[0]] + rest[0]] + rest[1..];
        assert parts[1..] == rest[1..];
        parts
  }

  /** Joining the pieces of a split with the separator gives the text back. */
  lemma {:induction false} SplitJoin(s: string, d: char)
    ensures Join(Split(s, d), [d]) == s
    decreases |s|
  {
    if |s| > 0 {
      var t := s[1..];
      var rest := Split(t, d);
      var parts := Split(s, d);
      SplitJoin(t, d);
      if s[0] == d {
        assert parts == [""] + rest;
        assert parts[1..] == rest;
        assert Join(parts, [d]) == "" + [d] + Join(rest, [d]);
      } else if |rest| == 1 {
        assert parts == [[s[0]] + rest[0]];
        assert Join(rest, [d]) == rest[0];
      } else {
        assert parts == [[s[0]] + rest[0]] + rest[1..];
        assert parts[1..] == rest[1..];
        assert Join(rest, [d]) == rest[0] + [d] + Join(rest[1..], [d]);
        assert Join(parts, [d]) == [s[0]] + rest[0] + [d] + Join(rest[1..], [d]);
      }
      assert s == [s[0]] + t;
    }
  }

  /** `s.split(d)[0]`: the text before the first `d`, or all of `s`. */
  function FirstSegment(s: string, d: char): (r: string)
    ensures |r| <= |s|
    ensures r == s[..|r|]
    ensures d !in r
    ensures |r| == |s| || s[|r|] == d
  {
    FirstSegmentFacts(s, d);
    Split(s, d)[0]
  }

  /** `s.split(d)` read at its last index: the text after the last `d`, or all of `s`. */
  function LastSegment(s: string, d: char): (r: string)
    ensures |r| <= |s|
    ensures r == s[|s| - |r|..]
    ensures d !in r
    ensures |r| == |s| || s[|s| - |r| - 1] == d
  {
    LastSegmentFacts(s, d);
    var parts := Split(s, d);
    parts[|parts| - 1]
  }

  lemma {:induction false} FirstSegmentFacts(s: string, d: char)
    ensures |Split(s, d)[0]| <= |s|
    ensures Split(s, d)[0] == s[..|Split(s, d)[0]|]
    ensures |Split(s, d)[0]| == |s| || s[|Split(s, d)[0]|] == d
    decreases |s|
  {
    if |s| > 0 && s[0] != d {
      FirstSegmentFacts(s[1..], d);
    }
  }

  lemma {:induction false} LastSegmentFacts(s: string, d: char)
    ensures var p := Split(s, d); var r := p[|p| - 1];
      |r| <= |s| && r == s[|s| - |r|..] && (|r| == |s| || s[|s| - |r| - 1] == d)
    decreases |s|
  {
    if |s| > 0 {
      var t := s[1..];
      LastSegmentFacts(t, d);
      var rest := Split(t, d);
      var q := rest[|rest| - 1];
      LastOfSplitStep(s, d);
      if s[0] == d || |rest| > 1 {
        assert |q| < |t| || s[0] == d by {
          if |rest| > 1 {
            assert d in t;
            assert |q| != |t| || q == t;
          }
        }
        TailOfTail(s, |q|);
      }
    }
  }

  /** The last piece of a split, one character further on. */
  lemma LastOfSplitStep(s: string, d: char)
    requires |s| > 0
    ensures var parts := Split(s, d); var rest := Split(s[1..], d);
      parts[|parts| - 1] == if s[0] == d || |rest| > 1 then rest[|rest| - 1] else s
  {
    var parts, rest := Split(s, d), Split(s[1..], d);
    if s[0] == d {
      assert parts == [""] + rest;
    } else if |rest| > 1 {
      assert parts == [[s[0]] + rest[0]] + rest[1..];
    } else {
      assert parts == [[s[0]] + rest[0]];
      assert rest[0] == s[1..];
    }
  }

  /** A suffix of `s[1..]` is a suffix of `s`, and the character before it is
      found one place further on. */
  lemma TailOfTail(s: string, n: nat)
    requires 0 < |s| && n < |s|
    ensures s[1..][|s| - 1 - n..] == s[|s| - n..]
    ensures s[|s| - n - 1] == if n == |s| - 1 then s[0] else s[1..][|s| - 1 - n - 1]
  {
  }

  /** The first segment is determined by where the first separator sits. */
  lemma FirstSegmentOfJoin(a: string, d: char, b: string)
    requires d !in a
    ensures FirstSegment(a + [d] + b, d) == a
  {
    var s := a + [d] + b;
    var r := FirstSegment(s, d);
    assert s[|a|] == d;
  }

  /** The last segment is determined by where the last separator sits. */
  lemma LastSegmentOfJoin(a: string, d: char, b: string)
    requires d !in b
    ensures LastSegment(a + [d] + b, d) == b
  {
    var s := a + [d] + b;
    var r := LastSegment(s, d);
    assert s[|s| - |b| - 1] == d;
  }
}
