/**
 * The canonical record-identifier shape both blog-URL extractors test for:
 * 8-4-4-4-12 hexadecimal digits separated by hyphens, matched case-insensitively
 * (the `/i` flag on the source's regular expressions).
 */
module Uuid {
  import opened Text

  const UuidLength := 36

  predicate IsHexDigit(c: char) {
    IsDigit(c) || 'a' <= c <= 'f' || 'A' <= c <= 'F'
  }

  /** Positions of the four group separators. */
  predicate IsGroupBreak(i: int) {
    i == 8 || i == 13 || i == 18 || i == 23
  }

  predicate IsUuid(s: string) {
    |s| == UuidLength
    && forall i :: 0 <= i < |s| ==> if IsGroupBreak(i) then s[i] == '-' else IsHexDigit(s[i])
  }

  /** The first `-`-segment of a UUID is its leading eight hex digits. */
  lemma ShortIdOfUuid(id: string)
    requires IsUuid(id)
    ensures FirstSegment(id, '-') == id[..8]
  {
    assert id == id[..8] + ['-'] + id[9..];
    assert forall i :: 0 <= i < 8 ==> id[..8][i] == id[i] && IsHexDigit(id[i]);
    FirstSegmentOfJoin(id[..8], '-', id[9..]);
  }

  /** The only `-`-free suffix of a UUID that follows a hyphen is its last group,
      which is twelve characters long. */
  lemma HyphenFreeTailOfUuid(s: string, tail: string)
    requires IsUuid(s)
    requires |tail| < |s| && s == s[..|s| - |tail| - 1] + ['-'] + tail
    requires '-' !in tail
    ensures |tail| == 12
  {
    var p := |s| - |tail| - 1;
    assert s[p] == '-';
    assert IsGroupBreak(p);
    assert tail == s[p + 1..];
    forall j | p + 1 <= j < |s|
      ensures s[j] != '-'
    {
      assert s[j] == tail[j - p - 1];
    }
    assert s[23] == '-';
  }
}
