/** Well-formedness of UTF-8, by the grammar in section 4 of RFC 3629. */
module Utf8 {
  import opened ByteStrings

  predicate IsTail(b: Byte) {
    0x80 <= b <= 0xBF
  }

  predicate StartsTwo(s: ByteString) {
    |s| >= 2 && 0xC2 <= s[0] <= 0xDF && IsTail(s[1])
  }

  predicate StartsThree(s: ByteString) {
    && |s| >= 3
    && (|| (s[0] == 0xE0 && 0xA0 <= s[1] <= 0xBF)
        || (0xE1 <= s[0] <= 0xEC && IsTail(s[1]))
        || (s[0] == 0xED && 0x80 <= s[1] <= 0x9F)
        || (0xEE <= s[0] <= 0xEF && IsTail(s[1])))
    && IsTail(s[2])
  }

  predicate StartsFour(s: ByteString) {
    && |s| >= 4
    && (|| (s[0] == 0xF0 && 0x90 <= s[1] <= 0xBF)
        || (0xF1 <= s[0] <= 0xF3 && IsTail(s[1]))
        || (s[0] == 0xF4 && 0x80 <= s[1] <= 0x8F))
    && IsTail(s[2])
    && IsTail(s[3])
  }

  /** The length of the character `s` starts with, or 0 if it starts with none. */
  function CharLength(s: ByteString): (n: nat)
    ensures n <= |s|
  {
    if |s| >= 1 && s[0] <= 0x7F then 1
    else if StartsTwo(s) then 2
    else if StartsThree(s) then 3
    else if StartsFour(s) then 4
    else 0
  }

  predicate Valid(s: ByteString) {
    s == [] || (CharLength(s) > 0 && Valid(s[CharLength(s)..]))
  }

  /** A slash never completes or continues a longer character, so validity is decided on either side of it. */
  lemma {:induction false} ValidAroundSlash(a: ByteString, b: ByteString)
    ensures Valid(a + [SLASH] + b) <==> Valid(a) && Valid(b)
    decreases |a|
  {
    var whole := a + [SLASH] + b;
    if a == [] {
      assert whole[1..] == b;
    } else {
      var n := CharLength(a);
      assert CharLength(whole) == n by {
        assert forall i :: 0 <= i < |a| ==> whole[i] == a[i];
        assert whole[|a|] == SLASH;
        assert !IsTail(SLASH);
      }
      if n > 0 {
        ValidAroundSlash(a[n..], b);
        assert whole[n..] == a[n..] + [SLASH] + b;
      }
    }
  }

  ghost predicate AllValid(segments: seq<ByteString>) {
    forall i :: 0 <= i < |segments| ==> Valid(segments[i])
  }

  lemma {:induction false} ValidJoin(segments: seq<ByteString>)
    requires |segments| > 0
    ensures Valid(Join(segments)) <==> AllValid(segments)
  {
    if |segments| > 1 {
      ValidJoin(segments[1..]);
      ValidAroundSlash(segments[0], Join(segments[1..]));
      assert forall i :: 1 <= i < |segments| ==> segments[i] == segments[1..][i - 1];
      assert AllValid(segments) <==> Valid(segments[0]) && AllValid(segments[1..]);
    }
  }

  /** A string is valid exactly when every piece between its slashes is. */
  lemma ValidBySegments(s: ByteString)
    ensures Valid(s) <==> AllValid(Split(s))
  {
    JoinSplit(s);
    ValidJoin(Split(s));
  }
}
