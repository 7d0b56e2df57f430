/** Byte strings and their division at slashes: the alphabet shared by request targets and file paths. */
module ByteStrings {
  type Byte = x: int | 0 <= x < 256

  type ByteString = seq<Byte>

  const NUL: Byte := 0x00
  const PERCENT: Byte := 0x25
  const DOT: Byte := 0x2E
  const SLASH: Byte := 0x2F

  function AsciiByte(c: char): Byte {
    if c < 128 as char then c as int else 0x3F
  }

  /** ASCII text as bytes. */
  function Bytes(text: string): ByteString {
    seq(|text|, i requires 0 <= i < |text| => AsciiByte(text[i]))
  }

  /** The pieces of `s` between slashes; `n` slashes give `n + 1` pieces, some of them possibly empty. */
  function Split(s: ByteString): (segments: seq<ByteString>)
    ensures |segments| > 0
  {
    if s == [] then
      [[]]
    else
      var rest := Split(s[1..]);
      if s[0] == SLASH then [[]] + rest else [[s[0]] + rest[0]] + rest[1..]
  }

  /** Puts one slash between neighbouring pieces. */
  function Join(segments: seq<ByteString>): ByteString
    requires |segments| > 0
  {
    if |segments| == 1 then segments[0] else segments[0] + [SLASH] + Join(segments[1..])
  }

  ghost predicate SlashFree(s: ByteString) {
    SLASH !in s
  }

  ghost predicate AllSlashFree(segments: seq<ByteString>) {
    forall i :: 0 <= i < |segments| ==> SlashFree(segments[i])
  }

  lemma {:induction false} SplitIsSlashFree(s: ByteString)
    ensures AllSlashFree(Split(s))
  {
    if s != [] {
      SplitIsSlashFree(s[1..]);
    }
  }

  lemma {:induction false} JoinSplit(s: ByteString)
    ensures Join(Split(s)) == s
  {
    if s == [] {
    } else {
      var rest := Split(s[1..]);
      JoinSplit(s[1..]);
      if s[0] == SLASH {
        assert ([[]] + rest)[1..] == rest;
      } else {
        var whole := [[s[0]] + rest[0]] + rest[1..];
        if |rest| > 1 {
          assert whole[1..] == rest[1..];
        }
      }
    }
  }

  lemma Regroup<T>(x: T, s: seq<T>, t: seq<T>)
    requires |s| > 0
    ensures [x] + (s + t) == [x] + s + t
    ensures [x] + (s + t)[1..] == [x] + s[1..] + t
  {
  }

  /** Splitting a string at one of its slashes splits the two sides independently. */
  lemma {:induction false} SplitConcat(a: ByteString, b: ByteString)
    ensures Split(a + [SLASH] + b) == Split(a) + Split(b)
  {
    var whole := a + [SLASH] + b;
    if a == [] {
      assert whole[1..] == b;
    } else {
      SplitConcat(a[1..], b);
      assert whole[1..] == a[1..] + [SLASH] + b;
      var rest := Split(a[1..]);
      Regroup([], rest, Split(b));
      Regroup([a[0]] + rest[0], rest, Split(b));
    }
  }

  lemma {:induction false} SplitOfSlashFree(s: ByteString)
    requires SlashFree(s)
    ensures Split(s) == [s]
  {
    if s != [] {
      SplitOfSlashFree(s[1..]);
      assert [s[0]] + s[1..] == s;
    }
  }

  lemma {:induction false} SplitJoin(segments: seq<ByteString>)
    requires |segments| > 0 && AllSlashFree(segments)
    ensures Split(Join(segments)) == segments
  {
    SplitOfSlashFree(segments[0]);
    if |segments| > 1 {
      SplitJoin(segments[1..]);
      SplitConcat(segments[0], Join(segments[1..]));
      assert [segments[0]] + segments[1..] == segments;
    }
  }

  /** The last piece is empty exactly when the string is empty or ends in a slash. */
  lemma {:induction false} LastPiece(s: ByteString)
    ensures Split(s)[|Split(s)| - 1] == [] <==> s == [] || s[|s| - 1] == SLASH
  {
    if s != [] {
      LastPiece(s[1..]);
    }
  }

  predicate HasDoubleSlash(s: ByteString) {
    exists i :: 0 <= i < |s| - 1 && s[i] == SLASH && s[i + 1] == SLASH
  }

  lemma DoubleSlashStep(s: ByteString)
    requires s != []
    ensures HasDoubleSlash(s) <==> (|s| > 1 && s[0] == SLASH && s[1] == SLASH) || HasDoubleSlash(s[1..])
  {
    if HasDoubleSlash(s[1..]) {
      var i :| 0 <= i < |s[1..]| - 1 && s[1..][i] == SLASH && s[1..][i + 1] == SLASH;
      assert s[i + 1] == SLASH && s[i + 2] == SLASH;
    }
    if HasDoubleSlash(s) {
      var i :| 0 <= i < |s| - 1 && s[i] == SLASH && s[i + 1] == SLASH;
      if i > 0 {
        assert s[1..][i - 1] == SLASH && s[1..][i] == SLASH;
      }
    }
  }

  ghost predicate EmptyBetween(segments: seq<ByteString>, low: nat) {
    exists i :: low <= i < |segments| - 1 && segments[i] == []
  }

  lemma {:induction false} EmptyPieceFromDoubleSlash(s: ByteString)
    ensures EmptyBetween(Split(s), 1) <==> HasDoubleSlash(s)
    ensures Split(s)[0] == [] <==> s == [] || s[0] == SLASH
    ensures |Split(s)| == 1 <==> SLASH !in s
  {
    if s != [] {
      EmptyPieceFromDoubleSlash(s[1..]);
      DoubleSlashStep(s);
      var rest := Split(s[1..]);
      var whole := Split(s);
      if s[0] == SLASH {
        assert forall i :: 0 <= i < |rest| ==> whole[i + 1] == rest[i];
        assert EmptyBetween(whole, 1) <==> EmptyBetween(rest, 0) by {
          if EmptyBetween(whole, 1) {
            var i :| 1 <= i < |whole| - 1 && whole[i] == [];
            assert rest[i - 1] == [];
          }
        }
        assert EmptyBetween(rest, 0) <==> (|rest| > 1 && rest[0] == []) || EmptyBetween(rest, 1);
      } else {
        assert forall i :: 1 <= i < |rest| ==> whole[i] == rest[i];
        assert |whole| == |rest|;
      }
    }
  }

  /** Some piece before the last is empty exactly when the string starts with a slash or holds two in a row. */
  lemma EmptyPieceBeforeLast(s: ByteString)
    ensures EmptyBetween(Split(s), 0) <==> (s != [] && s[0] == SLASH) || HasDoubleSlash(s)
  {
    EmptyPieceFromDoubleSlash(s);
    if s != [] && s[0] == SLASH {
      assert Split(s)[0] == [] && |Split(s)| > 1;
    }
  }
}
