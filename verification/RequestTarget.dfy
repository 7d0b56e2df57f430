/** From a request path to the relative file paths to look up, in order. */
module RequestTarget {
  import opened ByteStrings
  import opened Errors
  import opened PercentDecoding
  import Utf8

  /** `index.html` */
  const INDEX: ByteString := [0x69, 0x6E, 0x64, 0x65, 0x78, 0x2E, 0x68, 0x74, 0x6D, 0x6C]

  const CURRENT: ByteString := [DOT]
  const PARENT: ByteString := [DOT, DOT]

  predicate StartsWithSlash(s: ByteString) {
    s != [] && s[0] == SLASH
  }

  predicate EndsWithSlash(s: ByteString) {
    s != [] && s[|s| - 1] == SLASH
  }

  // ----- Paths as the standard library reads them on Unix -----

  datatype Component = RootDir | CurDir | ParentDir | Normal(name: ByteString)

  /** Empty pieces vanish, and so does every `.` but one that starts a relative path. */
  function PieceComponents(pieces: seq<ByteString>, leading: bool): seq<Component> {
    if pieces == [] then []
    else
      var rest := PieceComponents(pieces[1..], false);
      if pieces[0] == [] || (pieces[0] == CURRENT && !leading) then rest
      else if pieces[0] == CURRENT then [CurDir] + rest
      else if pieces[0] == PARENT then [ParentDir] + rest
      else [Normal(pieces[0])] + rest
  }

  function Components(path: ByteString): seq<Component> {
    if StartsWithSlash(path) then [RootDir] + PieceComponents(Split(path), false)
    else PieceComponents(Split(path), true)
  }

  /** Appends `path` to `base`, with a slash between them; an absolute `path` replaces `base`. */
  function PathJoin(base: ByteString, path: ByteString): (joined: ByteString)
    ensures StartsWithSlash(base) ==> StartsWithSlash(joined)
  {
    if StartsWithSlash(path) then path
    else if base == [] || EndsWithSlash(base) then base + path
    else base + [SLASH] + path
  }

  // ----- The server's checks -----

  function ValidateComponents(components: seq<Component>): Result<(), ResolveError> {
    if components == [] then Success(())
    else
      match components[0]
      case Normal(_) => ValidateComponents(components[1..])
      case CurDir => ValidateComponents(components[1..])
      case ParentDir => Failure(Traversal)
      case RootDir => Failure(BadTarget)
  }

  function ValidateRelativePath(relative: ByteString): Result<(), ResolveError> {
    ValidateComponents(Components(relative))
  }

  function CandidatePaths(requestPath: ByteString): (r: Result<seq<ByteString>, ResolveError>)
    ensures r.Success? ==> 1 <= |r.value| <= 2
  {
    if !StartsWithSlash(requestPath) then Failure(BadTarget)
    else
      var decoded :- Decode(requestPath);
      if !StartsWithSlash(decoded) then Failure(BadTarget)
      else if decoded != [SLASH] && [SLASH, SLASH] <= decoded then Failure(BadTarget)
      else
        var relative := decoded[1..];
        if HasDoubleSlash(relative) then Failure(BadTarget)
        else
          var _ :- ValidateRelativePath(relative);
          if relative == [] then Success([INDEX])
          else if EndsWithSlash(decoded) then Success([PathJoin(relative, INDEX)])
          else Success([relative, PathJoin(relative, INDEX)])
  }

  // ----- Exactly which targets are accepted -----

  lemma {:induction false} ValidatePieces(pieces: seq<ByteString>, leading: bool)
    ensures ValidateComponents(PieceComponents(pieces, leading))
         == if PARENT in pieces then Failure(Traversal) else Success(())
  {
    if pieces != [] {
      ValidatePieces(pieces[1..], false);
      assert PARENT in pieces <==> pieces[0] == PARENT || PARENT in pieces[1..];
      var rest := PieceComponents(pieces[1..], false);
      assert forall c :: ([c] + rest)[1..] == rest;
    }
  }

  lemma {:induction false} JoinAppend(a: seq<ByteString>, b: seq<ByteString>)
    requires |a| > 0 && |b| > 0
    ensures Join(a + b) == Join(a) + [SLASH] + Join(b)
  {
    if |a| == 1 {
      assert (a + b)[1..] == b;
    } else {
      JoinAppend(a[1..], b);
      assert (a + b)[1..] == a[1..] + b;
      assert a[0] + [SLASH] + (Join(a[1..]) + [SLASH] + Join(b)) == a[0] + [SLASH] + Join(a[1..]) + [SLASH] + Join(b);
    }
  }

  /** The pieces of a target after its first slash once decoded, given that it decodes. */
  function TargetPieces(p: ByteString): seq<ByteString>
    requires StartsWithSlash(p) && Decode(p).Success?
  {
    DecodedStartsWithSlash(p);
    Split(Decode(p).value[1..])
  }

  /** The lookups that fit the pieces: the path itself and its index, or only the index after a final slash. */
  function CandidatePieces(pieces: seq<ByteString>): (candidates: seq<seq<ByteString>>)
    requires |pieces| > 0
    ensures forall i :: 0 <= i < |candidates| ==> |candidates[i]| > 0
  {
    var last := |pieces| - 1;
    if pieces[last] == [] then [pieces[..last] + [INDEX]] else [pieces, pieces + [INDEX]]
  }

  function JoinEach(candidates: seq<seq<ByteString>>): seq<ByteString>
    requires forall i :: 0 <= i < |candidates| ==> |candidates[i]| > 0
  {
    seq(|candidates|, i requires 0 <= i < |candidates| => Join(candidates[i]))
  }

  /** A slash is only ever written as itself, so the decoded path starts with one if the raw path does. */
  lemma DecodedStartsWithSlash(p: ByteString)
    requires StartsWithSlash(p) && Decode(p).Success?
    ensures StartsWithSlash(Decode(p).value)
  {
    assert ReadUnit(p) == Good(SLASH, 1);
  }

  lemma IndexJoin(relative: ByteString)
    requires relative != [] && !StartsWithSlash(INDEX)
    ensures EndsWithSlash(relative)
        ==> PathJoin(relative, INDEX) == Join(Split(relative)[..|Split(relative)| - 1] + [INDEX])
    ensures !EndsWithSlash(relative) ==> PathJoin(relative, INDEX) == Join(Split(relative) + [INDEX])
  {
    if EndsWithSlash(relative) {
      var front := relative[..|relative| - 1];
      assert relative == front + [SLASH] + [];
      SplitConcat(front, []);
      assert Split(relative)[..|Split(relative)| - 1] == Split(front);
      JoinSplit(front);
      JoinAppend(Split(front), [INDEX]);
      assert front + [SLASH] + INDEX == relative + INDEX;
    } else {
      JoinSplit(relative);
      JoinAppend(Split(relative), [INDEX]);
    }
  }

  /**
   A target is accepted exactly when it starts with a slash, decodes, and its decoded pieces hold no
   `..` and no empty piece but possibly the last; otherwise the error is settled by the first of these
   conditions that fails. The candidates are then the paths with the expected pieces.
   */
  lemma AcceptedTargets(p: ByteString)
    ensures !StartsWithSlash(p) ==> CandidatePaths(p) == Failure(BadTarget)
    ensures StartsWithSlash(p) && Decode(p).Failure? ==> CandidatePaths(p) == Failure(Decode(p).error)
    ensures StartsWithSlash(p) && Decode(p).Success? ==>
              CandidatePaths(p) == if EmptyBetween(TargetPieces(p), 0) then Failure(BadTarget)
                                   else if PARENT in TargetPieces(p) then Failure(Traversal)
                                   else Success(JoinEach(CandidatePieces(TargetPieces(p))))
  {
    if StartsWithSlash(p) && Decode(p).Success? {
      DecodedStartsWithSlash(p);
      var decoded := Decode(p).value;
      var relative := decoded[1..];
      var pieces := TargetPieces(p);
      EmptyPieceBeforeLast(relative);
      assert decoded != [SLASH] && [SLASH, SLASH] <= decoded <==> StartsWithSlash(relative);
      if !EmptyBetween(pieces, 0) {
        ValidatePieces(pieces, true);
        LastPiece(relative);
        JoinSplit(relative);
        if relative == [] {
          assert pieces[..0] + [INDEX] == [INDEX];
          assert JoinEach(CandidatePieces(pieces)) == [INDEX];
        } else {
          IndexJoin(relative);
          assert EndsWithSlash(decoded) <==> EndsWithSlash(relative);
          assert CandidatePaths(p).Success? ==> CandidatePaths(p).value == JoinEach(CandidatePieces(pieces));
        }
      }
    }
  }

  lemma AcceptedPieces(p: ByteString)
    requires StartsWithSlash(p) && Decode(p).Success?
    ensures CandidatePaths(p).Success? <==> !EmptyBetween(TargetPieces(p), 0) && PARENT !in TargetPieces(p)
    ensures CandidatePaths(p).Success? ==> |CandidatePaths(p).value| == |CandidatePieces(TargetPieces(p))|
  {
    AcceptedTargets(p);
  }

  /** `p` writes the UTF-8 string `s`, which starts with a slash and then has acceptable pieces. */
  ghost predicate WritesTarget(p: ByteString, s: ByteString) {
    && Encodes(p, s)
    && Utf8.Valid(s)
    && StartsWithSlash(s)
    && !EmptyBetween(Split(s[1..]), 0)
    && PARENT !in Split(s[1..])
  }

  /** A target is well formed when it starts with a slash and writes an acceptable path. */
  ghost predicate WellFormedTarget(p: ByteString) {
    StartsWithSlash(p) && exists s :: WritesTarget(p, s)
  }

  /** Exactly the well-formed targets have candidates. */
  lemma WellFormedIffAccepted(p: ByteString)
    ensures WellFormedTarget(p) <==> CandidatePaths(p).Success?
  {
    AcceptedTargets(p);
    if StartsWithSlash(p) && Decode(p).Success? {
      AcceptedPieces(p);
      DecodedStartsWithSlash(p);
      DecodeIffEncodes(p, Decode(p).value);
      hide CandidatePaths, Encodes, Utf8.Valid;
      assert CandidatePaths(p).Success? ==> WritesTarget(p, Decode(p).value);
    }
    if s :| WritesTarget(p, s) {
      DecodeIffEncodes(p, s);
    }
  }

  /** The pieces of a path that may be joined to the root: none of them is empty or `..`. */
  ghost predicate StaysBelow(pieces: seq<ByteString>) {
    [] !in pieces && PARENT !in pieces && AllSlashFree(pieces)
  }

  /** Every candidate is relative, not empty, and free of `..` and of empty pieces. */
  lemma CandidatesStayBelow(p: ByteString, k: nat)
    requires CandidatePaths(p).Success? && k < |CandidatePaths(p).value|
    ensures StartsWithSlash(p) && Decode(p).Success?
    ensures |CandidatePaths(p).value| == |CandidatePieces(TargetPieces(p))|
    ensures var c := CandidatePaths(p).value[k];
            c != [] && !StartsWithSlash(c) && Split(c) == CandidatePieces(TargetPieces(p))[k] && StaysBelow(Split(c))
  {
    AcceptedTargets(p);
    hide CandidatePaths;
    var pieces := TargetPieces(p);
    DecodedStartsWithSlash(p);
    SplitIsSlashFree(Decode(p).value[1..]);
    hide Decode;
    CandidateStaysBelow(pieces, k);
  }

  lemma CandidateStaysBelow(pieces: seq<ByteString>, k: nat)
    requires |pieces| > 0 && AllSlashFree(pieces) && !EmptyBetween(pieces, 0) && PARENT !in pieces
    requires k < |CandidatePieces(pieces)|
    ensures var c := Join(CandidatePieces(pieces)[k]);
            c != [] && !StartsWithSlash(c) && Split(c) == CandidatePieces(pieces)[k] && StaysBelow(Split(c))
  {
    var candidate := CandidatePieces(pieces)[k];
    var last := |pieces| - 1;
    assert forall i :: 0 <= i < last ==> pieces[i] != [];
    assert SlashFree(INDEX);
    assert forall x :: x in candidate ==> x == INDEX || (x in pieces && x != []);
    assert AllSlashFree(candidate);
    SplitJoin(candidate);
    EmptyPieceFromDoubleSlash(Join(candidate));
  }

  /** The second test for a leading slash, and the validator's test for an absolute path, never fire. */
  lemma UnreachableChecks(p: ByteString)
    requires StartsWithSlash(p) && Decode(p).Success?
    ensures StartsWithSlash(Decode(p).value)
    ensures !([SLASH, SLASH] <= Decode(p).value) ==> ValidateRelativePath(Decode(p).value[1..]) != Failure(BadTarget)
  {
    DecodedStartsWithSlash(p);
    ValidatePieces(Split(Decode(p).value[1..]), true);
  }
}
