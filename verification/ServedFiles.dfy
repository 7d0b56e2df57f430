/** Which files the lookup serves: containment, completeness, and agreement between paths. */
module ServedFiles {
  import opened ByteStrings
  import opened Errors
  import opened PercentDecoding
  import opened RequestTarget
  import opened FileTree
  import opened Lookup
  import Utf8

  // ----- Lookups as walks from the root -----

  /** What a walk from the root over the given pieces finds. */
  function ProbePieces(fs: FileSystem, root: Path, pieces: seq<ByteString>): Hit
    requires ValidTree(fs) && RealNode(fs, root)
  {
    Found(fs, root, Walk(fs, root, pieces, fs.maxLinks))
  }

  /** What the end of a walk is worth. */
  function Found(fs: FileSystem, root: Path, walk: Result<Reached, WalkError>): Hit
    requires walk.Success? ==> walk.value.path in fs.nodes
  {
    match walk
    case Failure(Absent) => Missing
    case Failure(Refused(cause)) => Broken(cause)
    case Success(reached) =>
      if !(root <= reached.path) then Outside
      else
        match fs.nodes[reached.path]
        case Directory(_) => Folder
        case Regular(content, readable) =>
          if readable then File(reached.path, content) else Broken(PermissionDenied)
        case _ => Other
  }

  /** Looking up a relative path below the canonical root is walking its pieces from the root. */
  lemma ProbeIsWalk(fs: FileSystem, root: Path, candidate: ByteString)
    requires ValidTree(fs) && CanonicalRoot(fs, root) && !StartsWithSlash(candidate)
    ensures RealNode(fs, root)
    ensures Probe(fs, root, candidate) == ProbePieces(fs, root, Split(candidate))
  {
    RootIsReachable(fs, root);
    SplitRendered(fs, root, candidate);
    WalkFromRoot(fs, root, Split(candidate), fs.maxLinks);
  }

  /** The lookup table in terms of walks over the decoded pieces. */
  function ResolvePieces(fs: FileSystem, root: Path, candidates: seq<seq<ByteString>>)
    : Result<ResolvedFile, ResolveError>
    requires ValidTree(fs) && RealNode(fs, root) && |candidates| > 0
  {
    var direct := ProbePieces(fs, root, candidates[0]);
    if |candidates| == 2 && direct == Folder then Serve(ProbePieces(fs, root, candidates[1])) else Serve(direct)
  }

  lemma ResolveIsWalk(fs: FileSystem, root: Path, p: ByteString)
    requires ValidTree(fs) && CanonicalRoot(fs, root) && CandidatePaths(p).Success?
    ensures RealNode(fs, root)
    ensures StartsWithSlash(p) && Decode(p).Success?
    ensures Resolve(fs, root, p) == ResolvePieces(fs, root, CandidatePieces(TargetPieces(p)))
    ensures |CandidatePaths(p).value| == |CandidatePieces(TargetPieces(p))|
  {
    var candidates := CandidatePaths(p).value;
    CandidatesStayBelow(p, 0);
    ProbeIsWalk(fs, root, candidates[0]);
    if |candidates| == 2 {
      CandidatesStayBelow(p, 1);
      ProbeIsWalk(fs, root, candidates[1]);
    }
  }

  /** The candidate that settles the answer, with the pieces that lead to it. */
  lemma SettlingCandidate(fs: FileSystem, root: Path, p: ByteString) returns (k: nat)
    requires ValidTree(fs) && CanonicalRoot(fs, root) && CandidatePaths(p).Success?
    ensures RealNode(fs, root)
    ensures StartsWithSlash(p) && Decode(p).Success?
    ensures k < |CandidatePieces(TargetPieces(p))|
    ensures StaysBelow(CandidatePieces(TargetPieces(p))[k])
    ensures Resolve(fs, root, p) == Serve(ProbePieces(fs, root, CandidatePieces(TargetPieces(p))[k]))
  {
    ResolveIsWalk(fs, root, p);
    var candidates := CandidatePieces(TargetPieces(p));
    k := if |candidates| == 2 && ProbePieces(fs, root, candidates[0]) == Folder then 1 else 0;
    CandidatesStayBelow(p, k);
  }

  // ----- The lookup table -----

  /** The candidate leads to a node inside the root, links followed. */
  ghost predicate LeadsInside(fs: FileSystem, root: Path, candidate: ByteString)
    requires ValidTree(fs)
  {
    var path := Canonicalize(fs, PathJoin(Render(root), candidate));
    path.Success? && root <= path.value
  }

  /** The candidate that decides: the index, if there are two and the first is a directory inside the root. */
  ghost function Deciding(fs: FileSystem, root: Path, candidates: seq<ByteString>): ByteString
    requires ValidTree(fs) && 1 <= |candidates| <= 2
  {
    if |candidates| == 2 && LeadsInside(fs, root, candidates[0])
       && fs.nodes[Canonicalize(fs, PathJoin(Render(root), candidates[0])).value].Directory?
    then candidates[1] else candidates[0]
  }

  /**
   The lookup table, for every accepted target on every tree: each outcome has its exact condition on the
   canonical path of the deciding candidate.
   */
  lemma LookupTable(fs: FileSystem, root: Path, p: ByteString)
    requires ValidTree(fs) && CandidatePaths(p).Success?
    ensures var c := Deciding(fs, root, CandidatePaths(p).value);
            var path := Canonicalize(fs, PathJoin(Render(root), c));
            var found := Resolve(fs, root, p);
            && (found == Failure(Escape) <==> path.Success? && !(root <= path.value))
            && (found == Failure(NotFound) <==>
                  || path == Failure(Absent)
                  || (LeadsInside(fs, root, c) && (fs.nodes[path.value].Directory? || fs.nodes[path.value].Special?)))
            && (forall cause :: found == Failure(Io(cause)) <==>
                  || path == Failure(Refused(cause))
                  || (LeadsInside(fs, root, c) && fs.nodes[path.value].Regular? && !fs.nodes[path.value].readable
                      && cause == PermissionDenied))
            && (forall file :: found == Success(file) <==>
                  && LeadsInside(fs, root, c)
                  && fs.nodes[path.value] == Regular(file.content, true)
                  && file.canonicalPath == path.value
                  && file.contentLength == |file.content|)
  {
    hide CandidatePaths, ValidTree;
  }

  // ----- Containment -----

  /** The walk from the root over these pieces ends on `path`. */
  ghost predicate LeadsTo(fs: FileSystem, root: Path, pieces: seq<ByteString>, path: Path)
    requires ValidTree(fs) && RealNode(fs, root)
  {
    var walk := Walk(fs, root, pieces, fs.maxLinks);
    walk.Success? && walk.value.path == path
  }

  /** So does the walk over the pieces of the target, or of the index below it. */
  ghost predicate TargetLeadsTo(fs: FileSystem, root: Path, p: ByteString, path: Path)
    requires ValidTree(fs) && RealNode(fs, root) && StartsWithSlash(p) && Decode(p).Success?
  {
    var candidates := CandidatePieces(TargetPieces(p));
    exists k :: 0 <= k < |candidates| && StaysBelow(candidates[k]) && LeadsTo(fs, root, candidates[k], path)
  }

  /** No component of the path, the last included, is a symbolic link. */
  ghost predicate CrossesNoLink(fs: FileSystem, path: Path) {
    forall i :: 0 <= i <= |path| ==> path[..i] in fs.nodes && !fs.nodes[path[..i]].Link?
  }

  /**
   Containment: on every tree, whatever its links, a served file lies below the root component by
   component, is a readable regular file on a path that crosses no link, is the node that the walk
   from the root over the decoded target (or over its index) reaches, and comes with its own content
   and length.
   */
  lemma Containment(fs: FileSystem, root: Path, p: ByteString)
    requires ValidTree(fs) && CanonicalRoot(fs, root) && Resolve(fs, root, p).Success?
    ensures var file := Resolve(fs, root, p).value;
            && root <= file.canonicalPath && root != file.canonicalPath
            && CrossesNoLink(fs, file.canonicalPath)
            && fs.nodes[file.canonicalPath] == Regular(file.content, true)
            && file.contentLength == |file.content|
    ensures StartsWithSlash(p) && Decode(p).Success? && RealNode(fs, root)
    ensures TargetLeadsTo(fs, root, p, Resolve(fs, root, p).value.canonicalPath)
  {
    var k := SettlingCandidate(fs, root, p);
    var pieces := CandidatePieces(TargetPieces(p))[k];
    var path := Resolve(fs, root, p).value.canonicalPath;
    assert StaysBelow(CandidatePieces(TargetPieces(p))[k]) && LeadsTo(fs, root, pieces, path);
    RootIsReachable(fs, root);
    WalkEndsReachable(fs, root, pieces, fs.maxLinks);
    assert path[..|path|] == path;
  }

  // ----- What a lookup touches -----

  ghost predicate Inside(fs: FileSystem, root: Path, path: Path) {
    root <= path && path in fs.nodes && CrossesNoLink(fs, path)
  }

  /** Canonicalization gets a candidate below the root; only real paths inside the root are inspected or opened. */
  ghost predicate Confined(fs: FileSystem, root: Path, candidate: ByteString, a: Access)
    requires ValidTree(fs)
  {
    match a
    case Canonicalized(path) => path == PathJoin(Render(root), candidate)
    case Inspected(path) => exists p :: Inside(fs, root, p) && Render(p) == path
    case Opened(path) => exists p :: Inside(fs, root, p) && fs.nodes[p].Regular? && Render(p) == path
  }

  ghost predicate ConfinedToAny(fs: FileSystem, root: Path, candidates: seq<ByteString>, a: Access)
    requires ValidTree(fs)
  {
    exists i :: 0 <= i < |candidates| && Confined(fs, root, candidates[i], a)
  }

  lemma ProbeIsConfined(fs: FileSystem, root: Path, candidate: ByteString)
    requires ValidTree(fs)
    ensures var log := ProbeAccesses(fs, root, candidate);
            && log != []
            && (forall a :: a in log ==> Confined(fs, root, candidate, a))
            && (forall i :: 0 <= i < |log| && log[i].Opened? ==>
                  i == |log| - 1 && Probe(fs, root, candidate) != Folder)
            && (Probe(fs, root, candidate).File? ==>
                  log[|log| - 1] == Opened(Render(Probe(fs, root, candidate).path)))
  {
    var fullPath := PathJoin(Render(root), candidate);
    var canonicalized := Canonicalize(fs, fullPath);
    if canonicalized.Success? && root <= canonicalized.value {
      var path := canonicalized.value;
      RootSearched(fs, fullPath);
      CanonicalizeTwice(fs, fullPath);
      assert path[..|path|] == path;
      assert Inside(fs, root, path);
    }
  }

  /**
   What a lookup touches, on every tree: nothing at all exactly when the target is malformed; otherwise
   it canonicalizes candidates of the target, inspects and opens real paths inside the root only, opens
   at most one, a regular file, as its last call, and serves no file but the one it opened.
   */
  lemma LookupsAreConfined(fs: FileSystem, root: Path, p: ByteString)
    requires ValidTree(fs)
    ensures ResolveAccesses(fs, root, p) == [] <==> !WellFormedTarget(p)
    ensures var log := ResolveAccesses(fs, root, p);
            && (forall a :: a in log ==>
                  CandidatePaths(p).Success? && ConfinedToAny(fs, root, CandidatePaths(p).value, a))
            && (forall i :: 0 <= i < |log| && log[i].Opened? ==> i == |log| - 1)
            && (Resolve(fs, root, p).Success? ==>
                  log != [] && log[|log| - 1] == Opened(Render(Resolve(fs, root, p).value.canonicalPath)))
  {
    WellFormedIffAccepted(p);
    hide CandidatePaths, WellFormedTarget, ProbeAccesses, Probe, Confined;
    if CandidatePaths(p).Success? {
      var candidates := CandidatePaths(p).value;
      ProbeIsConfined(fs, root, candidates[0]);
      if |candidates| == 2 {
        ProbeIsConfined(fs, root, candidates[1]);
      }
    }
  }

  // ----- Completeness -----

  lemma {:induction false} NamedNames(names: seq<ByteString>)
    requires [] !in names && CURRENT !in names
    ensures Named(names) == names
  {
    if names != [] {
      NamedNames(names[1..]);
    }
  }

  /** A file below the root that can be reached and read without following a link. */
  ghost predicate Servable(fs: FileSystem, root: Path, names: seq<ByteString>) {
    && names != []
    && root + names in fs.nodes
    && fs.nodes[root + names].Regular?
    && fs.nodes[root + names].readable
    && Reachable(fs, root + names)
  }

  /** A path that writes these names, one after the other, is read back as these pieces. */
  lemma TargetOfNames(p: ByteString, pieces: seq<ByteString>)
    requires pieces != [] && AllSlashFree(pieces) && Utf8.AllValid(pieces)
    requires Encodes(p, [SLASH] + Join(pieces))
    ensures StartsWithSlash(p) && Decode(p).Success? && TargetPieces(p) == pieces
  {
    var s := [SLASH] + Join(pieces);
    Utf8.ValidJoin(pieces);
    assert s == [] + [SLASH] + Join(pieces);
    Utf8.ValidAroundSlash([], Join(pieces));
    DecodeIffEncodes(p, s);
    SplitJoin(pieces);
    RawStartsWithSlash(p);
    assert s[1..] == Join(pieces);
  }

  lemma RawStartsWithSlash(p: ByteString)
    requires Decode(p).Success?
    ensures StartsWithSlash(p) <==> StartsWithSlash(Decode(p).value)
  {
    if p != [] {
      assert ReadUnit(p).Good?;
      assert Decode(p).value[0] == ReadUnit(p).value;
    }
  }

  /** A path that writes acceptable pieces is looked up by walking them from the root. */
  lemma ResolveTarget(fs: FileSystem, root: Path, p: ByteString, pieces: seq<ByteString>)
    requires ValidTree(fs) && CanonicalRoot(fs, root)
    requires pieces != [] && AllSlashFree(pieces) && Utf8.AllValid(pieces)
    requires !EmptyBetween(pieces, 0) && PARENT !in pieces
    requires Encodes(p, [SLASH] + Join(pieces))
    ensures RealNode(fs, root)
    ensures Resolve(fs, root, p) == ResolvePieces(fs, root, CandidatePieces(pieces))
  {
    TargetOfNames(p, pieces);
    AcceptedPieces(p);
    ResolveIsWalk(fs, root, p);
  }

  lemma WalkToServable(fs: FileSystem, root: Path, names: seq<ByteString>)
    requires ValidTree(fs) && CanonicalRoot(fs, root) && Reachable(fs, root + names)
    ensures RealNode(fs, root)
    ensures Walk(fs, root, names, fs.maxLinks) == Success(Reached(root + names, fs.maxLinks))
    ensures forall i :: 0 <= i < |names| ==> ValidName(names[i])
    ensures AllSlashFree(names) && !EmptyBetween(names, 0) && PARENT !in names
  {
    var path := root + names;
    assert path[..|root|] == root && path[|root|..] == names;
    WalkNames(fs, path, |root|, fs.maxLinks);
    NamesAreValid(fs, path);
    forall i | 0 <= i < |names| ensures ValidName(names[i]) {
      assert path[|root| + i] == names[i];
    }
  }

  /**
   Completeness: every readable regular file below the root, reached through searchable directories
   and named in UTF-8, is what any percent-encoding of its path resolves to.
   */
  lemma EveryFileHasItsPath(fs: FileSystem, root: Path, names: seq<ByteString>, p: ByteString)
    requires ValidTree(fs) && CanonicalRoot(fs, root) && Servable(fs, root, names) && Utf8.AllValid(names)
    requires Encodes(p, [SLASH] + Join(names))
    ensures var content := fs.nodes[root + names].content;
            Resolve(fs, root, p) == Success(ResolvedFile(root + names, content, |content|))
  {
    hide Encodes, Resolve, ValidTree;
    WalkToServable(fs, root, names);
    ResolveTarget(fs, root, p, names);
    assert CandidatePieces(names) == [names, names + [INDEX]];
    assert ProbePieces(fs, root, names) == File(root + names, fs.nodes[root + names].content);
  }

  /** A directory's index is what any encoding of the directory's path resolves to, without a final slash... */
  lemma EveryIndexHasItsPath(fs: FileSystem, root: Path, names: seq<ByteString>, p: ByteString)
    requires ValidTree(fs) && CanonicalRoot(fs, root) && Servable(fs, root, names + [INDEX]) && Utf8.AllValid(names)
    requires names != [] && Encodes(p, [SLASH] + Join(names))
    ensures var content := fs.nodes[root + (names + [INDEX])].content;
            Resolve(fs, root, p) == Success(ResolvedFile(root + (names + [INDEX]), content, |content|))
  {
    var indexed := names + [INDEX];
    var path := root + indexed;
    WalkToServable(fs, root, indexed);
    ReachableParent(fs, path);
    assert Parent(path) == root + names;
    WalkToServable(fs, root, names);
    ResolveTarget(fs, root, p, names);
    assert CandidatePieces(names) == [names, indexed];
    assert ProbePieces(fs, root, names) == Folder;
    assert ProbePieces(fs, root, indexed) == File(path, fs.nodes[path].content);
  }

  lemma SlashPieces(names: seq<ByteString>)
    requires AllSlashFree(names + [INDEX]) && !EmptyBetween(names + [INDEX], 0) && PARENT !in names + [INDEX]
    requires Utf8.AllValid(names)
    ensures AllSlashFree(names + [[]]) && !EmptyBetween(names + [[]], 0) && PARENT !in names + [[]]
    ensures Utf8.AllValid(names + [[]])
  {
    var indexed, pieces := names + [INDEX], names + [[]];
    forall i | 0 <= i < |pieces| ensures SlashFree(pieces[i]) && pieces[i] != PARENT && Utf8.Valid(pieces[i]) {
      if i < |names| {
        assert pieces[i] == names[i] == indexed[i];
        assert indexed[i] in indexed;
      }
    }
    forall i | 0 <= i < |names| ensures pieces[i] != [] {
      assert pieces[i] == indexed[i];
    }
  }

  /** ... and with one; for no names at all this is the root's own index at `/`. */
  lemma EveryIndexHasItsSlashPath(fs: FileSystem, root: Path, names: seq<ByteString>, p: ByteString)
    requires ValidTree(fs) && CanonicalRoot(fs, root) && Servable(fs, root, names + [INDEX]) && Utf8.AllValid(names)
    requires Encodes(p, [SLASH] + Join(names + [[]]))
    ensures var content := fs.nodes[root + (names + [INDEX])].content;
            Resolve(fs, root, p) == Success(ResolvedFile(root + (names + [INDEX]), content, |content|))
  {
    var indexed := names + [INDEX];
    var path := root + indexed;
    var pieces := names + [[]];
    WalkToServable(fs, root, indexed);
    SlashPieces(names);
    ResolveTarget(fs, root, p, pieces);
    assert pieces[..|names|] == names;
    assert CandidatePieces(pieces) == [indexed];
    assert ProbePieces(fs, root, indexed) == File(path, fs.nodes[path].content);
  }

  // ----- Trees without links -----

  /** A target is only ever rejected for its own text, never for what the tree holds. */
  lemma RejectionIsLexical(p: ByteString)
    ensures CandidatePaths(p).Failure? ==>
              CandidatePaths(p).error
              in {BadTarget, InvalidPercentEncoding, InvalidUtf8, EncodedSlash, NullByte, Traversal}
  {
    AcceptedTargets(p);
    DecodeErrors(p);
  }

  lemma NeverOutside(fs: FileSystem, root: Path, pieces: seq<ByteString>)
    requires ValidTree(fs) && RealNode(fs, root) && NoLinks(fs) && PARENT !in pieces
    ensures ProbePieces(fs, root, pieces) != Outside
  {
    if Walk(fs, root, pieces, fs.maxLinks).Success? {
      WalkWithoutLinks(fs, root, pieces, fs.maxLinks);
    }
  }

  /** In a tree without links no path leads out of the root. */
  lemma NoEscapeWithoutLinks(fs: FileSystem, root: Path, p: ByteString)
    requires ValidTree(fs) && CanonicalRoot(fs, root) && NoLinks(fs)
    ensures Resolve(fs, root, p) != Failure(Escape)
  {
    RejectionIsLexical(p);
    hide CandidatePaths, Walk, ProbePieces, CanonicalRoot, Decode, DecodeBytes;
    if CandidatePaths(p).Success? {
      var k := SettlingCandidate(fs, root, p);
      NeverOutside(fs, root, CandidatePieces(TargetPieces(p))[k]);
    }
  }

  lemma {:induction false} NamedKeepsValid(pieces: seq<ByteString>)
    requires Utf8.AllValid(pieces)
    ensures Utf8.AllValid(Named(pieces))
  {
    if pieces != [] {
      assert Utf8.AllValid(pieces[1..]);
      NamedKeepsValid(pieces[1..]);
    }
  }

  lemma TargetPiecesValid(p: ByteString)
    requires StartsWithSlash(p) && Decode(p).Success?
    ensures Utf8.AllValid(TargetPieces(p))
  {
    DecodedStartsWithSlash(p);
    var s := Decode(p).value;
    assert s == [] + [SLASH] + s[1..];
    Utf8.ValidAroundSlash([], s[1..]);
    Utf8.ValidBySegments(s[1..]);
  }

  /** Writes every byte but the slash as an escape. */
  function EscapeAll(s: ByteString): ByteString {
    if s == [] then [] else Escaped(s[0]) + EscapeAll(s[1..])
  }

  function Escaped(b: Byte): ByteString {
    if b == SLASH then [SLASH] else [PERCENT, LOWER_DIGITS[b / 16], UPPER_DIGITS[b % 16]]
  }

  lemma {:induction false} EscapeAllEncodes(s: ByteString) returns (units: seq<ByteString>)
    requires NUL !in s
    ensures SpellsAll(units, s) && Concat(units) == EscapeAll(s)
  {
    if s == [] {
      units := [];
    } else {
      assert NUL != s[0] && NUL !in s[1..];
      var rest := EscapeAllEncodes(s[1..]);
      var unit := Escaped(s[0]);
      units := [unit] + rest;
      assert units[1..] == rest;
      assert Spells(unit, s[0]);
    }
  }

  lemma {:induction false} JoinWithoutNul(names: seq<ByteString>)
    requires names != [] && forall i :: 0 <= i < |names| ==> NUL !in names[i]
    ensures NUL !in Join(names)
  {
    if |names| > 1 {
      JoinWithoutNul(names[1..]);
    }
  }

  /** Some request path is answered with this file. */
  ghost predicate HasPath(fs: FileSystem, root: Path, path: Path)
    requires ValidTree(fs)
  {
    exists p :: AnsweredWith(fs, root, p, path)
  }

  ghost predicate AnsweredWith(fs: FileSystem, root: Path, p: ByteString, path: Path)
    requires ValidTree(fs)
  {
    Resolve(fs, root, p).Success? && Resolve(fs, root, p).value.canonicalPath == path
  }

  lemma ServableHasPath(fs: FileSystem, root: Path, names: seq<ByteString>)
    requires ValidTree(fs) && CanonicalRoot(fs, root) && Servable(fs, root, names) && Utf8.AllValid(names)
    ensures HasPath(fs, root, root + names)
  {
    WalkToServable(fs, root, names);
    assert forall i :: 0 <= i < |names| ==> ValidName(names[i]);
    JoinWithoutNul(names);
    var s := [SLASH] + Join(names);
    var units := EscapeAllEncodes(s);
    assert Encodes(EscapeAll(s), s);
    EveryFileHasItsPath(fs, root, names, EscapeAll(s));
    assert AnsweredWith(fs, root, EscapeAll(s), root + names);
  }

  lemma {:induction false} AsciiIsValid(s: ByteString)
    requires forall i :: 0 <= i < |s| ==> s[i] <= 0x7F
    ensures Utf8.Valid(s)
  {
    if s != [] {
      AsciiIsValid(s[1..]);
    }
  }

  /** Adding a piece, or dropping the last, keeps all pieces valid. */
  lemma CandidatesAreValid(pieces: seq<ByteString>, index: ByteString)
    requires |pieces| > 0 && Utf8.AllValid(pieces)
    requires forall i :: 0 <= i < |index| ==> index[i] <= 0x7F
    ensures Utf8.AllValid(pieces + [index]) && Utf8.AllValid(pieces[..|pieces| - 1] + [index])
  {
    AsciiIsValid(index);
  }

  /** In a tree without links, walking the pieces of a candidate to a file leads to a servable file. */
  lemma WalkedIsServable(fs: FileSystem, root: Path, pieces: seq<ByteString>)
    requires ValidTree(fs) && CanonicalRoot(fs, root) && NoLinks(fs) && RealNode(fs, root)
    requires PARENT !in pieces && ProbePieces(fs, root, pieces).File?
    ensures ProbePieces(fs, root, pieces).path == root + Named(pieces)
    ensures Servable(fs, root, Named(pieces))
  {
    RootIsReachable(fs, root);
    WalkEndsReachable(fs, root, pieces, fs.maxLinks);
    WalkWithoutLinks(fs, root, pieces, fs.maxLinks);
    assert root + [] == root;
  }

  /** The pieces that settle the answer, without the target they come from. */
  lemma SettlingPieces(fs: FileSystem, root: Path, p: ByteString) returns (pieces: seq<ByteString>)
    requires ValidTree(fs) && CanonicalRoot(fs, root) && CandidatePaths(p).Success?
    ensures RealNode(fs, root)
    ensures StaysBelow(pieces) && Utf8.AllValid(pieces)
    ensures Resolve(fs, root, p) == Serve(ProbePieces(fs, root, pieces))
  {
    hide CandidatePaths, Decode, DecodeBytes, Resolve, Walk, ProbePieces, CanonicalRoot;
    var k := SettlingCandidate(fs, root, p);
    pieces := CandidatePieces(TargetPieces(p))[k];
    TargetPiecesValid(p);
    CandidatesAreValid(TargetPieces(p), INDEX);
  }

  lemma AnswerWithoutLinks(fs: FileSystem, root: Path, p: ByteString) returns (names: seq<ByteString>)
    requires ValidTree(fs) && CanonicalRoot(fs, root) && NoLinks(fs) && Resolve(fs, root, p).Success?
    ensures Resolve(fs, root, p).value.canonicalPath == root + names
    ensures Servable(fs, root, names) && Utf8.AllValid(names)
  {
    var pieces := SettlingPieces(fs, root, p);
    WalkedIsServable(fs, root, pieces);
    names := Named(pieces);
    NamedKeepsValid(pieces);
  }

  /**
   In a tree without links, a path can be requested exactly when it is a servable file whose names
   below the root are UTF-8.
   */
  lemma RequestableFiles(fs: FileSystem, root: Path, names: seq<ByteString>)
    requires ValidTree(fs) && CanonicalRoot(fs, root) && NoLinks(fs)
    ensures HasPath(fs, root, root + names) <==> Servable(fs, root, names) && Utf8.AllValid(names)
  {
    if Servable(fs, root, names) && Utf8.AllValid(names) {
      ServableHasPath(fs, root, names);
    }
    if p :| AnsweredWith(fs, root, p, root + names) {
      var found := AnswerWithoutLinks(fs, root, p);
      assert names == (root + names)[|root|..] == (root + found)[|root|..] == found;
    }
  }

  // ----- Agreement between paths -----

  /** Paths that decode alike are answered alike. */
  lemma EqualDecodings(fs: FileSystem, root: Path, p: ByteString, q: ByteString)
    requires ValidTree(fs) && Decode(p).Success? && Decode(p) == Decode(q)
    ensures Resolve(fs, root, p) == Resolve(fs, root, q)
  {
    RawStartsWithSlash(p);
    RawStartsWithSlash(q);
    assert CandidatePaths(p) == CandidatePaths(q);
  }

  lemma SlashCandidates()
    ensures CandidatePaths([SLASH]) == Success([INDEX])
  {
    OnlySlashDecodesToSlash([SLASH]);
    assert [SLASH][1..] == [];
  }

  lemma SingleCandidate(p: ByteString, c: ByteString)
    requires CandidatePaths(p) == Success([c]) && SlashFree(c)
    ensures StartsWithSlash(p) && Decode(p).Success? && CandidatePieces(TargetPieces(p)) == [[c]]
  {
    CandidatesStayBelow(p, 0);
    hide CandidatePaths, Decode;
    SplitOfSlashFree(c);
    assert [[c]][0] == [c];
  }

  /** Only the path `/` is looked up as the root's index, so the raw test for the welcome page is exact. */
  lemma OnlySlashIsTheRoot(p: ByteString)
    ensures CandidatePaths(p) == Success([INDEX]) <==> p == [SLASH]
  {
    SlashCandidates();
    hide CandidatePaths, Decode, DecodeBytes;
    if CandidatePaths(p) == Success([INDEX]) {
      SingleCandidate(p, INDEX);
      DecodedStartsWithSlash(p);
      RootPieces(Decode(p).value);
      OnlySlashDecodesToSlash(p);
    }
  }

  lemma RootPieces(s: ByteString)
    requires StartsWithSlash(s)
    ensures CandidatePieces(Split(s[1..])) == [[INDEX]] ==> s == [SLASH]
  {
    var pieces := Split(s[1..]);
    JoinSplit(s[1..]);
    if CandidatePieces(pieces) == [[INDEX]] {
      assert |pieces[..|pieces| - 1] + [INDEX]| == 1;
      assert pieces == [[]];
      assert s == [SLASH] + s[1..];
    }
  }

  /** What the index is worth that is looked up where the pieces lead to, with the links left over. */
  function FoundBeyond(fs: FileSystem, root: Path, pieces: seq<ByteString>): Hit
    requires ValidTree(fs) && RealNode(fs, root) && Walk(fs, root, pieces, fs.maxLinks).Success?
  {
    var end := Walk(fs, root, pieces, fs.maxLinks).value;
    Found(fs, root, Walk(fs, end.path, [INDEX], end.links))
  }

  /**
   A path and the same path with a final slash: they agree when the plain path leads to a directory
   inside the root, to nothing, or to an I/O error; when it leads to a file or another kind of node
   inside the root, the path with the slash is an I/O error instead; and when it leads out of the root,
   the path with the slash is what the index found out there is worth, which may lie inside again.
   */
  lemma FinalSlash(fs: FileSystem, root: Path, p: ByteString, q: ByteString)
    requires ValidTree(fs) && CanonicalRoot(fs, root)
    requires CandidatePaths(p).Success? && |CandidatePaths(p).value| == 2
    requires Decode(q) == Success(Decode(p).value + [SLASH])
    ensures RealNode(fs, root) && StartsWithSlash(p) && Decode(p).Success?
    ensures Probe(fs, root, CandidatePaths(p).value[0]) == Outside ==>
              Walk(fs, root, TargetPieces(p), fs.maxLinks).Success?
    ensures match Probe(fs, root, CandidatePaths(p).value[0])
            case Folder => Resolve(fs, root, q) == Resolve(fs, root, p)
            case Missing => Resolve(fs, root, q) == Resolve(fs, root, p) == Failure(NotFound)
            case Broken(cause) =>
              Resolve(fs, root, p) == Failure(Io(cause))
              && (Resolve(fs, root, q) == Failure(Io(cause)) || Resolve(fs, root, q) == Failure(Io(NotADirectory)))
            case File(path, content) =>
              Resolve(fs, root, p) == Success(ResolvedFile(path, content, |content|))
              && Resolve(fs, root, q) == Failure(Io(NotADirectory))
            case Other =>
              Resolve(fs, root, p) == Failure(NotFound) && Resolve(fs, root, q) == Failure(Io(NotADirectory))
            case Outside =>
              Resolve(fs, root, p) == Failure(Escape)
              && Resolve(fs, root, q) == Serve(FoundBeyond(fs, root, TargetPieces(p)))
  {
    CandidatesStayBelow(p, 0);
    hide CandidatePaths, Decode, DecodeBytes, Resolve, Probe, CanonicalRoot, Walk, ProbePieces, FoundBeyond;
    ResolveIsWalk(fs, root, p);
    ProbeIsWalk(fs, root, CandidatePaths(p).value[0]);
    SlashTarget(p, q);
    ResolveIsWalk(fs, root, q);
    IndexBelow(fs, root, TargetPieces(p));
  }

  /** What the index below some pieces can be, given what the pieces themselves lead to. */
  lemma IndexBelow(fs: FileSystem, root: Path, pieces: seq<ByteString>)
    requires ValidTree(fs) && RealNode(fs, root)
    ensures match ProbePieces(fs, root, pieces)
            case Missing => ProbePieces(fs, root, pieces + [INDEX]) == Missing
            case Broken(cause) =>
              ProbePieces(fs, root, pieces + [INDEX]) == Broken(cause)
              || ProbePieces(fs, root, pieces + [INDEX]) == Broken(NotADirectory)
            case File(_, _) => ProbePieces(fs, root, pieces + [INDEX]) == Broken(NotADirectory)
            case Other => ProbePieces(fs, root, pieces + [INDEX]) == Broken(NotADirectory)
            case _ =>
              Walk(fs, root, pieces, fs.maxLinks).Success?
              && ProbePieces(fs, root, pieces + [INDEX]) == FoundBeyond(fs, root, pieces)
  {
    WalkAppend(fs, root, pieces, [INDEX], fs.maxLinks);
  }

  lemma SlashTarget(p: ByteString, q: ByteString)
    requires CandidatePaths(p).Success? && |CandidatePaths(p).value| == 2
    requires Decode(q) == Success(Decode(p).value + [SLASH])
    ensures StartsWithSlash(p) && Decode(p).Success?
    ensures CandidatePieces(TargetPieces(p)) == [TargetPieces(p), TargetPieces(p) + [INDEX]]
    ensures StartsWithSlash(q) && CandidatePaths(q).Success?
    ensures CandidatePieces(TargetPieces(q)) == [TargetPieces(p) + [INDEX]]
  {
    CandidatesStayBelow(p, 0);
    RawStartsWithSlash(q);
    DecodedStartsWithSlash(p);
    AcceptedPieces(p);
    AcceptedPieces(q);
    var s, pieces := Decode(p).value, TargetPieces(p);
    assert (s + [SLASH])[1..] == s[1..] + [SLASH] + [];
    SplitConcat(s[1..], []);
    assert TargetPieces(q) == pieces + [[]];
    assert (pieces + [[]])[..|pieces|] == pieces;
    assert PARENT !in pieces + [[]];
  }
}
