/** What the lookup answers for a path through links, read off the way that the path takes through the tree. */
module LinkedFiles {
  import opened ByteStrings
  import opened Errors
  import opened FileTree
  import opened Links
  import opened Lookup
  import opened PercentDecoding
  import opened RequestTarget
  import opened ServedFiles
  import Utf8

  /** Pieces that a request may name: none empty, no `..`, and all of them UTF-8. A `.` is allowed. */
  ghost predicate PlainPieces(pieces: seq<ByteString>) {
    && pieces != []
    && AllSlashFree(pieces)
    && Utf8.AllValid(pieces)
    && PARENT !in pieces
    && [] !in pieces
  }

  /** The way starts at the root with these pieces to resolve, and has no more links than may be followed. */
  ghost predicate ShortWay(fs: FileSystem, root: Path, pieces: seq<ByteString>, stops: seq<Stop>) {
    Way(fs, stops) && stops[0] == Stop(root, pieces) && Hops(fs, stops) <= fs.maxLinks
  }

  /** The walk that a way from the root leaves over, with more pieces behind. */
  lemma ProbeAlong(fs: FileSystem, root: Path, pieces: seq<ByteString>, stops: seq<Stop>, tail: seq<ByteString>)
    requires ValidTree(fs) && CanonicalRoot(fs, root)
    requires Way(fs, stops) && stops[0] == Stop(root, pieces)
    ensures RealNode(fs, root) && stops != []
    ensures var z := stops[|stops| - 1];
            && Approachable(fs, z.path)
            && (z.path == [] ==> RealNode(fs, z.path))
            && ProbePieces(fs, root, pieces + tail)
               == if Hops(fs, stops) <= fs.maxLinks
                  then Found(fs, root, WalkFrom(fs, Stop(z.path, z.rest + tail), fs.maxLinks - Hops(fs, stops)))
                  else Broken(TooManyLinks)
  {
    hide ValidTree, Approachable, Hops;
    WalkAlong(fs, stops, tail, fs.maxLinks);
  }

  /** What the end of a way is worth. */
  lemma EndIsFound(fs: FileSystem, root: Path, dest: Path, links: nat)
    requires ValidTree(fs) && Approachable(fs, dest) && !IsLink(fs, dest)
    requires dest !in fs.nodes ==> dest != [] && ProperName(dest[|dest| - 1])
    ensures var hit := Found(fs, root, WalkFrom(fs, Stop(dest, []), links));
            && (dest !in fs.nodes ==> hit == Missing)
            && (dest in fs.nodes && !(root <= dest) ==> hit == Outside)
            && (dest in fs.nodes && root <= dest ==>
                  match fs.nodes[dest]
                  case Regular(content, true) => hit == File(dest, content)
                  case Regular(_, false) => hit == Broken(PermissionDenied)
                  case Directory(_) => hit == Folder
                  case _ => hit == Other)
  {
    if dest !in fs.nodes {
      var name := dest[|dest| - 1];
      assert Parent(dest) + [name] == dest;
      assert [name] + [] == [name];
    }
  }

  /** Nothing is found beyond a file, a directory that may not be searched, or a missing name. */
  lemma BlockedIsFound(fs: FileSystem, root: Path, at: Path, rest: seq<ByteString>, links: nat)
    requires ValidTree(fs) && Approachable(fs, at) && !IsLink(fs, at) && rest != []
    requires at !in fs.nodes ==> at != [] && ProperName(at[|at| - 1])
    ensures var hit := Found(fs, root, WalkFrom(fs, Stop(at, rest), links));
            && (at !in fs.nodes ==> hit == Missing)
            && (at in fs.nodes && !fs.nodes[at].Directory? ==> hit == Broken(NotADirectory))
            && (at in fs.nodes && fs.nodes[at] == Directory(false) ==> hit == Broken(PermissionDenied))
  {
    if at !in fs.nodes {
      var name := at[|at| - 1];
      assert Parent(at) + [name] == at;
      assert ([name] + rest)[0] == name;
    }
  }

  lemma ResolvePlain(fs: FileSystem, root: Path, p: ByteString, pieces: seq<ByteString>)
    requires ValidTree(fs) && CanonicalRoot(fs, root)
    requires PlainPieces(pieces) && Encodes(p, [SLASH] + Join(pieces))
    ensures RealNode(fs, root)
    ensures Resolve(fs, root, p)
         == Serve(if ProbePieces(fs, root, pieces) == Folder then ProbePieces(fs, root, pieces + [INDEX])
                  else ProbePieces(fs, root, pieces))
  {
    ResolveTarget(fs, root, p, pieces);
    assert pieces[|pieces| - 1] in pieces;
    assert CandidatePieces(pieces) == [pieces, pieces + [INDEX]];
  }

  /** The end of a way is no link any more, and a missing one has a proper name. */
  ghost predicate ProperEnd(fs: FileSystem, dest: Path) {
    !IsLink(fs, dest) && (dest !in fs.nodes ==> dest != [] && ProperName(dest[|dest| - 1]))
  }

  /** How a file, other than through a directory's index, is answered where a way ends. */
  ghost predicate AnswersEnd(fs: FileSystem, root: Path, dest: Path, r: Result<ResolvedFile, ResolveError>) {
    && (dest !in fs.nodes ==> r == Failure(NotFound))
    && (dest in fs.nodes && !(root <= dest) ==> r == Failure(Escape))
    && (dest in fs.nodes && root <= dest && fs.nodes[dest].Special? ==> r == Failure(NotFound))
    && (dest in fs.nodes && root <= dest && fs.nodes[dest].Regular? ==>
          r == if fs.nodes[dest].readable
               then Success(ResolvedFile(dest, fs.nodes[dest].content, |fs.nodes[dest].content|))
               else Failure(Io(PermissionDenied)))
  }

  /**
   The answer for any path, through any links: its way ends at a place, and what lies there decides. What
   is missing is not found, what lies outside the root is refused, a file inside is served as itself, and
   for a directory inside its index decides (unless that is a link once more).
   */
  lemma LookupAlong(fs: FileSystem, root: Path, p: ByteString, pieces: seq<ByteString>, stops: seq<Stop>, dest: Path)
    requires ValidTree(fs) && CanonicalRoot(fs, root)
    requires PlainPieces(pieces) && Encodes(p, [SLASH] + Join(pieces))
    requires ShortWay(fs, root, pieces, stops) && stops[|stops| - 1] == Stop(dest, []) && ProperEnd(fs, dest)
    ensures AnswersEnd(fs, root, dest, Resolve(fs, root, p))
    ensures dest in fs.nodes && root <= dest && fs.nodes[dest] == Directory(false) ==>
              Resolve(fs, root, p) == Failure(Io(PermissionDenied))
    ensures dest in fs.nodes && root <= dest && fs.nodes[dest] == Directory(true) && !IsLink(fs, dest + [INDEX]) ==>
              && AnswersEnd(fs, root, dest + [INDEX], Resolve(fs, root, p))
              && (dest + [INDEX] in fs.nodes && fs.nodes[dest + [INDEX]].Directory? ==>
                    Resolve(fs, root, p) == Failure(NotFound))
  {
    hide Encodes, Resolve, ProbePieces, Way, Hops, WalkFrom, Found, PlainPieces;
    ResolvePlain(fs, root, p, pieces);
    ProbeAlong(fs, root, pieces, stops, []);
    ProbeAlong(fs, root, pieces, stops, [INDEX]);
    assert pieces + [] == pieces && stops[|stops| - 1].rest + [] == [];
    assert stops[|stops| - 1].rest + [INDEX] == [INDEX];
    var links := fs.maxLinks - Hops(fs, stops);
    EndIsFound(fs, root, dest, links);
    if dest in fs.nodes && root <= dest && fs.nodes[dest].Directory? {
      IndexIsFound(fs, root, dest, links);
    }
  }

  lemma IndexIsFound(fs: FileSystem, root: Path, dest: Path, links: nat)
    requires ValidTree(fs) && Approachable(fs, dest) && dest in fs.nodes && root <= dest && fs.nodes[dest].Directory?
    ensures var hit := Found(fs, root, WalkFrom(fs, Stop(dest, [INDEX]), links));
            && (fs.nodes[dest] == Directory(false) ==> hit == Broken(PermissionDenied))
            && (fs.nodes[dest] == Directory(true) && !IsLink(fs, dest + [INDEX]) ==>
                  if dest + [INDEX] !in fs.nodes then hit == Missing
                  else
                    match fs.nodes[dest + [INDEX]]
                    case Regular(content, true) => hit == File(dest + [INDEX], content)
                    case Regular(_, false) => hit == Broken(PermissionDenied)
                    case Directory(_) => hit == Folder
                    case _ => hit == Other)
  {
    BlockedIsFound(fs, root, dest, [INDEX], links);
    if fs.nodes[dest] == Directory(true) && !IsLink(fs, dest + [INDEX]) {
      ApproachedNode(fs, dest);
      var a, b := Stop(dest, [INDEX]), Stop(dest + [INDEX], []);
      assert [INDEX][1..] == [] && [INDEX] + [] == [INDEX];
      GoOn(fs, a, b, [], links);
      EndIsFound(fs, root, dest + [INDEX], links);
    }
  }

  /** A path with a final slash is answered by where the way of the index below it ends. */
  lemma SlashLookupAlong(
    fs: FileSystem, root: Path, q: ByteString, pieces: seq<ByteString>, stops: seq<Stop>, dest: Path)
    requires ValidTree(fs) && CanonicalRoot(fs, root)
    requires PlainPieces(pieces) && Encodes(q, [SLASH] + Join(pieces + [[]]))
    requires ShortWay(fs, root, pieces + [INDEX], stops)
    requires stops[|stops| - 1] == Stop(dest, []) && ProperEnd(fs, dest)
    ensures AnswersEnd(fs, root, dest, Resolve(fs, root, q))
    ensures dest in fs.nodes && root <= dest && fs.nodes[dest].Directory? ==>
              Resolve(fs, root, q) == Failure(NotFound)
  {
    hide Encodes, Resolve, ProbePieces, Way, Hops, WalkFrom, Found, PlainPieces, Approachable;
    ResolveSlash(fs, root, q, pieces);
    ProbeAlong(fs, root, pieces + [INDEX], stops, []);
    assert pieces + [INDEX] + [] == pieces + [INDEX] && stops[|stops| - 1].rest + [] == [];
    EndIsFound(fs, root, dest, fs.maxLinks - Hops(fs, stops));
  }

  lemma ResolveSlash(fs: FileSystem, root: Path, q: ByteString, pieces: seq<ByteString>)
    requires ValidTree(fs) && CanonicalRoot(fs, root)
    requires PlainPieces(pieces) && Encodes(q, [SLASH] + Join(pieces + [[]]))
    ensures RealNode(fs, root)
    ensures Resolve(fs, root, q) == Serve(ProbePieces(fs, root, pieces + [INDEX]))
  {
    var slashed := pieces + [[]];
    assert forall i :: 0 <= i < |pieces| ==> slashed[i] == pieces[i] && pieces[i] in pieces;
    assert Utf8.Valid([]);
    assert !EmptyBetween(slashed, 0);
    ResolveTarget(fs, root, q, slashed);
    assert slashed[..|pieces|] == pieces;
    assert CandidatePieces(slashed) == [pieces + [INDEX]];
  }

  /**
   A way that comes to a stop before all pieces are resolved: a missing name is not found, but a file or
   an unsearchable directory on the way is an I/O error, inside the root or outside.
   */
  lemma BlockedAlong(fs: FileSystem, root: Path, p: ByteString, pieces: seq<ByteString>, stops: seq<Stop>)
    requires ValidTree(fs) && CanonicalRoot(fs, root)
    requires PlainPieces(pieces) && Encodes(p, [SLASH] + Join(pieces))
    requires ShortWay(fs, root, pieces, stops) && stops[|stops| - 1].rest != []
    requires ProperEnd(fs, stops[|stops| - 1].path)
    ensures var at := stops[|stops| - 1].path;
            && (at !in fs.nodes ==> Resolve(fs, root, p) == Failure(NotFound))
            && (at in fs.nodes && !fs.nodes[at].Directory? ==> Resolve(fs, root, p) == Failure(Io(NotADirectory)))
            && (at in fs.nodes && fs.nodes[at] == Directory(false) ==>
                  Resolve(fs, root, p) == Failure(Io(PermissionDenied)))
  {
    hide Encodes, Resolve, ProbePieces, Way, Hops, WalkFrom, Found, PlainPieces;
    ResolvePlain(fs, root, p, pieces);
    ProbeAlong(fs, root, pieces, stops, []);
    var z := stops[|stops| - 1];
    assert pieces + [] == pieces && z.rest + [] == z.rest;
    BlockedIsFound(fs, root, z.path, z.rest, fs.maxLinks - Hops(fs, stops));
  }

  /** More links than may be followed, or a way into a loop of links, is an I/O error and not a missing file. */
  lemma TooManyLinksAlong(
    fs: FileSystem, root: Path, p: ByteString, pieces: seq<ByteString>, stops: seq<Stop>, loop: set<Path>)
    requires ValidTree(fs) && CanonicalRoot(fs, root)
    requires PlainPieces(pieces) && Encodes(p, [SLASH] + Join(pieces))
    requires Way(fs, stops) && stops[0] == Stop(root, pieces)
    requires Hops(fs, stops) > fs.maxLinks || (Loop(fs, loop) && stops[|stops| - 1].path in loop)
    ensures Resolve(fs, root, p) == Failure(Io(TooManyLinks))
  {
    hide Encodes, Resolve, ProbePieces, Way, Hops, WalkFrom, PlainPieces, Loop;
    ResolvePlain(fs, root, p, pieces);
    ProbeAlong(fs, root, pieces, stops, []);
    var z := stops[|stops| - 1];
    assert pieces + [] == pieces && z.rest + [] == z.rest;
    if Hops(fs, stops) <= fs.maxLinks {
      LoopsAreRefused(fs, loop, z.path, z.rest, fs.maxLinks - Hops(fs, stops));
    }
  }

  // ----- A link to a file -----

  /** The way down by names through searchable directories. */
  lemma {:induction false} WayDown(fs: FileSystem, at: Path, names: Path) returns (stops: seq<Stop>)
    requires Approachable(fs, at + names) && Approachable(fs, at)
    requires forall i :: 0 <= i < |names| ==> ProperName(names[i])
    ensures Way(fs, stops) && Stops(stops, Stop(at, names), Stop(at + names, []))
    ensures Hops(fs, stops) == 0
    decreases |names|
  {
    if names == [] {
      stops := [Stop(at, [])];
      assert at + names == at;
    } else {
      var child := at + [names[0]];
      assert child + names[1..] == at + names;
      AboveIsSearchable(fs, at, names);
      assert Parent(child) == at;
      var more := WayDown(fs, child, names[1..]);
      stops := [Stop(at, names)] + more;
      assert stops[1..] == more;
    }
  }

  ghost predicate Stops(stops: seq<Stop>, a: Stop, z: Stop) {
    stops != [] && stops[0] == a && stops[|stops| - 1] == z
  }

  lemma AboveIsSearchable(fs: FileSystem, at: Path, names: Path)
    requires Approachable(fs, at + names) && names != []
    ensures Reachable(fs, at) && fs.nodes[at] == Directory(true)
  {
    var front := Parent(at + names);
    assert front[..|at|] == at;
    assert forall i :: 0 <= i < |at| ==> at[..i] == front[..i];
    if |front| == |at| {
      assert front == at;
    }
  }

  lemma {:induction false} WayOn(fs: FileSystem, stops: seq<Stop>, dest: Path)
    requires Way(fs, stops) && Follows(fs, stops[|stops| - 1], Stop(dest, stops[|stops| - 1].rest))
    ensures Way(fs, stops + [Stop(dest, stops[|stops| - 1].rest)])
    ensures Hops(fs, stops + [Stop(dest, stops[|stops| - 1].rest)]) == Hops(fs, stops) + 1
    decreases |stops|
  {
    var z := Stop(dest, stops[|stops| - 1].rest);
    var longer := stops + [z];
    if |stops| == 1 {
      assert longer[1..] == [z];
    } else {
      WayOn(fs, stops[1..], dest);
      assert longer[1..] == stops[1..] + [z];
    }
  }

  /**
   A link is served as what it points to: for a link below the root whose target, relative or absolute,
   climbing or not, names a file that is servable inside the root, any encoding of the link's path
   resolves to that file; and if the target lies outside the root, to an escape.
   */
  lemma LinkIsServedAsItsTarget(fs: FileSystem, root: Path, names: Path, dest: Path, p: ByteString)
    requires ValidTree(fs) && CanonicalRoot(fs, root) && fs.maxLinks > 0
    requires names != [] && Utf8.AllValid(names) && Encodes(p, [SLASH] + Join(names))
    requires PointsTo(fs, root + names, dest) && dest in fs.nodes && fs.nodes[dest].Regular? && fs.nodes[dest].readable
    ensures var content := fs.nodes[dest].content;
            Resolve(fs, root, p)
            == if root <= dest then Success(ResolvedFile(dest, content, |content|)) else Failure(Escape)
  {
    var stops := LinkWay(fs, root, names, dest);
    hide PointsTo, Way, Hops, Encodes, Resolve, CanonicalRoot, PlainPieces;
    LookupAlong(fs, root, p, names, stops, dest);
  }

  /** A link that points to itself is refused as too many links; it is not missing. */
  lemma SelfLinkIsRefused(fs: FileSystem, root: Path, names: Path, p: ByteString)
    requires ValidTree(fs) && CanonicalRoot(fs, root)
    requires names != [] && Utf8.AllValid(names) && Encodes(p, [SLASH] + Join(names))
    requires PointsTo(fs, root + names, root + names)
    ensures Resolve(fs, root, p) == Failure(Io(TooManyLinks))
  {
    var stops := LinkWay(fs, root, names, root + names);
    var loop := {root + names};
    assert forall link :: link in loop ==> PointsInto(fs, link, loop) by {
      assert root + names in loop;
    }
    hide PointsTo, Way, Hops, Encodes, Resolve, CanonicalRoot, PlainPieces;
    TooManyLinksAlong(fs, root, p, names, stops, loop);
  }

  /** The way to a link below the root and on to where it points. */
  lemma LinkWay(fs: FileSystem, root: Path, names: Path, dest: Path) returns (stops: seq<Stop>)
    requires ValidTree(fs) && CanonicalRoot(fs, root)
    requires names != [] && Utf8.AllValid(names) && PointsTo(fs, root + names, dest)
    ensures PlainPieces(names)
    ensures Way(fs, stops) && Stops(stops, Stop(root, names), Stop(dest, [])) && Hops(fs, stops) == 1
  {
    NamesBelow(fs, root, names);
    RootIsApproachable(fs, root);
    var down := WayDown(fs, root, names);
    hide CanonicalRoot, ValidTree, Approachable;
    WayOn(fs, down, dest);
    stops := down + [Stop(dest, [])];
  }

  lemma NamesBelow(fs: FileSystem, root: Path, names: Path)
    requires ValidTree(fs) && names != [] && Utf8.AllValid(names) && root + names in fs.nodes
    ensures PlainPieces(names)
    ensures forall i :: 0 <= i < |names| ==> ProperName(names[i])
  {
    var link := root + names;
    NamesAreValid(fs, link);
    forall i | 0 <= i < |names| ensures ValidName(names[i]) {
      assert names[i] == link[|root| + i];
    }
  }

  lemma RootIsApproachable(fs: FileSystem, root: Path)
    requires ValidTree(fs) && CanonicalRoot(fs, root)
    ensures Approachable(fs, root)
  {
    RootIsReachable(fs, root);
    if root != [] {
      ReachableParent(fs, root);
      assert root[..|root| - 1] == Parent(root);
    }
  }

  // ----- An example -----

  const SITE: ByteString := [0x73]
  const PAGE: ByteString := [0x62]
  const ALIAS: ByteString := [0x61]
  const CIRCLE: ByteString := [0x63]

  /** A root `/s` with a page `b`, and beside it a link `a` to `b` and a link `c` to itself. */
  function ExampleTree(content: ByteString): FileSystem {
    FileSystem(
      map[[] := Directory(true), [SITE] := Directory(true),
          [SITE, PAGE] := Regular(content, true), [SITE, ALIAS] := Link(PAGE), [SITE, CIRCLE] := Link(CIRCLE)],
      1)
  }

  lemma ExampleIsValid(content: ByteString)
    ensures ValidTree(ExampleTree(content))
  {
    var fs := ExampleTree(content);
    assert fs.nodes.Keys == {[], [SITE], [SITE, PAGE], [SITE, ALIAS], [SITE, CIRCLE]};
    assert Parent([SITE, PAGE]) == Parent([SITE, ALIAS]) == Parent([SITE, CIRCLE]) == [SITE] && Parent([SITE]) == [];
  }

  lemma ExampleRoot(content: ByteString)
    requires ValidTree(ExampleTree(content))
    ensures Reachable(ExampleTree(content), [SITE]) && CanonicalRoot(ExampleTree(content), [SITE])
  {
    var fs := ExampleTree(content);
    assert [SITE][..0] == [];
    assert Reachable(fs, [SITE]);
    hide Canonicalize;
    CanonicalizeRendered(fs, [SITE]);
  }

  /** A link in the example whose text is the name of something beside it points to that. */
  lemma ExampleTarget(content: ByteString, name: ByteString, target: ByteString)
    requires Reachable(ExampleTree(content), [SITE])
    requires (name == ALIAS && target == PAGE) || (name == CIRCLE && target == CIRCLE)
    ensures PointsTo(ExampleTree(content), [SITE] + [name], [SITE] + [target])
  {
    var t := Target(false, 0, [target]);
    assert Ups(0) + [target] == [target];
    assert [SITE] + [name] == [SITE, name] && [SITE] + [target] == [SITE, target];
    assert Parent([SITE, name]) == [SITE] && Parent([SITE, target]) == [SITE];
    assert Above([SITE], 0) == [SITE];
    assert Place([SITE], t) == [SITE, target] && Written(t) == target && ProperTarget(t);
  }

  lemma ExampleRequest(name: ByteString)
    requires name == ALIAS || name == CIRCLE
    ensures Encodes([SLASH] + name, [SLASH] + Join([name]))
  {
    var units := [[SLASH], name];
    assert units[1..] == [name] && [name][1..] == [];
    assert Concat([name]) == name + Concat([]);
    assert SpellsAll(units, [SLASH] + Join([name]));
  }

  /** In the example, `/a` is served as the page that the link stands beside. */
  lemma ExampleLink(content: ByteString)
    ensures ValidTree(ExampleTree(content))
    ensures Resolve(ExampleTree(content), [SITE], [SLASH] + ALIAS)
         == Success(ResolvedFile([SITE, PAGE], content, |content|))
  {
    ExampleIsValid(content);
    ExampleRoot(content);
    ExampleTarget(content, ALIAS, PAGE);
    ExampleRequest(ALIAS);
    AsciiIsValid(ALIAS);
    var fs := ExampleTree(content);
    assert [SITE] + [PAGE] == [SITE, PAGE] && fs.nodes[[SITE, PAGE]] == Regular(content, true) && fs.maxLinks == 1;
    hide ExampleTree, PointsTo, Encodes, CanonicalRoot, Resolve;
    LinkIsServedAsItsTarget(fs, [SITE], [ALIAS], [SITE, PAGE], [SLASH] + ALIAS);
  }

  /** In the example, `/c` is an I/O error. */
  lemma ExampleCircle(content: ByteString)
    ensures ValidTree(ExampleTree(content))
    ensures Resolve(ExampleTree(content), [SITE], [SLASH] + CIRCLE) == Failure(Io(TooManyLinks))
  {
    ExampleIsValid(content);
    ExampleRoot(content);
    ExampleTarget(content, CIRCLE, CIRCLE);
    ExampleRequest(CIRCLE);
    AsciiIsValid(CIRCLE);
    var fs := ExampleTree(content);
    hide ExampleTree, PointsTo, Encodes, CanonicalRoot, Resolve;
    SelfLinkIsRefused(fs, [SITE], [CIRCLE], [SLASH] + CIRCLE);
  }
}
