/**
 Where links lead. The way of a path through the tree is described stop by stop: from a searchable
 directory to what its next piece names, and from a link to the place that its target writes. A walk
 is then proved to end where such a way ends, and to spend one link for each link on it.
 */
module Links {
  import opened ByteStrings
  import opened Errors
  import opened FileTree
  import opened RequestTarget

  // ----- Targets -----

  /** A link's target: from the root or from the link's own directory, some steps up, and then down by names. */
  datatype Target = Target(absolute: bool, ups: nat, names: Path)

  function Ups(k: nat): seq<ByteString> {
    if k == 0 then [] else [PARENT] + Ups(k - 1)
  }

  /** The text of a target, such as `../img/logo.png` or `/srv/www`. */
  function Written(t: Target): ByteString
    requires t.ups + |t.names| > 0
  {
    UpsLength(t.ups);
    (if t.absolute then [SLASH] else []) + Join(Ups(t.ups) + t.names)
  }

  lemma {:induction false} UpsLength(k: nat)
    ensures |Ups(k)| == k && forall i :: 0 <= i < k ==> Ups(k)[i] == PARENT
  {
    if k > 0 {
      UpsLength(k - 1);
    }
  }

  ghost predicate ProperName(name: ByteString) {
    name != [] && name != CURRENT && name != PARENT && SlashFree(name)
  }

  ghost predicate ProperTarget(t: Target) {
    t.ups + |t.names| > 0 && forall i :: 0 <= i < |t.names| ==> ProperName(t.names[i])
  }

  /** The directory `k` levels up; the root's parent is the root. */
  function Above(at: Path, k: nat): Path {
    if k >= |at| then [] else at[..|at| - k]
  }

  /** The place that a target names when it is read in the directory `at`. */
  function Place(at: Path, t: Target): Path {
    Above(if t.absolute then [] else at, t.ups) + t.names
  }

  /** Nothing but searchable directories is above the path, whatever it is itself. */
  ghost predicate Approachable(fs: FileSystem, p: Path) {
    Reachable(fs, Parent(p)) && fs.nodes[Parent(p)] == Directory(true)
  }

  /** `link` is a symbolic link whose text names the place `dest`, which may itself be a link or be missing. */
  ghost predicate PointsTo(fs: FileSystem, link: Path, dest: Path) {
    && link != []
    && link in fs.nodes
    && fs.nodes[link].Link?
    && Approachable(fs, link)
    && Approachable(fs, dest)
    && exists t :: ProperTarget(t) && fs.nodes[link].target == Written(t) && dest == Place(Parent(link), t)
  }

  // ----- Stops -----

  /** A place on the way, and the pieces that are left to resolve from it. */
  datatype Stop = Stop(path: Path, rest: seq<ByteString>)

  /** What a piece names in a directory. */
  function Beside(at: Path, piece: ByteString): Path {
    if piece == [] || piece == CURRENT then at
    else if piece == PARENT then Parent(at)
    else at + [piece]
  }

  /** From a searchable directory to what the next piece names there. */
  ghost predicate Goes(fs: FileSystem, a: Stop, b: Stop) {
    && Reachable(fs, a.path)
    && fs.nodes[a.path] == Directory(true)
    && a.rest != []
    && b == Stop(Beside(a.path, a.rest[0]), a.rest[1..])
  }

  /** From a link to the place that its target names. */
  ghost predicate Follows(fs: FileSystem, a: Stop, b: Stop) {
    PointsTo(fs, a.path, b.path) && b.rest == a.rest
  }

  ghost predicate Way(fs: FileSystem, stops: seq<Stop>) {
    && stops != []
    && Approachable(fs, stops[0].path)
    && (|stops| > 1 ==>
          (Goes(fs, stops[0], stops[1]) || Follows(fs, stops[0], stops[1])) && Way(fs, stops[1..]))
  }

  predicate IsLink(fs: FileSystem, p: Path) {
    p in fs.nodes && fs.nodes[p].Link?
  }

  /** The links on a way, its last stop left out. */
  function Hops(fs: FileSystem, stops: seq<Stop>): nat
    requires stops != []
  {
    if |stops| == 1 then 0 else (if IsLink(fs, stops[0].path) then 1 else 0) + Hops(fs, stops[1..])
  }

  /** The walk that is left at a stop: from the node itself, or through it if it is a link or missing. */
  function WalkFrom(fs: FileSystem, s: Stop, links: nat): Result<Reached, WalkError>
    requires ValidTree(fs)
    requires s.path !in fs.nodes || IsLink(fs, s.path) ==> s.path != [] && RealNode(fs, Parent(s.path))
  {
    if s.path in fs.nodes && !fs.nodes[s.path].Link? then Walk(fs, s.path, s.rest, links)
    else Walk(fs, Parent(s.path), [s.path[|s.path| - 1]] + s.rest, links)
  }

  lemma ApproachedNode(fs: FileSystem, p: Path)
    requires ValidTree(fs) && Approachable(fs, p)
    ensures p == [] ==> RealNode(fs, p)
    ensures RealNode(fs, p) ==> Reachable(fs, p)
  {
    if p != [] && RealNode(fs, p) {
      assert Parent(p) + [p[|p| - 1]] == p;
      ReachableChild(fs, Parent(p), p[|p| - 1]);
    }
  }

  // ----- Following one link -----

  lemma AboveParent(at: Path, k: nat)
    ensures Above(at, 0) == at
    ensures k > 0 ==> Above(Parent(at), k - 1) == Above(at, k)
  {
    assert at[..|at|] == at;
  }

  /** One step up leads to the parent, which is a searchable directory too. */
  lemma WalkUp(fs: FileSystem, at: Path, rest: seq<ByteString>, links: nat)
    requires ValidTree(fs) && Reachable(fs, at) && fs.nodes[at] == Directory(true)
    ensures Reachable(fs, Parent(at)) && fs.nodes[Parent(at)] == Directory(true)
    ensures Walk(fs, at, [PARENT] + rest, links) == Walk(fs, Parent(at), rest, links)
  {
    ReachableParent(fs, at);
    if at != [] {
      assert at[..|at| - 1] == Parent(at);
    }
    assert ([PARENT] + rest)[1..] == rest;
  }

  lemma {:induction false} WalkUps(fs: FileSystem, at: Path, k: nat, rest: seq<ByteString>, links: nat)
    requires ValidTree(fs) && Reachable(fs, at) && fs.nodes[at] == Directory(true)
    ensures Reachable(fs, Above(at, k)) && fs.nodes[Above(at, k)] == Directory(true)
    ensures Walk(fs, at, Ups(k) + rest, links) == Walk(fs, Above(at, k), rest, links)
    decreases k
  {
    hide Walk, Reachable, ValidTree, Above, Parent;
    AboveParent(at, k);
    if k == 0 {
      assert Ups(0) + rest == rest;
    } else {
      WalkUp(fs, at, Ups(k - 1) + rest, links);
      WalkUps(fs, Parent(at), k - 1, rest, links);
      assert Ups(k) + rest == [PARENT] + (Ups(k - 1) + rest);
    }
  }

  /** Walking down by names, from above the place to the place itself. */
  lemma WalkDown(fs: FileSystem, at: Path, names: Path, rest: seq<ByteString>, links: nat)
    requires ValidTree(fs) && Reachable(fs, at) && Approachable(fs, at + names)
    requires forall i :: 0 <= i < |names| ==> ProperName(names[i])
    ensures at + names == [] ==> RealNode(fs, at + names)
    ensures Walk(fs, at, names + rest, links) == WalkFrom(fs, Stop(at + names, rest), links)
  {
    var dest := at + names;
    ApproachedNode(fs, dest);
    if names == [] {
      assert dest == at && names + rest == rest;
    } else {
      var front, last := names[..|names| - 1], names[|names| - 1];
      assert Parent(dest) == at + front;
      assert (at + front)[..|at|] == at && (at + front)[|at|..] == front;
      WalkNames(fs, at + front, |at|, links);
      assert names + rest == front + ([last] + rest);
      WalkAppend(fs, at, front, [last] + rest, links);
      assert Parent(dest) + [last] == dest;
      assert ([last] + rest)[1..] == rest;
    }
  }

  lemma {:induction false} UpsAreSlashFree(k: nat, names: Path)
    requires forall i :: 0 <= i < |names| ==> ProperName(names[i])
    ensures AllSlashFree(Ups(k) + names)
    ensures |Ups(k)| == k
    ensures k + |names| > 0 ==> (Ups(k) + names)[0] != [] && SlashFree((Ups(k) + names)[0])
  {
    UpsLength(k);
  }

  /** The pieces of a written target. */
  lemma SplitWritten(t: Target)
    requires ProperTarget(t)
    ensures Written(t) != [] && (StartsWithSlash(Written(t)) <==> t.absolute)
    ensures Split(Written(t)) == (if t.absolute then [[]] else []) + (Ups(t.ups) + t.names)
  {
    UpsAreSlashFree(t.ups, t.names);
    var pieces := Ups(t.ups) + t.names;
    SplitJoin(pieces);
    assert pieces[0][0] == Join(pieces)[0];
    if t.absolute {
      assert Written(t)[1..] == Join(pieces);
    } else {
      assert Written(t) == Join(pieces);
      assert [] + pieces == pieces;
    }
  }

  lemma WalkTarget(fs: FileSystem, at: Path, t: Target, rest: seq<ByteString>, links: nat)
    requires ValidTree(fs) && Reachable(fs, at) && fs.nodes[at] == Directory(true)
    requires Reachable(fs, []) && fs.nodes[[]] == Directory(true)
    requires ProperTarget(t) && Approachable(fs, Place(at, t))
    ensures Place(at, t) == [] ==> RealNode(fs, Place(at, t))
    ensures Walk(fs, if t.absolute then [] else at, Split(Written(t)) + rest, links)
         == WalkFrom(fs, Stop(Place(at, t), rest), links)
  {
    var origin: Path := if t.absolute then [] else at;
    var pieces := Ups(t.ups) + t.names;
    hide Walk, Written, Split, Above, WalkFrom, Approachable, ProperName;
    SplitWritten(t);
    WalkUps(fs, origin, t.ups, t.names + rest, links);
    WalkDown(fs, Above(origin, t.ups), t.names, rest, links);
    assert pieces + rest == Ups(t.ups) + (t.names + rest);
    if t.absolute {
      WalkSlash(fs, pieces + rest, links);
      assert [[]] + pieces + rest == [[]] + (pieces + rest);
    } else {
      assert [] + pieces == pieces;
    }
  }

  /** The empty piece before a leading slash stays at the root. */
  lemma WalkSlash(fs: FileSystem, rest: seq<ByteString>, links: nat)
    requires ValidTree(fs) && fs.nodes[[]] == Directory(true)
    ensures Walk(fs, [], [[]] + rest, links) == Walk(fs, [], rest, links)
  {
    assert ([[]] + rest)[1..] == rest;
  }

  lemma RootIsSearchable(fs: FileSystem, p: Path)
    requires Reachable(fs, p) && fs.nodes[p] == Directory(true)
    ensures [] in fs.nodes && fs.nodes[[]] == Directory(true)
  {
    assert p != [] ==> p[..0] == [];
  }

  /** Reading a link puts its target in the place of its name. */
  lemma ReadLink(fs: FileSystem, link: Path, t: Target, rest: seq<ByteString>, links: nat)
    requires ValidTree(fs) && link != [] && IsLink(fs, link) && Approachable(fs, link)
    requires ProperTarget(t) && fs.nodes[link].target == Written(t)
    ensures Reachable(fs, []) && fs.nodes[[]] == Directory(true)
    ensures WalkFrom(fs, Stop(link, rest), links)
         == if links == 0 then Failure(Refused(TooManyLinks))
            else Walk(fs, if t.absolute then [] else Parent(link), Split(Written(t)) + rest, links - 1)
  {
    var at, name := Parent(link), link[|link| - 1];
    RootIsSearchable(fs, at);
    SplitWritten(t);
    assert at + [name] == link && ValidName(name);
    assert ([name] + rest)[0] == name && ([name] + rest)[1..] == rest;
    hide Split, Written, Reachable;
  }

  /** A link leads to the place that its target names, with one link less to spend; with none left it fails. */
  lemma FollowLink(fs: FileSystem, link: Path, dest: Path, rest: seq<ByteString>, links: nat)
    requires ValidTree(fs) && PointsTo(fs, link, dest)
    ensures IsLink(fs, link) && Approachable(fs, dest)
    ensures dest == [] ==> RealNode(fs, dest)
    ensures WalkFrom(fs, Stop(link, rest), links)
         == if links == 0 then Failure(Refused(TooManyLinks)) else WalkFrom(fs, Stop(dest, rest), links - 1)
  {
    var t :| ProperTarget(t) && fs.nodes[link].target == Written(t) && dest == Place(Parent(link), t);
    hide Written, ProperTarget, Place, Reachable, ValidTree, Walk;
    ApproachedNode(fs, dest);
    ReadLink(fs, link, t, rest, links);
    if links > 0 {
      WalkTarget(fs, Parent(link), t, rest, links - 1);
    }
  }

  // ----- Whole ways -----

  lemma GoOn(fs: FileSystem, a: Stop, b: Stop, tail: seq<ByteString>, links: nat)
    requires ValidTree(fs) && Goes(fs, a, b)
    ensures !IsLink(fs, a.path) && Approachable(fs, b.path)
    ensures b.path == [] ==> RealNode(fs, b.path)
    ensures WalkFrom(fs, Stop(a.path, a.rest + tail), links) == WalkFrom(fs, Stop(b.path, b.rest + tail), links)
  {
    var pieces := a.rest + tail;
    assert pieces[0] == a.rest[0] && pieces[1..] == b.rest + tail;
    WalkUp(fs, a.path, b.rest + tail, links);
    if a.rest[0] == PARENT {
      WalkUp(fs, Parent(a.path), [], links);
    } else if a.rest[0] != [] && a.rest[0] != CURRENT {
      assert Parent(b.path) == a.path;
      assert pieces == [a.rest[0]] + (b.rest + tail);
    }
  }

  /**
   A walk ends where its way ends, and spends one link for each link on the way; a way with more links
   than there are to spend fails as too many links. This holds for whatever is left to resolve behind.
   */
  lemma {:induction false} WalkAlong(fs: FileSystem, stops: seq<Stop>, tail: seq<ByteString>, links: nat)
    requires ValidTree(fs) && Way(fs, stops)
    ensures var a, z := stops[0], stops[|stops| - 1];
            && Approachable(fs, a.path)
            && Approachable(fs, z.path)
            && (a.path == [] ==> RealNode(fs, a.path))
            && (z.path == [] ==> RealNode(fs, z.path))
            && WalkFrom(fs, Stop(a.path, a.rest + tail), links)
               == if Hops(fs, stops) <= links
                  then WalkFrom(fs, Stop(z.path, z.rest + tail), links - Hops(fs, stops))
                  else Failure(Refused(TooManyLinks))
    decreases |stops|
  {
    hide WalkFrom, Goes, PointsTo, ValidTree, Reachable;
    ApproachedNode(fs, stops[0].path);
    if |stops| > 1 {
      var a, b := stops[0], stops[1];
      var more := stops[1..];
      if Goes(fs, a, b) {
        GoOn(fs, a, b, tail, links);
        WalkAlong(fs, more, tail, links);
      } else {
        FollowLink(fs, a.path, b.path, a.rest + tail, links);
        if links > 0 {
          WalkAlong(fs, more, tail, links - 1);
        } else {
          WalkAlong(fs, more, tail, 0);
        }
      }
    }
  }

  // ----- Loops -----

  /** Each of these links points to another of them, or to itself. */
  ghost predicate Loop(fs: FileSystem, loop: set<Path>) {
    forall link {:trigger PointsInto(fs, link, loop)} :: link in loop ==> PointsInto(fs, link, loop)
  }

  ghost predicate PointsInto(fs: FileSystem, link: Path, loop: set<Path>) {
    exists next :: next in loop && PointsTo(fs, link, next)
  }

  lemma NextInLoop(fs: FileSystem, loop: set<Path>, link: Path) returns (next: Path)
    requires Loop(fs, loop) && link in loop
    ensures next in loop && PointsTo(fs, link, next)
    ensures link != [] && Approachable(fs, link) && RealNode(fs, Parent(link))
  {
    assert PointsInto(fs, link, loop);
    next :| next in loop && PointsTo(fs, link, next);
  }

  /** A loop of links is refused as too many links, however many may be followed. */
  lemma {:induction false} LoopsAreRefused(
    fs: FileSystem, loop: set<Path>, link: Path, rest: seq<ByteString>, links: nat)
    requires ValidTree(fs) && Loop(fs, loop) && link in loop
    ensures link != [] && Approachable(fs, link) && RealNode(fs, Parent(link))
    ensures WalkFrom(fs, Stop(link, rest), links) == Failure(Refused(TooManyLinks))
    decreases links
  {
    hide WalkFrom, Loop, PointsTo, ValidTree, Approachable;
    var next := NextInLoop(fs, loop, link);
    FollowLink(fs, link, next, rest, links);
    if links > 0 {
      LoopsAreRefused(fs, loop, next, rest, links - 1);
    }
  }
}
