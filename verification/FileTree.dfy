/**
 A fixed file tree with symbolic links, and path resolution over it as in section 4.13 of the Base
 Definitions of IEEE Std 1003.1-2017. A node is named by its components from the root of the tree.
 */
module FileTree {
  import opened ByteStrings
  import opened Errors
  import opened RequestTarget

  type Path = seq<ByteString>

  datatype Node =
    | Directory(searchable: bool)
    | Regular(content: ByteString, readable: bool)
    | Special
    | Link(target: ByteString)

  datatype FileSystem = FileSystem(nodes: map<Path, Node>, maxLinks: nat)

  ghost predicate ValidName(name: ByteString) {
    name != [] && name != CURRENT && name != PARENT && SlashFree(name) && NUL !in name
  }

  function Parent(p: Path): Path {
    if p == [] then [] else p[..|p| - 1]
  }

  /** The root is a directory, and every other node has a proper name in a directory. */
  ghost predicate ValidTree(fs: FileSystem) {
    && [] in fs.nodes && fs.nodes[[]].Directory?
    && forall p {:trigger Parent(p)} :: p in fs.nodes && p != [] ==>
         Parent(p) in fs.nodes && fs.nodes[Parent(p)].Directory? && ValidName(p[|p| - 1])
  }

  ghost predicate RealNode(fs: FileSystem, p: Path) {
    p in fs.nodes && !fs.nodes[p].Link?
  }

  datatype WalkError = Absent | Refused(cause: IoCause)

  /** Where a walk ends, and how many more links it could have followed. */
  datatype Reached = Reached(path: Path, links: nat)

  /**
   Resolves the pieces `todo` from the node `at`. Every piece needs `at` to be a searchable directory,
   the empty piece of a doubled or final slash included. A link is replaced by the pieces of its target.
   */
  function Walk(fs: FileSystem, at: Path, todo: seq<ByteString>, links: nat): (r: Result<Reached, WalkError>)
    requires ValidTree(fs) && RealNode(fs, at)
    ensures r.Success? ==> RealNode(fs, r.value.path) && r.value.links <= links
    decreases links, |todo|
  {
    if todo == [] then Success(Reached(at, links))
    else if !fs.nodes[at].Directory? then Failure(Refused(NotADirectory))
    else if !fs.nodes[at].searchable then Failure(Refused(PermissionDenied))
    else if todo[0] == [] || todo[0] == CURRENT then Walk(fs, at, todo[1..], links)
    else if todo[0] == PARENT then Walk(fs, Parent(at), todo[1..], links)
    else
      var child := at + [todo[0]];
      if child !in fs.nodes then Failure(Absent)
      else
        match fs.nodes[child]
        case Link(target) =>
          if links == 0 then Failure(Refused(TooManyLinks))
          else if target == [] then Failure(Absent)
          else Walk(fs, if StartsWithSlash(target) then [] else at, Split(target) + todo[1..], links - 1)
        case _ => Walk(fs, child, todo[1..], links)
  }

  /** The canonical path of an absolute path. */
  function Canonicalize(fs: FileSystem, path: ByteString): (r: Result<Path, WalkError>)
    requires ValidTree(fs) && StartsWithSlash(path)
    ensures r.Success? ==> RealNode(fs, r.value)
  {
    match Walk(fs, [], Split(path), fs.maxLinks)
    case Success(reached) => Success(reached.path)
    case Failure(e) => Failure(e)
  }

  /** The node an absolute path names once links are followed. */
  function Metadata(fs: FileSystem, path: ByteString): Result<Node, WalkError>
    requires ValidTree(fs) && StartsWithSlash(path)
  {
    match Canonicalize(fs, path)
    case Success(p) => Success(fs.nodes[p])
    case Failure(e) => Failure(e)
  }

  /** A canonical path as text. */
  function Render(p: Path): (text: ByteString)
    ensures StartsWithSlash(text)
  {
    if p == [] then [SLASH] else [SLASH] + Join(p)
  }

  // ----- Walks compose -----

  lemma {:induction false} WalkAppend(fs: FileSystem, at: Path, a: seq<ByteString>, b: seq<ByteString>, links: nat)
    requires ValidTree(fs) && RealNode(fs, at)
    ensures Walk(fs, at, a + b, links)
         == match Walk(fs, at, a, links) {
              case Failure(e) => Failure(e)
              case Success(reached) => Walk(fs, reached.path, b, reached.links)
            }
    decreases links, |a|
  {
    var whole := a + b;
    if a == [] {
      assert whole == b;
    } else {
      assert whole[0] == a[0];
      assert whole[1..] == a[1..] + b;
      if fs.nodes[at].Directory? && fs.nodes[at].searchable {
        if a[0] == [] || a[0] == CURRENT {
          WalkAppend(fs, at, a[1..], b, links);
        } else if a[0] == PARENT {
          WalkAppend(fs, Parent(at), a[1..], b, links);
        } else {
          var child := at + [a[0]];
          if child in fs.nodes {
            match fs.nodes[child]
            case Link(target) =>
              if links > 0 && target != [] {
                assert Split(target) + whole[1..] == Split(target) + a[1..] + b;
                WalkAppend(fs, if StartsWithSlash(target) then [] else at, Split(target) + a[1..], b, links - 1);
              }
            case _ =>
              WalkAppend(fs, child, a[1..], b, links);
          }
        }
      }
    }
  }

  // ----- Real paths -----

  /** The node is no link, and every node above it is a searchable directory. */
  ghost predicate Reachable(fs: FileSystem, p: Path) {
    && RealNode(fs, p)
    && forall i :: 0 <= i < |p| ==> p[..i] in fs.nodes && fs.nodes[p[..i]] == Directory(true)
  }

  lemma ReachableParent(fs: FileSystem, p: Path)
    requires ValidTree(fs) && Reachable(fs, p)
    ensures Reachable(fs, Parent(p))
  {
    if p != [] {
      assert forall i :: 0 <= i < |p| - 1 ==> Parent(p)[..i] == p[..i];
    }
  }

  lemma ReachableChild(fs: FileSystem, at: Path, name: ByteString)
    requires Reachable(fs, at) && fs.nodes[at] == Directory(true) && RealNode(fs, at + [name])
    ensures Reachable(fs, at + [name])
  {
    assert forall i :: 0 <= i < |at| ==> (at + [name])[..i] == at[..i];
    assert (at + [name])[..|at|] == at;
  }

  /** A walk that starts from a reachable node ends on one, whatever links it follows. */
  lemma {:induction false} WalkEndsReachable(fs: FileSystem, at: Path, todo: seq<ByteString>, links: nat)
    requires ValidTree(fs) && Reachable(fs, at)
    ensures Walk(fs, at, todo, links).Success? ==> Reachable(fs, Walk(fs, at, todo, links).value.path)
    decreases links, |todo|
  {
    if todo != [] && fs.nodes[at] == Directory(true) {
      if todo[0] == [] || todo[0] == CURRENT {
        WalkEndsReachable(fs, at, todo[1..], links);
      } else if todo[0] == PARENT {
        ReachableParent(fs, at);
        WalkEndsReachable(fs, Parent(at), todo[1..], links);
      } else {
        var child := at + [todo[0]];
        if child in fs.nodes {
          match fs.nodes[child]
          case Link(target) =>
            if links > 0 && target != [] {
              WalkEndsReachable(fs, if StartsWithSlash(target) then [] else at, Split(target) + todo[1..], links - 1);
            }
          case _ =>
            ReachableChild(fs, at, todo[0]);
            WalkEndsReachable(fs, child, todo[1..], links);
        }
      }
    }
  }

  /** Walking the names of a reachable node leads straight to it and spends no link. */
  lemma {:induction false} WalkNames(fs: FileSystem, p: Path, from: nat, links: nat)
    requires ValidTree(fs) && Reachable(fs, p) && from <= |p| && RealNode(fs, p[..from])
    ensures Walk(fs, p[..from], p[from..], links) == Success(Reached(p, links))
    decreases |p| - from
  {
    if from == |p| {
      assert p[..from] == p;
    } else {
      var child := p[..from] + [p[from]];
      assert child == p[..from + 1];
      assert child in fs.nodes && !fs.nodes[child].Link? by {
        if from + 1 == |p| {
          assert child == p;
        }
      }
      assert Parent(child) == p[..from] && ValidName(child[|child| - 1]);
      assert p[from..][1..] == p[from + 1..];
      WalkNames(fs, p, from + 1, links);
    }
  }

  lemma {:induction false} NamesAreValid(fs: FileSystem, p: Path)
    requires ValidTree(fs) && p in fs.nodes
    ensures forall i :: 0 <= i < |p| ==> ValidName(p[i])
  {
    if p != [] {
      NamesAreValid(fs, Parent(p));
      assert forall i :: 0 <= i < |p| - 1 ==> p[i] == Parent(p)[i];
    }
  }

  /** Joining a relative path to a rendered one and splitting gives the pieces of both, in order. */
  lemma SplitRendered(fs: FileSystem, root: Path, relative: ByteString)
    requires ValidTree(fs) && root in fs.nodes && !StartsWithSlash(relative)
    ensures StartsWithSlash(PathJoin(Render(root), relative))
    ensures Split(PathJoin(Render(root), relative)) == [[]] + root + Split(relative)
    ensures Split(Render(root)) == if root == [] then [[], []] else [[]] + root
  {
    NamesAreValid(fs, root);
    var text := Render(root);
    if root == [] {
      assert PathJoin(text, relative)[1..] == relative;
      assert [[]] + root == [[]];
    } else {
      SplitJoin(root);
      assert text[1..] == Join(root);
      EndOfJoin(root);
      SplitConcat(text, relative);
    }
  }

  lemma EndOfJoin(p: Path)
    requires p != [] && AllSlashFree(p) && p[|p| - 1] != []
    ensures Join(p) != [] && !EndsWithSlash([SLASH] + Join(p))
  {
    SplitJoin(p);
    LastPiece(Join(p));
  }

  lemma WalkFromRoot(fs: FileSystem, root: Path, rest: seq<ByteString>, links: nat)
    requires ValidTree(fs) && Reachable(fs, root)
    requires fs.nodes[[]] == Directory(true)
    ensures Walk(fs, [], [[]] + root + rest, links) == Walk(fs, root, rest, links)
  {
    assert [[]] + root + rest == [[]] + (root + rest);
    assert ([[]] + (root + rest))[1..] == root + rest;
    WalkAppend(fs, [], root, rest, links);
    WalkNames(fs, root, 0, links);
    assert root[..0] == [] && root[0..] == root;
  }

  // ----- Canonical paths -----

  lemma RootSearched(fs: FileSystem, path: ByteString)
    requires ValidTree(fs) && StartsWithSlash(path) && Canonicalize(fs, path).Success?
    ensures fs.nodes[[]] == Directory(true)
  {
    assert Split(path)[0] == [];
  }

  /**
   A canonical path names a node that is no link, below searchable directories only, and
   canonicalizing it again gives the same path.
   */
  lemma CanonicalizeTwice(fs: FileSystem, path: ByteString)
    requires ValidTree(fs) && StartsWithSlash(path) && Canonicalize(fs, path).Success?
    ensures var p := Canonicalize(fs, path).value;
            Reachable(fs, p) && Canonicalize(fs, Render(p)) == Success(p)
  {
    RootSearched(fs, path);
    WalkEndsReachable(fs, [], Split(path), fs.maxLinks);
    CanonicalizeRendered(fs, Canonicalize(fs, path).value);
  }

  lemma CanonicalizeRendered(fs: FileSystem, p: Path)
    requires ValidTree(fs) && Reachable(fs, p) && fs.nodes[[]] == Directory(true)
    ensures Canonicalize(fs, Render(p)) == Success(p)
    ensures Metadata(fs, Render(p)) == Success(fs.nodes[p])
  {
    SplitRendered(fs, p, []);
    WalkFromRoot(fs, p, [], fs.maxLinks);
    if p == [] {
      var pieces: seq<ByteString> := [[], []];
      assert pieces[1..] == [[]];
    } else {
      assert [[]] + p + [] == [[]] + p;
    }
  }

  ghost predicate NoLinks(fs: FileSystem) {
    forall p :: p in fs.nodes ==> !fs.nodes[p].Link?
  }

  /** The pieces that name something: neither empty nor `.`. */
  function Named(pieces: seq<ByteString>): seq<ByteString> {
    if pieces == [] then []
    else if pieces[0] == [] || pieces[0] == CURRENT then Named(pieces[1..])
    else [pieces[0]] + Named(pieces[1..])
  }

  /** What the first step of a successful walk does in a tree without links. */
  lemma StepWithoutLinks(fs: FileSystem, at: Path, todo: seq<ByteString>, links: nat)
    requires ValidTree(fs) && RealNode(fs, at) && NoLinks(fs) && todo != [] && todo[0] != PARENT
    requires Walk(fs, at, todo, links).Success?
    ensures todo[0] == [] || todo[0] == CURRENT ==>
              Walk(fs, at, todo, links) == Walk(fs, at, todo[1..], links)
    ensures todo[0] != [] && todo[0] != CURRENT ==>
              RealNode(fs, at + [todo[0]]) && Walk(fs, at, todo, links) == Walk(fs, at + [todo[0]], todo[1..], links)
  {
  }

  /** Without links, a walk over pieces that hold no `..` only ever goes down, one level a name. */
  lemma {:induction false} WalkWithoutLinks(fs: FileSystem, at: Path, todo: seq<ByteString>, links: nat)
    requires ValidTree(fs) && RealNode(fs, at) && NoLinks(fs) && PARENT !in todo
    requires Walk(fs, at, todo, links).Success?
    ensures Walk(fs, at, todo, links).value.path == at + Named(todo)
    decreases |todo|
  {
    if todo != [] {
      var rest := todo[1..];
      StepWithoutLinks(fs, at, todo, links);
      if todo[0] == [] || todo[0] == CURRENT {
        WalkWithoutLinks(fs, at, rest, links);
      } else {
        WalkWithoutLinks(fs, at + [todo[0]], rest, links);
        assert at + [todo[0]] + Named(rest) == at + ([todo[0]] + Named(rest));
      }
    }
  }
}
