/** Resolution of a request path to a regular file inside the content root. */
module Lookup {
  import opened ByteStrings
  import opened Errors
  import opened RequestTarget
  import opened FileTree

  /** A file ready to be served: its canonical path, what its open handle reads, and its length. */
  datatype ResolvedFile = ResolvedFile(canonicalPath: Path, content: ByteString, contentLength: nat)

  // ----- The content root -----

  datatype StartupError = ContentRootNotDirectory | ContentRootCanonicalize

  /** The startup check that yields the canonical content root, or none when it is missing or unavailable. */
  function PrepareContentRoot(fs: FileSystem, configured: ByteString): Result<Option<Path>, StartupError>
    requires ValidTree(fs) && StartsWithSlash(configured)
  {
    match Metadata(fs, configured)
    case Failure(_) => Success(None)
    case Success(node) =>
      if !node.Directory? then Failure(ContentRootNotDirectory)
      else
        match Canonicalize(fs, configured)
        case Failure(_) => Failure(ContentRootCanonicalize)
        case Success(root) => Success(Some(root))
  }

  ghost predicate CanonicalRoot(fs: FileSystem, root: Path)
    requires ValidTree(fs)
  {
    root in fs.nodes && fs.nodes[root].Directory? && Canonicalize(fs, Render(root)) == Success(root)
  }

  /**
   Startup hands out the canonical path of a directory, complains about anything else that is there, and
   goes on without a root when nothing can be inspected; its two reads of the tree never disagree.
   */
  lemma PreparedRootIsCanonical(fs: FileSystem, configured: ByteString)
    requires ValidTree(fs) && StartsWithSlash(configured)
    ensures PrepareContentRoot(fs, configured) != Failure(ContentRootCanonicalize)
    ensures PrepareContentRoot(fs, configured).Success? && PrepareContentRoot(fs, configured).value.Some?
        ==> CanonicalRoot(fs, PrepareContentRoot(fs, configured).value.value)
    ensures var prepared, node := PrepareContentRoot(fs, configured), Metadata(fs, configured);
            && (prepared == Success(None) <==> node.Failure?)
            && (prepared == Failure(ContentRootNotDirectory) <==> node.Success? && !node.value.Directory?)
            && (node.Success? && node.value.Directory? ==>
                  prepared == Success(Some(Canonicalize(fs, configured).value)))
  {
    if Canonicalize(fs, configured).Success? {
      CanonicalizeTwice(fs, configured);
    }
  }

  lemma RootIsReachable(fs: FileSystem, root: Path)
    requires ValidTree(fs) && CanonicalRoot(fs, root)
    ensures Reachable(fs, root) && fs.nodes[[]] == Directory(true)
  {
    RootSearched(fs, Render(root));
    CanonicalizeTwice(fs, Render(root));
  }

  // ----- What one lookup finds -----

  datatype Hit =
    | Missing
    | Broken(cause: IoCause)
    | Outside
    | Folder
    | Other
    | File(path: Path, content: ByteString)

  function Probe(fs: FileSystem, root: Path, candidate: ByteString): Hit
    requires ValidTree(fs)
  {
    match Canonicalize(fs, PathJoin(Render(root), candidate))
    case Failure(Absent) => Missing
    case Failure(Refused(cause)) => Broken(cause)
    case Success(path) =>
      if !(root <= path) then Outside
      else
        match fs.nodes[path]
        case Directory(_) => Folder
        case Regular(content, readable) => if readable then File(path, content) else Broken(PermissionDenied)
        case _ => Other
  }

  function Serve(hit: Hit): Result<ResolvedFile, ResolveError> {
    match hit
    case File(path, content) => Success(ResolvedFile(path, content, |content|))
    case Outside => Failure(Escape)
    case Broken(cause) => Failure(Io(cause))
    case _ => Failure(NotFound)
  }

  /** The lookup table for given candidates: the second is tried only when the first is a directory inside the root. */
  function ResolveCandidates(fs: FileSystem, root: Path, candidates: seq<ByteString>)
    : Result<ResolvedFile, ResolveError>
    requires ValidTree(fs) && |candidates| > 0
  {
    var direct := Probe(fs, root, candidates[0]);
    if |candidates| == 2 && direct == Folder then Serve(Probe(fs, root, candidates[1])) else Serve(direct)
  }

  /** The file that a request path stands for. */
  function Resolve(fs: FileSystem, root: Path, p: ByteString): Result<ResolvedFile, ResolveError>
    requires ValidTree(fs)
  {
    match CandidatePaths(p)
    case Failure(e) => Failure(e)
    case Success(candidates) => ResolveCandidates(fs, root, candidates)
  }

  /** Opens a file by its path for reading. */
  function Open(fs: FileSystem, path: ByteString): Result<ByteString, IoCause>
    requires ValidTree(fs) && StartsWithSlash(path)
  {
    match Metadata(fs, path)
    case Failure(Absent) => Failure(NoEntry)
    case Failure(Refused(cause)) => Failure(cause)
    case Success(Regular(content, readable)) => if readable then Success(content) else Failure(PermissionDenied)
    case _ => Failure(NotADirectory)
  }

  /** Inspecting and opening a canonical path reaches the very node that canonicalization found. */
  lemma CanonicalPathIsStable(fs: FileSystem, path: ByteString)
    requires ValidTree(fs) && StartsWithSlash(path) && Canonicalize(fs, path).Success?
    ensures Metadata(fs, Render(Canonicalize(fs, path).value)) == Success(fs.nodes[Canonicalize(fs, path).value])
  {
    RootSearched(fs, path);
    CanonicalizeTwice(fs, path);
    CanonicalizeRendered(fs, Canonicalize(fs, path).value);
  }

  // ----- Calls into the file system -----

  /** A call into the file system, with the path it was given. */
  datatype Access = Canonicalized(path: ByteString) | Inspected(path: ByteString) | Opened(path: ByteString)

  /** The file system as the server calls it; every call is logged. */
  class Disk {
    const fs: FileSystem
    var log: seq<Access>

    constructor (fs: FileSystem)
      ensures this.fs == fs && log == []
    {
      this.fs := fs;
      log := [];
    }

    method CanonicalizePath(path: ByteString) returns (r: Result<Path, WalkError>)
      requires ValidTree(fs) && StartsWithSlash(path)
      modifies this`log
      ensures r == Canonicalize(fs, path) && log == old(log) + [Canonicalized(path)]
    {
      log := log + [Canonicalized(path)];
      r := Canonicalize(fs, path);
    }

    method InspectPath(path: ByteString) returns (r: Result<Node, WalkError>)
      requires ValidTree(fs) && StartsWithSlash(path)
      modifies this`log
      ensures r == Metadata(fs, path) && log == old(log) + [Inspected(path)]
    {
      log := log + [Inspected(path)];
      r := Metadata(fs, path);
    }

    method OpenPath(path: ByteString) returns (r: Result<ByteString, IoCause>)
      requires ValidTree(fs) && StartsWithSlash(path)
      modifies this`log
      ensures r == Open(fs, path) && log == old(log) + [Opened(path)]
    {
      log := log + [Opened(path)];
      r := Open(fs, path);
    }
  }

  /** The calls of one round: only what lies inside the root is inspected, and only a regular file is opened. */
  function ProbeAccesses(fs: FileSystem, root: Path, candidate: ByteString): seq<Access>
    requires ValidTree(fs)
  {
    var fullPath := PathJoin(Render(root), candidate);
    match Canonicalize(fs, fullPath)
    case Failure(_) => [Canonicalized(fullPath)]
    case Success(path) =>
      if !(root <= path) then [Canonicalized(fullPath)]
      else [Canonicalized(fullPath), Inspected(Render(path))]
           + if fs.nodes[path].Regular? then [Opened(Render(path))] else []
  }

  function CandidateAccesses(fs: FileSystem, root: Path, candidates: seq<ByteString>): seq<Access>
    requires ValidTree(fs) && |candidates| > 0
  {
    ProbeAccesses(fs, root, candidates[0])
    + if |candidates| == 2 && Probe(fs, root, candidates[0]) == Folder then ProbeAccesses(fs, root, candidates[1])
      else []
  }

  /** The calls of a whole lookup: none at all for a target that is not accepted. */
  function ResolveAccesses(fs: FileSystem, root: Path, p: ByteString): seq<Access>
    requires ValidTree(fs)
  {
    match CandidatePaths(p)
    case Failure(_) => []
    case Success(candidates) => CandidateAccesses(fs, root, candidates)
  }

  /** One round of the lookup: canonicalize, check containment, inspect, and open a regular file. */
  method Inspect(disk: Disk, contentRoot: Path, candidate: ByteString) returns (hit: Hit)
    requires ValidTree(disk.fs)
    modifies disk`log
    ensures hit == Probe(disk.fs, contentRoot, candidate)
    ensures disk.log == old(disk.log) + ProbeAccesses(disk.fs, contentRoot, candidate)
  {
    var fullPath := PathJoin(Render(contentRoot), candidate);
    var canonicalized := disk.CanonicalizePath(fullPath);
    if canonicalized.Failure? {
      return if canonicalized.error.Absent? then Missing else Broken(canonicalized.error.cause);
    }
    var canonical := canonicalized.value;
    if !(contentRoot <= canonical) {
      return Outside;
    }
    CanonicalPathIsStable(disk.fs, fullPath);
    var metadata := disk.InspectPath(Render(canonical));
    assert metadata.Success?;
    if metadata.value.Directory? {
      return Folder;
    }
    if !metadata.value.Regular? {
      return Other;
    }
    var file := disk.OpenPath(Render(canonical));
    if file.Failure? {
      return Broken(file.error);
    }
    return File(canonical, file.value);
  }

  method ResolveFile(disk: Disk, contentRoot: Path, requestPath: ByteString)
    returns (r: Result<ResolvedFile, ResolveError>)
    requires ValidTree(disk.fs)
    modifies disk`log
    ensures r == Resolve(disk.fs, contentRoot, requestPath)
    ensures disk.log == old(disk.log) + ResolveAccesses(disk.fs, contentRoot, requestPath)
  {
    hide Probe, ProbeAccesses, CandidatePaths;
    var found := CandidatePaths(requestPath);
    if found.Failure? {
      return Failure(found.error);
    }
    var candidates := found.value;
    var allowDirectoryIndexFallback := false;
    ghost var direct := Probe(disk.fs, contentRoot, candidates[0]);
    for index := 0 to |candidates|
      invariant index == 0 ==> !allowDirectoryIndexFallback && disk.log == old(disk.log)
      invariant index > 0 ==> allowDirectoryIndexFallback == (|candidates| == 2 && direct == Folder)
      invariant index > 0 ==> Serve(direct) == Failure(NotFound)
      invariant index == 1 ==> disk.log == old(disk.log) + ProbeAccesses(disk.fs, contentRoot, candidates[0])
      invariant index > 1 && allowDirectoryIndexFallback ==>
                  Serve(Probe(disk.fs, contentRoot, candidates[1])) == Failure(NotFound)
      invariant index > 1 ==> disk.log == old(disk.log) + CandidateAccesses(disk.fs, contentRoot, candidates)
    {
      if index == 1 && !allowDirectoryIndexFallback {
        continue;
      }
      var hit := Inspect(disk, contentRoot, candidates[index]);
      match hit
      case Missing =>
        continue;
      case Broken(cause) =>
        return Failure(Io(cause));
      case Outside =>
        return Failure(Escape);
      case Folder =>
        if index == 0 && |candidates| == 2 {
          allowDirectoryIndexFallback := true;
        }
      case Other =>
        if index == 0 && |candidates| == 2 {
          allowDirectoryIndexFallback := false;
        }
      case File(path, content) =>
        return Success(ResolvedFile(path, content, |content|));
    }
    return Failure(NotFound);
  }
}
