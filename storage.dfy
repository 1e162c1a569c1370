/**
 * The local filesystem the gatherer writes to, as a map from paths to nodes.
 * A path is the list of its components; the root always exists.
 */
module Storage {
  import opened Wrappers

  type Path = seq<string>

  datatype JsonValue = JString(s: string) | JNumber(n: int) | JBool(b: bool)

  /** A JSON object is written as its entries in output order. */
  datatype Node =
    | Directory
    | JsonFile(entries: seq<(string, JsonValue)>)
    | BinaryFile(content: seq<bv8>)

  type Nodes = map<Path, Node>

  datatype FsError =
    | NotADirectory(path: Path)      // a path component exists and is not a directory
    | IsADirectory(path: Path)       // open() for writing on a directory
    | NoParentDirectory(path: Path)  // open() for writing below a missing directory

  datatype FsResult = FsResult(nodes: Nodes, outcome: Outcome<FsError>)

  /** os.path.join(p, name) as the system resolves it: an empty name leaves `p` itself. */
  function Join(p: Path, name: string): (r: Path)
    ensures name == "" ==> r == p
    ensures name != "" ==> r == p + [name]
  {
    if name == "" then p else p + [name]
  }

  /** The entries "." and ".." every directory holds: the directory itself and its parent. */
  predicate IsDotName(name: string) {
    name == "." || name == ".."
  }

  /**
   * `p` ends in "." or ".." inside a directory, so it names a directory the
   * map holds under another key (every directory's parent exists).
   */
  predicate DotEntry(n: Nodes, p: Path) {
    p != [] && IsDotName(p[|p| - 1]) && IsDir(n, p[..|p| - 1])
  }

  /** os.path.exists: stored paths, every directory, and the dot entries of a directory. */
  predicate Exists(n: Nodes, p: Path): (b: bool)
    ensures IsDir(n, p) ==> b
    ensures p != [] && IsDotName(p[|p| - 1]) && IsDir(n, p[..|p| - 1]) ==> b
    ensures b ==> p == [] || p in n || (IsDotName(p[|p| - 1]) && IsDir(n, p[..|p| - 1]))
  {
    p == [] || p in n || DotEntry(n, p)
  }

  predicate IsDir(n: Nodes, p: Path) {
    p == [] || (p in n && n[p] == Directory)
  }

  /** Creates the prefixes of `p` longer than `k` components, shortest first. */
  function MakeDirsFrom(n: Nodes, p: Path, k: nat): FsResult
    requires k <= |p|
    decreases |p| - k
  {
    if k == |p| then FsResult(n, Pass)
    else
      var q := p[..k + 1];
      if q in n && n[q] != Directory then FsResult(n, Fail(NotADirectory(q)))
      else MakeDirsFrom(n[q := Directory], p, k + 1)
  }

  /** os.makedirs(p, exist_ok=True). */
  function AfterMakeDirs(n: Nodes, p: Path): FsResult {
    MakeDirsFrom(n, p, 0)
  }

  /** open(p, 'w').write(...): replaces a file, creates a missing one. */
  function AfterWrite(n: Nodes, p: Path, content: Node): (r: FsResult)
    ensures r.outcome.Pass? <==> p != [] && !IsDir(n, p) && !DotEntry(n, p) && IsDir(n, p[..|p| - 1])
    ensures r.outcome.Pass? ==> r.nodes == n[p := content]
    ensures r.outcome.Fail? ==> r.nodes == n
  {
    if IsDir(n, p) || DotEntry(n, p) then FsResult(n, Fail(IsADirectory(p)))
    else if !IsDir(n, p[..|p| - 1]) then FsResult(n, Fail(NoParentDirectory(p)))
    else FsResult(n[p := content], Pass)
  }

  /** Every existing key keeps its value, except possibly those in `except`. */
  ghost predicate Grows(n: Nodes, n': Nodes, except: set<Path>) {
    forall k :: k in n ==> k in n' && (k !in except ==> n'[k] == n[k])
  }

  lemma GrowsTransitive(a: Nodes, b: Nodes, c: Nodes, x: set<Path>, y: set<Path>)
    requires Grows(a, b, x) && Grows(b, c, y)
    ensures Grows(a, c, x + y)
  {
  }

  lemma {:induction false} MakeDirsFromEffect(n: Nodes, p: Path, k: nat)
    requires k <= |p|
    ensures Grows(n, MakeDirsFrom(n, p, k).nodes, {})
    ensures MakeDirsFrom(n, p, k).outcome.Pass? ==> forall i :: k < i <= |p| ==> IsDir(MakeDirsFrom(n, p, k).nodes, p[..i])
    ensures (forall i :: k < i <= |p| ==> IsDir(n, p[..i])) ==> MakeDirsFrom(n, p, k) == FsResult(n, Pass)
    ensures forall q :: q in MakeDirsFrom(n, p, k).nodes && q !in n ==> exists i :: k < i <= |p| && q == p[..i]
    decreases |p| - k
  {
    if k < |p| {
      var q := p[..k + 1];
      if !(q in n && n[q] != Directory) {
        MakeDirsFromEffect(n[q := Directory], p, k + 1);
        var r := MakeDirsFrom(n[q := Directory], p, k + 1);
        if r.outcome.Pass? {
          forall i | k < i <= |p| ensures IsDir(r.nodes, p[..i]) {
            if i == k + 1 {
              assert q in n[q := Directory];
            }
          }
        }
        if forall i :: k < i <= |p| ==> IsDir(n, p[..i]) {
          assert IsDir(n, q);
          assert n[q := Directory] == n;
        }
      }
    }
  }

  /**
   * makedirs leaves every existing node as it was and adds only directories
   * on `p`; on success every prefix of `p` is a directory, and when they all
   * were already it changes nothing.
   */
  lemma MakeDirsEffect(n: Nodes, p: Path)
    ensures Grows(n, AfterMakeDirs(n, p).nodes, {})
    ensures AfterMakeDirs(n, p).outcome.Pass? ==> forall i :: 0 < i <= |p| ==> IsDir(AfterMakeDirs(n, p).nodes, p[..i])
    ensures (forall i :: 0 < i <= |p| ==> IsDir(n, p[..i])) ==> AfterMakeDirs(n, p) == FsResult(n, Pass)
    ensures forall q :: q in AfterMakeDirs(n, p).nodes && q !in n ==> exists i :: 0 < i <= |p| && q == p[..i]
  {
    MakeDirsFromEffect(n, p, 0);
  }

  /** The filesystem: the one piece of state the gatherer changes. */
  class FileSystem {
    var nodes: Nodes

    constructor (n: Nodes)
      ensures nodes == n
    {
      nodes := n;
    }

    function PathExists(p: Path): bool
      reads this
    {
      Exists(nodes, p)
    }

    method MakeDirs(p: Path) returns (o: Outcome<FsError>)
      modifies this
      ensures FsResult(nodes, o) == AfterMakeDirs(old(nodes), p)
    {
      var k := 0;
      while k < |p|
        invariant 0 <= k <= |p|
        invariant MakeDirsFrom(nodes, p, k) == AfterMakeDirs(old(nodes), p)
      {
        var q := p[..k + 1];
        if q in nodes && nodes[q] != Directory {
          return Fail(NotADirectory(q));
        }
        nodes := nodes[q := Directory];
        k := k + 1;
      }
      return Pass;
    }

    method WriteFile(p: Path, content: Node) returns (o: Outcome<FsError>)
      modifies this
      ensures FsResult(nodes, o) == AfterWrite(old(nodes), p, content)
    {
      if IsDir(nodes, p) || DotEntry(nodes, p) {
        return Fail(IsADirectory(p));
      } else if !IsDir(nodes, p[..|p| - 1]) {
        return Fail(NoParentDirectory(p));
      }
      nodes := nodes[p := content];
      return Pass;
    }
  }
}
