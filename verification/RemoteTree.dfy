/**
 The guest's file tree at the paths a deployment names, and the commands its scripts are
 made of (tools/haos-candidate-deploy-core.ts).

 Paths are lists of components below "/".  File contents stay abstract: hashing, archive
 unpacking and the version line of a config file are functions supplied by `Tools`.
 */
module RemoteTree {
  import opened Wrappers

  type Path = seq<string>
  type Content = string
  datatype Node = Dir | File(content: Content)
  type Tree = map<Path, Node>

  datatype Tools = Tools(
    sha256: Content -> string,
    unpack: Content -> Option<Tree>,
    pack: Tree -> Content,
    declaresVersion: (Content, string) -> bool)

  datatype Command =
    | HashCheck(path: Path, sha256: string)
    | TestFile(path: Path)
    | GrepVersion(path: Path, version: string)
    | MkdirP(path: Path)
    | RmRf(path: Path)
    | Untar(archive: Path, dir: Path)
    | TarDir(dir: Path, archive: Path)
    | Cp(from: Path, to: Path)
    | Mv(from: Path, to: Path)
    | WriteFile(path: Path, content: Content)
    | Touch(path: Path)
    | WhenDir(dir: Path, then_: Command)
    | Marker(text: string)

  predicate Under(root: Path, p: Path) {
    |root| <= |p| && p[..|root|] == root
  }

  predicate IsDir(t: Tree, p: Path) { p in t && t[p] == Dir }
  predicate IsFile(t: Tree, p: Path) { p in t && t[p].File? }

  function Parent(p: Path): Path { if p == [] then [] else p[..|p| - 1] }
  function Name(p: Path): string { if p == [] then "" else p[|p| - 1] }

  // ---------------------------------------------------------------------------
  // Whole-tree operations
  // ---------------------------------------------------------------------------

  function Prefixes(p: Path): set<Path> {
    set i | 0 <= i <= |p| :: p[..i]
  }

  function RemoveAll(t: Tree, root: Path): Tree {
    map q | q in t && !Under(root, q) :: t[q]
  }

  function MakeDirs(t: Tree, p: Path): Tree {
    t + map q | q in Prefixes(p) && q !in t :: Dir
  }

  /** Everything below `root`, by its path relative to `root`. */
  function Below(t: Tree, root: Path): Tree {
    var rels := set q | q in t && Under(root, q) :: q[|root|..];
    map r | r in rels && root + r in t :: t[root + r]
  }

  function Place(t: Tree, root: Path, sub: Tree): Tree {
    var placed := set r | r in sub :: root + r;
    t + map q | q in placed && Under(root, q) && q[|root|..] in sub :: sub[q[|root|..]]
  }

  function Move(t: Tree, from: Path, to: Path): Tree {
    Place(RemoveAll(RemoveAll(t, from), to), to, Below(t, from))
  }

  /** cp and mv put their source inside a target that is a directory. */
  function Target(t: Tree, from: Path, to: Path): Path {
    if IsDir(t, to) then to + [Name(from)] else to
  }

  predicate MayReplace(t: Tree, from: Path, target: Path)
    requires from in t
  {
    target !in t
    || (t[from].File? && t[target].File?)
    || (t[from].Dir? && t[target].Dir? && forall q | q in t :: Under(target, q) ==> q == target)
  }

  // ---------------------------------------------------------------------------
  // One command
  // ---------------------------------------------------------------------------

  /** The tree after the command succeeded; None when the command must fail on this tree. */
  function Effect(tools: Tools, t: Tree, c: Command): Option<Tree> {
    match c
    case HashCheck(p, sha) =>
      if IsFile(t, p) && tools.sha256(t[p].content) == sha then Some(t) else None
    case TestFile(p) => if IsFile(t, p) then Some(t) else None
    case GrepVersion(p, version) =>
      if IsFile(t, p) && tools.declaresVersion(t[p].content, version) then Some(t) else None
    case MkdirP(p) =>
      if forall q | q in Prefixes(p) :: q in t ==> t[q] == Dir then Some(MakeDirs(t, p)) else None
    case RmRf(p) => Some(RemoveAll(t, p))
    case Untar(archive, dir) =>
      if !IsFile(t, archive) || !IsDir(t, dir) then None
      else
        var sub := tools.unpack(t[archive].content);
        if sub.None? || [] in sub.value then None else Some(Place(t, dir, sub.value))
    case TarDir(dir, archive) =>
      if IsDir(t, dir) && IsDir(t, Parent(archive)) && !IsDir(t, archive)
      then Some(t[archive := File(tools.pack(Below(t, dir)))]) else None
    case Cp(from, to) =>
      var target := Target(t, from, to);
      if IsFile(t, from) && !IsDir(t, target) && IsDir(t, Parent(target))
      then Some(t[target := t[from]]) else None
    case Mv(from, to) =>
      var target := Target(t, from, to);
      if from in t && !Under(from, target) && IsDir(t, Parent(target)) && MayReplace(t, from, target)
      then Some(Move(t, from, target)) else None
    case WriteFile(p, content) =>
      if IsDir(t, Parent(p)) && !IsDir(t, p) then Some(t[p := File(content)]) else None
    case Touch(p) =>
      if p in t then Some(t) else if IsDir(t, Parent(p)) then Some(t[p := File("")]) else None
    case WhenDir(dir, inner) => if IsDir(t, dir) then Effect(tools, t, inner) else Some(t)
    case Marker(_) => Some(t)
  }

  /** The paths a command may change, whether it succeeds or stops half way. */
  predicate Touches(t: Tree, c: Command, q: Path) {
    match c
    case MkdirP(p) => Under(q, p) && q !in t
    case RmRf(p) => Under(p, q)
    case Untar(_, dir) => Under(dir, q) && q != dir
    case TarDir(_, archive) => q == archive
    case Cp(_, to) => Under(to, q)
    case Mv(from, to) => Under(from, q) || Under(to, q)
    case WriteFile(p, _) => q == p
    case Touch(p) => q == p
    case WhenDir(_, inner) => Touches(t, inner, q)
    case _ => false
  }

  predicate SameAt(t: Tree, u: Tree, q: Path) {
    (q in t <==> q in u) && (q in t ==> t[q] == u[q])
  }

  /** u differs from t only where the command may write. */
  predicate Frames(t: Tree, c: Command, u: Tree) {
    forall q | q in t.Keys + u.Keys :: Touches(t, c, q) || SameAt(t, u, q)
  }

  lemma UnderTransitive(a: Path, b: Path, c: Path)
    requires Under(a, b) && Under(b, c)
    ensures Under(a, c)
  {
    assert c[..|a|] == c[..|b|][..|a|];
  }

  lemma PlaceAt(t: Tree, root: Path, sub: Tree, rel: Path)
    ensures var u := Place(t, root, sub);
            && (root + rel in u <==> rel in sub || root + rel in t)
            && (rel in sub ==> u[root + rel] == sub[rel])
            && (rel !in sub && root + rel in t ==> u[root + rel] == t[root + rel])
  {
    assert (root + rel)[|root|..] == rel;
    assert (root + rel)[..|root|] == root;
    forall r | r in sub && root + r == root + rel ensures r == rel {
      assert (root + r)[|root|..] == r;
    }
  }

  lemma PlaceElsewhere(t: Tree, root: Path, sub: Tree, q: Path)
    requires !Under(root, q)
    ensures SameAt(t, Place(t, root, sub), q)
  {}

  lemma BelowAt(t: Tree, root: Path, rel: Path)
    ensures rel in Below(t, root) <==> root + rel in t
    ensures root + rel in t ==> Below(t, root)[rel] == t[root + rel]
  {
    assert Under(root, root + rel) && (root + rel)[|root|..] == rel;
    if rel in Below(t, root) {
      assert root + rel in t;
    }
    if root + rel in t {
      assert root + rel in t && Under(root, root + rel);
    }
  }

  /** A successful move carries everything below `from` to `to`, and nothing else. */
  lemma MoveAt(t: Tree, from: Path, to: Path, rel: Path)
    requires !Under(to, from) && !Under(from, to)
    ensures var u := Move(t, from, to);
            && (to + rel in u <==> from + rel in t)
            && (from + rel in t ==> u[to + rel] == t[from + rel])
            && from + rel !in u
  {
    var cleared := RemoveAll(RemoveAll(t, from), to);
    PlaceAt(cleared, to, Below(t, from), rel);
    BelowAt(t, from, rel);
    assert Under(to, to + rel) && Under(from, from + rel);
    if Under(to, from + rel) {
      NestedOrApart(from, to, from + rel);
    }
    PlaceElsewhere(cleared, to, Below(t, from), from + rel);
  }

  lemma NestedOrApart(a: Path, b: Path, q: Path)
    requires Under(a, q) && Under(b, q)
    ensures Under(a, b) || Under(b, a)
  {
    if |a| <= |b| {
      assert b[..|a|] == q[..|b|][..|a|] == q[..|a|];
    } else {
      assert a[..|b|] == q[..|a|][..|b|] == q[..|b|];
    }
  }

  lemma MoveElsewhere(t: Tree, from: Path, to: Path, q: Path)
    requires !Under(from, q) && !Under(to, q)
    ensures SameAt(t, Move(t, from, to), q)
  {
    PlaceElsewhere(RemoveAll(RemoveAll(t, from), to), to, Below(t, from), q);
  }

  /** Success stays inside the region that failure may leave half written. */
  lemma EffectFrames(tools: Tools, t: Tree, c: Command)
    requires Effect(tools, t, c).Some?
    ensures Frames(t, c, Effect(tools, t, c).value)
  {
    var u := Effect(tools, t, c).value;
    forall q | q in t.Keys + u.Keys && !Touches(t, c, q) ensures SameAt(t, u, q) {
      match c {
        case MkdirP(p) =>
          if q in Prefixes(p) { assert Under(q, p); }
        case Untar(archive, dir) =>
          var sub := tools.unpack(t[archive].content).value;
          if q == dir {
            PlaceAt(t, dir, sub, []);
            assert dir + [] == dir;
          } else {
            PlaceElsewhere(t, dir, sub, q);
          }
        case Cp(from, to) => assert Under(to, to + [Name(from)]) && Under(to, to);
        case Mv(from, to) =>
          var target := Target(t, from, to);
          assert Under(to, target);
          if Under(target, q) { UnderTransitive(to, target, q); }
          MoveElsewhere(t, from, target, q);
        case WhenDir(dir, inner) =>
          if IsDir(t, dir) { EffectFrames(tools, t, inner); }
        case _ =>
      }
    }
  }

  // ---------------------------------------------------------------------------
  // A script: `set -eu` stops it at the first failing command
  // ---------------------------------------------------------------------------

  /** One command ran from t to u; it may fail on any tree, leaving its region in any state. */
  predicate Ran(tools: Tools, t: Tree, c: Command, u: Tree, ok: bool) {
    if ok then Effect(tools, t, c) == Some(u) else Frames(t, c, u)
  }

  /** `trace` holds the tree before the script and after each command it reached; the first
      `done` commands succeeded, and one more may have failed. */
  predicate IsRun(tools: Tools, script: seq<Command>, trace: seq<Tree>, done: nat) {
    && done <= |script|
    && (|trace| == done + 1 || (|trace| == done + 2 && done < |script|))
    && (forall i :: 0 <= i < |trace| - 1 ==> Ran(tools, trace[i], script[i], trace[i + 1], i < done))
  }

  predicate Completed(script: seq<Command>, trace: seq<Tree>, done: nat) {
    done == |script| && |trace| == done + 1
  }

  lemma RanFrames(tools: Tools, t: Tree, c: Command, u: Tree, ok: bool)
    requires Ran(tools, t, c, u, ok)
    ensures forall q :: !Touches(t, c, q) ==> SameAt(t, u, q)
  {
    if ok { EffectFrames(tools, t, c); }
    assert Frames(t, c, u);
    forall q | !Touches(t, c, q) ensures SameAt(t, u, q) {
      if q in t.Keys + u.Keys {}
    }
  }

  ghost predicate Spares(script: seq<Command>, q: Path) {
    forall i, t :: 0 <= i < |script| ==> !Touches(t, script[i], q)
  }

  /** A path that no command of the script touches keeps its node in every intermediate tree. */
  lemma {:induction false} RunKeepsUntouched(tools: Tools, script: seq<Command>, trace: seq<Tree>, done: nat, q: Path,
                                             j: nat)
    requires IsRun(tools, script, trace, done) && j < |trace|
    requires Spares(script, q)
    ensures SameAt(trace[0], trace[j], q)
  {
    if j > 0 {
      RunKeepsUntouched(tools, script, trace, done, q, j - 1);
      assert !Touches(trace[j - 1], script[j - 1], q);
      RanFrames(tools, trace[j - 1], script[j - 1], trace[j], j - 1 < done);
    }
  }
}
