/** The part of a file system the CNI configuration watcher touches. Every
    operation may fail, and every tree a crash could leave behind is recorded. */
module CniDisk {
  import opened Wrappers
  import opened Cidr

  type Bytes = seq<bv8>

  datatype Path = Slash | In(parent: Path, name: string)

  datatype Node = Directory | File(content: Bytes) | Link(target: Path) | Special

  type Tree = map<Path, Node>

  function At(t: Tree, p: Path): Option<Node> {
    if p.Slash? then Some(Directory) else if p in t then Some(t[p]) else None
  }

  predicate IsDirectory(t: Tree, p: Path) {
    At(t, p) == Some(Directory)
  }

  /** What `Lstat` must report for a path that may be (over)written. */
  predicate RegularOrAbsent(node: Option<Node>) {
    node.None? || node.value.File?
  }

  /** `Stat`: links are followed, a cycle of links is an error. */
  function Follow(t: Tree, p: Path, unvisited: set<Path>): Option<Path>
    decreases unvisited
  {
    match At(t, p)
    case None => None
    case Some(Link(target)) => if p in unvisited then Follow(t, target, unvisited - {p}) else None
    case Some(_) => Some(p)
  }

  predicate SameFile(t: Tree, a: Path, b: Path) {
    Follow(t, a, t.Keys).Some? && Follow(t, a, t.Keys) == Follow(t, b, t.Keys)
  }

  predicate Above(p: Path, q: Path) {
    p == q || (q.In? && Above(p, q.parent))
  }

  /** Every component of the path is missing or a directory. */
  predicate Climbable(t: Tree, p: Path) {
    (At(t, p).None? || At(t, p).value.Directory?) && (p.In? ==> Climbable(t, p.parent))
  }

  function WithDirectories(t: Tree, p: Path): Tree {
    if p.Slash? then t
    else
      var u := WithDirectories(t, p.parent);
      if p in u then u else u[p := Directory]
  }

  /** Only missing components are added, and only as directories. */
  lemma {:induction false} DirectoriesOnlyAdded(t: Tree, p: Path, q: Path)
    ensures At(WithDirectories(t, p), q) == At(t, q) ||
            (At(t, q).None? && Above(q, p) && At(WithDirectories(t, p), q) == Some(Directory))
  {
    if p.In? { DirectoriesOnlyAdded(t, p.parent, q); }
  }

  lemma {:induction false} DirectoriesExist(t: Tree, p: Path)
    requires Climbable(t, p)
    ensures IsDirectory(WithDirectories(t, p), p)
  {
    if p.In? { DirectoriesOnlyAdded(t, p.parent, p); }
  }

  /** Nothing but missing directories on the way to `p` tells the two trees apart. */
  ghost predicate OnTheWay(now: Tree, before: Tree, p: Path) {
    forall q :: At(now, q) == At(before, q) ||
                (At(before, q).None? && Above(q, p) && At(now, q) == Some(Directory))
  }

  function TemporaryPrefix(name: string): string { "." + name + ".tmp-" }

  /** Names `os.CreateTemp` gives to a temporary beside `name`: digits for the star. */
  predicate IsTemporary(p: Path, folder: Path, name: string) {
    p.In? && p.parent == folder && TemporaryPrefix(name) <= p.name && AllDigits(p.name[|TemporaryPrefix(name)|..])
  }

  predicate Staged(now: Tree, before: Tree, p: Path) {
    p !in before && p in now && now == before[p := now[p]]
  }

  /** While `name` is being replaced: the old tree, the new one, or the old one
      plus a temporary that was not there before. */
  ghost predicate Replacing(now: Tree, before: Tree, folder: Path, name: string, node: Node) {
    now == before
    || now == before[In(folder, name) := node]
    || exists p :: IsTemporary(p, folder, name) && Staged(now, before, p)
  }

  class Disk {
    var tree: Tree
    /** Every tree there has been, oldest first. */
    var history: seq<Tree>
    ghost var faults: nat

    constructor (tree: Tree)
      ensures this.tree == tree && history == [tree] && faults == 0
    {
      this.tree, history, faults := tree, [tree], 0;
    }

    method Lstat(path: Path) returns (ok: bool, node: Option<Node>)
      modifies this`faults
      ensures faults >= old(faults)
      ensures ok ==> node == At(tree, path)
      ensures faults == old(faults) ==> ok
    {
      node := At(tree, path);
      ok := *;
      if !ok { faults := faults + 1; }
    }

    /** `None` is the not-exist error; only regular files have content to read. */
    method ReadFile(path: Path) returns (ok: bool, content: Option<Bytes>)
      modifies this`faults
      ensures faults >= old(faults)
      ensures ok ==> RegularOrAbsent(At(tree, path))
      ensures ok ==> content == if At(tree, path).None? then None else Some(At(tree, path).value.content)
      ensures faults == old(faults) && RegularOrAbsent(At(tree, path)) ==> ok
    {
      content := None;
      ok := *;
      if !ok { faults := faults + 1; }
      ok := ok && RegularOrAbsent(At(tree, path));
      if ok && At(tree, path).Some? { content := Some(At(tree, path).value.content); }
    }

    /** `Stat` on both paths, then `os.SameFile`. */
    method StatSame(a: Path, b: Path) returns (same: bool)
      modifies this`faults
      ensures faults >= old(faults)
      ensures same ==> SameFile(tree, a, b)
      ensures faults == old(faults) ==> same == SameFile(tree, a, b)
    {
      var ok: bool := *;
      if !ok { faults := faults + 1; }
      same := ok && SameFile(tree, a, b);
    }

    method MkdirAll(path: Path) returns (ok: bool)
      modifies this
      decreases path
      ensures faults >= old(faults)
      ensures old(history) <= history
      ensures OnTheWay(tree, old(tree), path)
      ensures forall i :: |old(history)| <= i < |history| ==> OnTheWay(history[i], old(tree), path)
      ensures ok ==> tree == WithDirectories(old(tree), path) && IsDirectory(tree, path)
      ensures faults == old(faults) && Climbable(old(tree), path) ==> ok
    {
      if path.Slash? { return true; }
      ok := MkdirAll(path.parent);
      if !ok { return; }
      ok := At(tree, path) == None || At(tree, path) == Some(Directory);
      if At(tree, path) == None {
        if * {
          faults := faults + 1;
          return false;
        }
        tree := tree[path := Directory];
        history := history + [tree];
      }
    }

    /** A name nobody used, in an existing directory. */
    method CreateTemp(folder: Path, name: string) returns (ok: bool, path: Path)
      modifies this
      ensures faults >= old(faults)
      ensures ok ==> IsTemporary(path, folder, name) && path !in old(tree)
      ensures ok ==> tree == old(tree)[path := File([])] && history == old(history) + [tree]
      ensures !ok ==> tree == old(tree) && history == old(history)
      ensures faults == old(faults) ==> ok == IsDirectory(old(tree), folder)
    {
      var random: string := *;
      path := In(folder, TemporaryPrefix(name) + random);
      ok := *;
      if !ok || !AllDigits(random) || path in tree {
        faults := faults + 1;
        return false, path;
      }
      ok := IsDirectory(tree, folder);
      assert path.name[|TemporaryPrefix(name)|..] == random;
      if ok {
        tree := tree[path := File([])];
        history := history + [tree];
      }
    }

    /** A failed write may leave a prefix. */
    method Write(path: Path, content: Bytes) returns (ok: bool)
      requires path in tree
      modifies this
      ensures faults >= old(faults)
      ensures exists written :: tree == old(tree)[path := File(written)]
      ensures history == old(history) + [tree]
      ensures ok ==> tree == old(tree)[path := File(content)]
      ensures faults == old(faults) ==> ok
    {
      var n :| 0 <= n <= |content|;
      ok := n == |content|;
      if !ok { faults := faults + 1; }
      var written := if ok then content else content[..n];
      tree := tree[path := File(written)];
      history := history + [tree];
    }

    /** `Chmod`, `Sync` and `Close`: they may fail but move no bytes. */
    method Finish() returns (ok: bool)
      modifies this`faults
      ensures faults >= old(faults)
      ensures faults == old(faults) ==> ok
    {
      ok := *;
      if !ok { faults := faults + 1; }
    }

    method Remove(path: Path) returns (ok: bool)
      requires At(tree, path) != Some(Directory)
      modifies this
      ensures faults >= old(faults)
      ensures tree == if ok then old(tree) - {path} else old(tree)
      ensures ok ==> path in old(tree)
      ensures history == old(history) + [tree]
      ensures faults == old(faults) ==> ok == (path in old(tree))
    {
      ok := *;
      if !ok { faults := faults + 1; }
      ok := ok && path in tree;
      if ok { tree := tree - {path}; }
      history := history + [tree];
    }

    /** Atomic: a crash leaves the old tree or the new one. */
    method Rename(from: Path, to: Path) returns (ok: bool)
      requires from in tree && from != to && At(tree, to) != Some(Directory)
      modifies this
      ensures faults >= old(faults)
      ensures tree == if ok then (old(tree) - {from})[to := old(tree)[from]] else old(tree)
      ensures history == old(history) + [tree]
      ensures faults == old(faults) ==> ok
    {
      ok := *;
      if !ok { faults := faults + 1; }
      if ok { tree := (tree - {from})[to := tree[from]]; }
      history := history + [tree];
    }

    method Symlink(target: Path, path: Path) returns (ok: bool)
      modifies this
      ensures faults >= old(faults)
      ensures tree == if ok then old(tree)[path := Link(target)] else old(tree)
      ensures history == old(history) + [tree]
      ensures ok ==> path !in old(tree)
      ensures faults == old(faults) ==> ok == (path !in old(tree))
    {
      ok := *;
      if !ok { faults := faults + 1; }
      ok := ok && path !in tree;
      if ok { tree := tree[path := Link(target)]; }
      history := history + [tree];
    }

    /** The process died when the tree was in its `i`-th recorded state. */
    method CrashAt(i: nat)
      requires i < |history|
      modifies this
      ensures tree == old(history)[i] && history == old(history) + [tree] && faults == old(faults)
    {
      tree := history[i];
      history := history + [tree];
    }
  }
}
