/**
 A file system as the storage scan sees it: names arranged in trees, inodes that
 several names may share, and the bytes an inode holds until its last name goes.
 */
module FileSystem {

  type Ino = nat

  /** What `lstat` reports for an inode. */
  datatype Meta = Meta(bytes: nat, linkCount: nat, directory: bool)

  /** One path below `target`. A symbolic link is a `Leaf`: it is never followed.
      `Unreadable` is a listed path whose `lstat` fails; a directory that is not
      `listable` fails in `scandir`. */
  datatype Tree =
    | Unreadable
    | Leaf(ino: Ino)
    | Dir(ino: Ino, listable: bool, children: seq<Tree>)

  /** The names of a tree in the order the scan visits them. */
  function Names(t: Tree): seq<Ino>
    decreases t, 1
  {
    match t
    case Unreadable => []
    case Leaf(i) => [i]
    case Dir(i, _, children) => [i] + ForestNames(children)
  }

  function ForestNames(ts: seq<Tree>): seq<Ino>
    decreases ts, 0
  {
    if ts == [] then [] else Names(ts[0]) + ForestNames(ts[1..])
  }

  /** The names of a tree in the order deletion unlinks them: a directory goes
      after everything inside it. */
  function Unlinks(t: Tree): seq<Ino>
    decreases t, 1
  {
    match t
    case Unreadable => []
    case Leaf(i) => [i]
    case Dir(i, _, children) => ForestUnlinks(children) + [i]
  }

  function ForestUnlinks(ts: seq<Tree>): seq<Ino>
    decreases ts, 0
  {
    if ts == [] then [] else Unlinks(ts[0]) + ForestUnlinks(ts[1..])
  }

  /** Scanning and deleting a tree visit the same names, each as often. */
  lemma {:induction false} UnlinksArePermutedNames(t: Tree)
    ensures multiset(Unlinks(t)) == multiset(Names(t))
    decreases t, 1
  {
    if t.Dir? {
      ForestUnlinksArePermutedNames(t.children);
    }
  }

  lemma {:induction false} ForestUnlinksArePermutedNames(ts: seq<Tree>)
    ensures multiset(ForestUnlinks(ts)) == multiset(ForestNames(ts))
    decreases ts, 0
  {
    if ts != [] {
      UnlinksArePermutedNames(ts[0]);
      ForestUnlinksArePermutedNames(ts[1..]);
    }
  }

  /** Some path in the tree, the top included, is a name of inode `i`. */
  predicate NamedIn(t: Tree, i: Ino)
    decreases t
  {
    match t
    case Unreadable => false
    case Leaf(ino) => ino == i
    case Dir(ino, _, children) => ino == i || exists k :: 0 <= k < |children| && NamedIn(children[k], i)
  }

  /** The names visited are those of all paths in the tree. */
  lemma {:induction false} NamesAreAllPaths(t: Tree, i: Ino)
    ensures i in Names(t) <==> NamedIn(t, i)
    decreases t, 1
  {
    if t.Dir? {
      ForestNamesAreAllPaths(t.children, i);
    }
  }

  lemma {:induction false} ForestNamesAreAllPaths(ts: seq<Tree>, i: Ino)
    ensures i in ForestNames(ts) <==> exists k :: 0 <= k < |ts| && NamedIn(ts[k], i)
    decreases ts, 0
  {
    if ts != [] {
      NamesAreAllPaths(ts[0], i);
      ForestNamesAreAllPaths(ts[1..], i);
      if k :| 0 <= k < |ts| && NamedIn(ts[k], i) {
        assert k == 0 || ts[1..][k - 1] == ts[k];
      }
      if k :| 0 <= k < |ts[1..]| && NamedIn(ts[1..][k], i) {
        assert ts[k + 1] == ts[1..][k];
      }
    }
  }

  /** No `lstat` or `scandir` below this path fails. */
  predicate Scannable(t: Tree)
    decreases t, 1
  {
    match t
    case Unreadable => false
    case Leaf(_) => true
    case Dir(_, listable, children) => listable && ForestScannable(children)
  }

  predicate ForestScannable(ts: seq<Tree>)
    decreases ts, 0
  {
    ts == [] || (Scannable(ts[0]) && ForestScannable(ts[1..]))
  }

  /** Every name has metadata, and exactly the `Dir` nodes are directories. */
  predicate Typed(t: Tree, meta: map<Ino, Meta>)
    decreases t, 1
  {
    match t
    case Unreadable => true
    case Leaf(i) => i in meta && !meta[i].directory
    case Dir(i, _, children) => i in meta && meta[i].directory && ForestTyped(children, meta)
  }

  predicate ForestTyped(ts: seq<Tree>, meta: map<Ino, Meta>)
    decreases ts, 0
  {
    ts == [] || (Typed(ts[0], meta) && ForestTyped(ts[1..], meta))
  }

  /** Allocated bytes of a set of inodes, each counted once. */
  ghost function Bytes(s: set<Ino>, meta: map<Ino, Meta>): nat
    requires s <= meta.Keys
  {
    if s == {} then 0 else
      var x :| x in s;
      meta[x].bytes + Bytes(s - {x}, meta)
  }

  lemma {:induction false} BytesPick(s: set<Ino>, meta: map<Ino, Meta>, x: Ino)
    requires s <= meta.Keys && x in s
    ensures Bytes(s, meta) == meta[x].bytes + Bytes(s - {x}, meta)
    decreases s
  {
    var y :| y in s && Bytes(s, meta) == meta[y].bytes + Bytes(s - {y}, meta);
    if y != x {
      BytesPick(s - {y}, meta, x);
      BytesPick(s - {x}, meta, y);
      assert s - {y} - {x} == s - {x} - {y};
    }
  }

  /** Bytes are additive over a subset and its complement. */
  lemma {:induction false} BytesSplit(s: set<Ino>, part: set<Ino>, meta: map<Ino, Meta>)
    requires part <= s <= meta.Keys
    ensures Bytes(s, meta) == Bytes(part, meta) + Bytes(s - part, meta)
    decreases part
  {
    if part == {} {
      assert s - part == s;
    } else {
      var x :| x in part;
      BytesPick(s, meta, x);
      BytesPick(part, meta, x);
      BytesSplit(s - {x}, part - {x}, meta);
      assert (s - {x}) - (part - {x}) == s - part;
    }
  }

  /** The inodes some name still refers to. */
  ghost function Inodes(names: multiset<Ino>): set<Ino> {
    set i | i in names
  }

  /** Bytes held on disk while `names` are all the names there are. */
  ghost function Usage(names: multiset<Ino>, meta: map<Ino, Meta>): nat
    requires Inodes(names) <= meta.Keys
  {
    Bytes(Inodes(names), meta)
  }

  /** Removing names frees exactly the inodes whose last name went. */
  lemma RemovalFrees(names: multiset<Ino>, removed: multiset<Ino>, meta: map<Ino, Meta>)
    requires Inodes(names) <= meta.Keys
    ensures var lost := Inodes(names) - Inodes(names - removed);
            Usage(names, meta) - Usage(names - removed, meta) == Bytes(lost, meta)
  {
    BytesSplit(Inodes(names), Inodes(names - removed), meta);
  }
}
