/** Removal of a directory tree from the file system beneath and of its entries from the metadata cache. */
module Traverse {
  type Path = string

  datatype Kind = Dir | File

  /** Paths below p begin with p and a slash. */
  predicate Below(p: Path, k: Path) {
    |p| < |k| && k[..|p|] == p && k[|p|] == '/'
  }

  predicate AtOrBelow(p: Path, k: Path) { k == p || Below(p, k) }

  /** k is p, a slash and a name. */
  predicate ChildOf(p: Path, k: Path) {
    Below(p, k) && |p| + 1 < |k| && forall i :: |p| < i < |k| ==> k[i] != '/'
  }

  /** A path other than the root. */
  predicate NonRoot(p: Path) { p != "" && p[|p| - 1] != '/' }

  /**
   * What a directory hierarchy guarantees: a slash of a path is followed by a name, and whatever stands before it
   * is a directory.
   */
  ghost predicate Tree(dfs: map<Path, Kind>) {
    && (forall k, i :: k in dfs && 0 < i < |k| && k[i] == '/' ==> k[..i] in dfs && dfs[k[..i]] == Dir)
    && (forall k, i :: k in dfs && 0 < i < |k| && k[i] == '/' ==> i + 1 < |k| && k[i + 1] != '/')
  }

  // ---- facts about paths ----

  /** What lies below a path is the path, a slash and more; a name that merely begins the same way does not. */
  lemma {:induction false} BelowIs(p: Path, x: Path)
    ensures Below(p, p + "/" + x)
    ensures AtOrBelow(p, p + x) <==> x == "" || x[0] == '/'
    ensures ChildOf(p, p + "/" + x) <==> x != "" && forall i :: 0 <= i < |x| ==> x[i] != '/'
  {
    var k := p + "/" + x;
    assert k[..|p|] == p && (p + x)[..|p|] == p;
    if forall i :: 0 <= i < |x| ==> x[i] != '/' {
      forall i | |p| < i < |k| ensures k[i] != '/' { assert k[i] == x[i - |p| - 1]; }
    }
    if ChildOf(p, k) {
      forall i | 0 <= i < |x| ensures x[i] != '/' { assert k[|p| + 1 + i] == x[i]; }
    }
    if x == "" { assert p + x == p; }
  }

  lemma {:induction false} BelowTransitive(p: Path, q: Path, k: Path)
    requires Below(p, q) && AtOrBelow(q, k)
    ensures Below(p, k)
  {
    if Below(q, k) { assert k[..|q|][..|p|] == k[..|p|]; }
  }

  lemma {:induction false} NoChildBelowChild(p: Path, c: Path, d: Path)
    requires ChildOf(p, c) && ChildOf(p, d)
    ensures !Below(c, d)
  {}

  /** The position of the first slash of k at or after i, or |k|. */
  function NextSlash(k: Path, i: nat): (j: nat)
    requires i <= |k|
    ensures i <= j <= |k| && (j < |k| ==> k[j] == '/')
    ensures forall x :: i <= x < j ==> k[x] != '/'
    decreases |k| - i
  {
    if i == |k| || k[i] == '/' then i else NextSlash(k, i + 1)
  }

  /** Everything below p lies at or below exactly one child of p, which is in the hierarchy as well. */
  lemma {:induction false} ChildAbove(dfs: map<Path, Kind>, p: Path, k: Path) returns (c: Path)
    requires Tree(dfs) && k in dfs && Below(p, k) && NonRoot(p)
    ensures ChildOf(p, c) && AtOrBelow(c, k) && c in dfs
  {
    var j := NextSlash(k, |p| + 1);
    c := k[..j];
    assert c[..|p|] == k[..|p|];
    if j == |k| { assert c == k; }
  }

  lemma {:induction false} NothingBelowFile(dfs: map<Path, Kind>, f: Path, k: Path)
    requires Tree(dfs) && f in dfs && dfs[f] == File && k in dfs && NonRoot(f)
    ensures !Below(f, k)
  {
  }

  /** What is left of a hierarchy without p and everything below it. */
  function Without(dfs: map<Path, Kind>, p: Path): (r: map<Path, Kind>)
    ensures forall k :: k in r <==> k in dfs && !AtOrBelow(p, k)
    ensures forall k :: k in r ==> r[k] == dfs[k]
  {
    map k | k in dfs && !AtOrBelow(p, k) :: dfs[k]
  }

  lemma {:induction false} WithoutIsTree(dfs: map<Path, Kind>, p: Path)
    requires Tree(dfs)
    ensures Tree(Without(dfs, p))
  {
    hide Without;
    var r := Without(dfs, p);
    forall k, i | k in r && 0 < i < |k| && k[i] == '/' ensures k[..i] in r && r[k[..i]] == Dir {
      var a := k[..i];
      assert Below(a, k);
      if a != p && Below(p, a) { BelowTransitive(p, a, k); }
    }
  }

  ghost predicate Covered(cs: set<Path>, k: Path) {
    exists c :: c in cs && AtOrBelow(c, k)
  }

  /** Entries that a traversal of p visits: the subtree it removes. */
  function Subtree(dfs: map<Path, Kind>, p: Path): (s: set<Path>)
    ensures forall k :: k in s <==> k in dfs && AtOrBelow(p, k)
  {
    set k | k in dfs && AtOrBelow(p, k)
  }

  lemma CoveredStep(cs: set<Path>, c: Path)
    ensures forall k :: Covered(cs + {c}, k) <==> Covered(cs, k) || AtOrBelow(c, k)
  {
    forall k ensures Covered(cs + {c}, k) <==> Covered(cs, k) || AtOrBelow(c, k) {
      if AtOrBelow(c, k) { assert c in cs + {c}; }
      if Covered(cs, k) {
        var d :| d in cs && AtOrBelow(d, k);
        assert d in cs + {c};
      }
    }
  }

  /** A child that has not been visited is not covered by the visited ones. */
  lemma {:induction false} StillThere(p: Path, c: Path, done: set<Path>)
    requires ChildOf(p, c) && c !in done && forall d :: d in done ==> ChildOf(p, d)
    ensures !Covered(done, c)
  {
    forall d | d in done ensures !AtOrBelow(d, c) { NoChildBelowChild(p, d, c); }
  }

  /** The children of p cover exactly what is below p. */
  lemma {:induction false} AllVisited(dfs: map<Path, Kind>, p: Path, children: set<Path>)
    requires Tree(dfs) && NonRoot(p) && forall k :: k in children <==> k in dfs && ChildOf(p, k)
    ensures forall k :: k in dfs ==> (Covered(children, k) <==> Below(p, k))
  {
    forall k | k in dfs ensures Covered(children, k) <==> Below(p, k) {
      if Below(p, k) {
        var c := ChildAbove(dfs, p, k);
        assert c in children;
      }
      if Covered(children, k) {
        var c :| c in children && AtOrBelow(c, k);
        BelowTransitive(p, c, k);
      }
    }
  }

  lemma {:induction false} SmallerTree(dfs0: map<Path, Kind>, dfs: map<Path, Kind>, p: Path, c: Path)
    requires ChildOf(p, c) && p in dfs0 && forall k :: k in dfs ==> k in dfs0
    ensures Subtree(dfs, c) < Subtree(dfs0, p)
  {
    forall k | k in Subtree(dfs, c) ensures k in Subtree(dfs0, p) { BelowTransitive(p, c, k); }
    assert p in Subtree(dfs0, p) && p !in Subtree(dfs, c);
  }

  /** What a traversal has done once the children in `cs` are dealt with. */
  ghost predicate Progress(dfs0: map<Path, Kind>, cache0: set<Path>, cs: set<Path>, dfs: map<Path, Kind>,
      cache: set<Path>) {
    && (forall k :: k in dfs <==> k in dfs0 && !Covered(cs, k))
    && (forall k :: k in dfs ==> dfs[k] == dfs0[k])
    && (forall k :: k in cache <==> k in cache0 && !(k in dfs0 && Covered(cs, k)))
  }

  function Children(dfs: map<Path, Kind>, p: Path): (cs: set<Path>)
    ensures forall k :: k in cs <==> k in dfs && ChildOf(p, k)
  {
    set k | k in dfs && ChildOf(p, k)
  }

  lemma {:induction false} AtStart(dfs: map<Path, Kind>, cache: set<Path>)
    ensures Progress(dfs, cache, {}, dfs, cache)
  {}

  /** When all children are dealt with, the directory is empty and can be removed. */
  lemma {:induction false} AtEnd(dfs0: map<Path, Kind>, cache0: set<Path>, p: Path, dfs: map<Path, Kind>,
      cache: set<Path>)
    requires Tree(dfs0) && NonRoot(p) && p in dfs0 && Progress(dfs0, cache0, Children(dfs0, p), dfs, cache)
    ensures p in dfs && forall k :: k in dfs ==> !Below(p, k)
    ensures dfs - {p} == Without(dfs0, p) && Tree(dfs - {p})
    ensures forall k :: k in cache <==> k in cache0 && !(k in dfs0 && Below(p, k))
  {
    hide Tree, Covered, Without, ChildOf, Below, Children;
    AllVisited(dfs0, p, Children(dfs0, p));
    assert !Below(p, p) by { NotBelowItself(p); }
    forall k ensures k in dfs - {p} <==> k in Without(dfs0, p) {}
    assert dfs - {p} == Without(dfs0, p);
    WithoutIsTree(dfs0, p);
  }

  lemma NotBelowItself(p: Path)
    ensures !Below(p, p)
  {}

  lemma {:induction false} Unvisited(dfs0: map<Path, Kind>, cache0: set<Path>, done: set<Path>,
                                     dfs: map<Path, Kind>, cache: set<Path>, p: Path, c: Path)
    requires Progress(dfs0, cache0, done, dfs, cache) && ChildOf(p, c) && c in dfs0 && c !in done
    requires forall d :: d in done ==> ChildOf(p, d)
    ensures c in dfs && NonRoot(c) && forall k :: k in dfs ==> k in dfs0
  {
    StillThere(p, c, done);
  }

  lemma {:induction false} FileGone(dfs: map<Path, Kind>, c: Path)
    requires Tree(dfs) && c in dfs && dfs[c] == File && NonRoot(c)
    ensures dfs - {c} == Without(dfs, c) && Tree(dfs - {c}) && forall k :: k in dfs ==> !Below(c, k)
  {
    hide Tree, Below, NonRoot;
    forall k | k in dfs ensures !Below(c, k) { NothingBelowFile(dfs, c, k); }
    WithoutIsTree(dfs, c);
    assert dfs - {c} == Without(dfs, c);
  }

  lemma {:induction false} ProgressStep(dfs0: map<Path, Kind>, cache0: set<Path>, done: set<Path>,
                                        dfs1: map<Path, Kind>, cache1: set<Path>, c: Path,
                                        dfs: map<Path, Kind>, cache: set<Path>)
    requires Progress(dfs0, cache0, done, dfs1, cache1) && dfs == Without(dfs1, c) && c in dfs1
    requires forall k :: k in cache <==> k in cache1 - {c} && !(k in dfs1 && Below(c, k))
    ensures Progress(dfs0, cache0, done + {c}, dfs, cache)
  {
    hide Covered, Below, Without;
    CoveredStep(done, c);
  }

  // ---- the server ----

  class Server {
    /** The file system beneath, and the keys of the metadata cache. */
    var dfs: map<Path, Kind>
    var cache: set<Path>

    constructor (dfs: map<Path, Kind>, cache: set<Path>)
      ensures this.dfs == dfs && this.cache == cache
    {
      this.dfs, this.cache := dfs, cache;
    }

    /**
     * `traversedir_dmkv_del`: the subtree disappears from the file system, the cache loses exactly the keys of
     * what was below the directory there, and nothing else changes. Entries are visited in any order, and both
     * `remove` and `rmdir` always succeed.
     */
    method TraverseDel(path: Path)
      requires Tree(dfs) && path in dfs && dfs[path] == Dir && NonRoot(path)
      modifies this
      ensures dfs == Without(old(dfs), path) && Tree(dfs)
      ensures forall k :: k in cache <==> k in old(cache) && !(k in old(dfs) && Below(path, k))
      decreases Subtree(dfs, path), 1
    {
      hide Tree, Covered, Without, ChildOf, Below, Children, Progress, NonRoot, Subtree;
      var children := Children(dfs, path);
      var todo := children;
      AtStart(dfs, cache);
      assert children - todo == {};
      while todo != {}
        invariant todo <= children
        invariant Tree(dfs)
        invariant Progress(old(dfs), old(cache), children - todo, dfs, cache)
        decreases todo
      {
        var c :| c in todo;
        ghost var done := children - todo;
        VisitChild(path, c, old(dfs), old(cache), done);
        todo := todo - {c};
        assert children - todo == done + {c};
      }
      assert children - todo == children;
      AtEnd(old(dfs), old(cache), path, dfs, cache);
      dfs := dfs - {path};
    }

    /** One entry of a directory: its key leaves the cache, then the file, or the whole subdirectory, goes. */
    method VisitChild(path: Path, c: Path, ghost dfs0: map<Path, Kind>, ghost cache0: set<Path>, ghost done: set<Path>)
      requires Tree(dfs0) && Tree(dfs) && Progress(dfs0, cache0, done, dfs, cache)
      requires path in dfs0 && ChildOf(path, c) && c in dfs0 && c !in done && forall d :: d in done ==> ChildOf(path, d)
      modifies this
      ensures Tree(dfs) && Progress(dfs0, cache0, done + {c}, dfs, cache)
      decreases Subtree(dfs0, path), 0
    {
      hide Tree, Covered, Without, ChildOf, Below, Progress, Subtree;
      ghost var dfs1, cache1 := dfs, cache;
      Unvisited(dfs0, cache0, done, dfs, cache, path, c);
      cache := cache - {c};
      if dfs[c] == Dir {
        SmallerTree(dfs0, dfs, path, c);
        TraverseDel(c);
      } else {
        FileGone(dfs, c);
        dfs := dfs - {c};
      }
      ProgressStep(dfs0, cache0, done, dfs1, cache1, c, dfs, cache);
    }

    /** `pacon_rmdir` after its request is answered: the server's part, then the client's delete of the key. */
    method Rmdir(path: Path)
      requires Tree(dfs) && path in dfs && dfs[path] == Dir && NonRoot(path)
      modifies this
      ensures dfs == Without(old(dfs), path) && Tree(dfs)
      ensures cache == CacheAfter(old(dfs), old(cache), path)
    {
      TraverseDel(path);
      cache := cache - {path};
    }
  }

  /** What `Rmdir` leaves in the cache, as a function of what was there before. */
  function CacheAfter(dfs: map<Path, Kind>, cache: set<Path>, path: Path): (r: set<Path>)
    ensures forall k :: k in r <==> k in cache && k != path && !(k in dfs && Below(path, k))
  {
    set k | k in cache && k != path && !(k in dfs && Below(path, k))
  }

  /**
   * The cache is free of the directory and of everything below it exactly when every key it held strictly below
   * the directory existed in the file system; a key that was not yet committed there survives.
   */
  lemma {:induction false} CacheIsCleanIff(dfs: map<Path, Kind>, cache: set<Path>, path: Path)
    ensures (forall k :: k in CacheAfter(dfs, cache, path) ==> !AtOrBelow(path, k))
      <==> (forall k :: k in cache && Below(path, k) ==> k in dfs)
  {
    var r := CacheAfter(dfs, cache, path);
    if forall k :: k in r ==> !AtOrBelow(path, k) {
      forall k | k in cache && Below(path, k) ensures k in dfs {
        assert k in r <==> k !in dfs;
      }
    }
  }

  /** An entry that is cached but not yet in the file system is left behind. */
  lemma UncommittedSurvives()
    ensures "/d/x" in CacheAfter(map["/d" := Dir], {"/d", "/d/x"}, "/d")
  {
    assert Below("/d", "/d/x");
  }
}
