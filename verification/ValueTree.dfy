/**
 Helm values as trees, and the two merges of them: the recursive `mergeMaps` (pkg/helm/values.go)
 and the one-level `maps.Copy` of `MergeYAML` (pkg/utils/file/yaml.go).
 A tree is described from outside by what stands at each key path; every algebraic law below is
 derived from that description.
 */
module ValueTree {

  /** A decoded YAML value: a mapping, or anything else (scalars and lists are replaced as a whole). */
  datatype Tree = Leaf(scalar: string) | Dict(kids: map<string, Tree>)

  type Key = string

  // ---- The two merges ----

  function Merge(a: Tree, b: Tree): (r: Tree)
    requires a.Dict? && b.Dict?
    ensures r.Dict?
    decreases b
  {
    Dict(map k | k in a.kids.Keys + b.kids.Keys :: MergeKey(a, b, k))
  }

  function MergeKey(a: Tree, b: Tree, k: Key): Tree
    requires a.Dict? && b.Dict? && k in a.kids.Keys + b.kids.Keys
    decreases b, 0
  {
    if k !in b.kids then a.kids[k]
    else if b.kids[k].Dict? && k in a.kids && a.kids[k].Dict? then Merge(a.kids[k], b.kids[k])
    else b.kids[k]
  }

  function ShallowMerge(dst: Tree, src: Tree): Tree
    requires dst.Dict? && src.Dict?
  {
    Dict(dst.kids + src.kids)
  }

  // ---- What stands at a key path ----

  datatype Found = Absent | AMap | ALeaf(scalar: string)

  function At(t: Tree, path: seq<Key>): Found {
    if path == [] then (if t.Dict? then AMap else ALeaf(t.scalar))
    else if t.Dict? && path[0] in t.kids then At(t.kids[path[0]], path[1..])
    else Absent
  }

  /** A leaf stands strictly above `path`, so nothing can stand at it. */
  predicate Blocks(t: Tree, path: seq<Key>) {
    exists n | 0 <= n < |path| :: At(t, path[..n]).ALeaf?
  }

  lemma {:induction false} AtPrefix(t: Tree, path: seq<Key>, n: nat)
    requires n < |path| && !At(t, path[..n]).AMap?
    ensures At(t, path) == Absent
  {
    if n > 0 && t.Dict? && path[0] in t.kids {
      assert path[..n][1..] == path[1..][..n - 1];
      AtPrefix(t.kids[path[0]], path[1..], n - 1);
    }
  }

  lemma BlocksAbsent(t: Tree, path: seq<Key>)
    requires Blocks(t, path)
    ensures At(t, path) == Absent
  {
    var n :| 0 <= n < |path| && At(t, path[..n]).ALeaf?;
    AtPrefix(t, path, n);
  }

  lemma BlocksStep(t: Tree, path: seq<Key>)
    requires t.Dict? && path != []
    ensures Blocks(t, path) <==> path[0] in t.kids && Blocks(t.kids[path[0]], path[1..])
  {
    var k, rest := path[0], path[1..];
    if Blocks(t, path) {
      var n :| 0 <= n < |path| && At(t, path[..n]).ALeaf?;
      assert path[..n][1..] == rest[..n - 1];
    }
    if k in t.kids && Blocks(t.kids[k], rest) {
      var n :| 0 <= n < |rest| && At(t.kids[k], rest[..n]).ALeaf?;
      assert path[..n + 1][1..] == rest[..n];
      assert At(t, path[..n + 1]).ALeaf?;
    }
  }

  lemma AtKey(t: Tree, k: Key)
    ensures At(t, [k]) == Absent <==> !(t.Dict? && k in t.kids)
  {
    assert [k][1..] == [];
  }

  /** Two trees with the same thing at every path are the same tree. */
  lemma {:induction false} Extensional(x: Tree, y: Tree)
    requires forall p :: At(x, p) == At(y, p)
    ensures x == y
    decreases x
  {
    assert At(x, []) == At(y, []);
    if x.Dict? {
      forall k ensures k in x.kids <==> k in y.kids {
        assert At(x, [k]) == At(y, [k]);
        AtKey(x, k);
        AtKey(y, k);
      }
      forall k | k in x.kids ensures x.kids[k] == y.kids[k] {
        forall p ensures At(x.kids[k], p) == At(y.kids[k], p) {
          assert ([k] + p)[1..] == p;
          assert At(x, [k] + p) == At(y, [k] + p);
        }
        Extensional(x.kids[k], y.kids[k]);
      }
    }
  }

  // ---- mergeMaps by paths ----

  /** What must stand at `path` after `b` is merged over `a`. */
  ghost function Overridden(a: Tree, b: Tree, path: seq<Key>): Found {
    if At(b, path) != Absent then At(b, path)
    else if Blocks(b, path) then Absent
    else At(a, path)
  }

  /** `b` decides wherever it says something or has a leaf above; everywhere else `a` shows through. */
  lemma {:induction false} MergeAt(a: Tree, b: Tree, path: seq<Key>)
    requires a.Dict? && b.Dict?
    ensures At(Merge(a, b), path) == Overridden(a, b, path)
    decreases |path|
  {
    if path != [] {
      var k, rest := path[0], path[1..];
      BlocksStep(b, path);
      if k in b.kids {
        if b.kids[k].Dict? && k in a.kids && a.kids[k].Dict? {
          MergeAt(a.kids[k], b.kids[k], rest);
        } else if b.kids[k].Leaf? && rest != [] {
          assert At(b.kids[k], rest[..0]).ALeaf?;
        } else {
          assert At(Merge(a, b), path) == At(b.kids[k], rest);
          assert rest == [] ==> At(b.kids[k], rest) != Absent;
          assert rest != [] && k in a.kids && a.kids[k].Leaf? ==> At(a.kids[k], rest) == Absent;
          assert At(a, path) == if k in a.kids then At(a.kids[k], rest) else Absent;
          if Blocks(b.kids[k], rest) {
            BlocksAbsent(b.kids[k], rest);
          }
        }
      }
    }
  }

  /** The path description pins the merge down: any tree meeting it is the merge. */
  lemma MergeUnique(a: Tree, b: Tree, r: Tree)
    requires a.Dict? && b.Dict?
    requires forall p :: At(r, p) == Overridden(a, b, p)
    ensures r == Merge(a, b)
  {
    forall p ensures At(r, p) == At(Merge(a, b), p) {
      MergeAt(a, b, p);
    }
    Extensional(r, Merge(a, b));
  }

  /** The empty map is a two-sided identity. */
  lemma MergeIdentity(a: Tree)
    requires a.Dict?
    ensures Merge(a, Dict(map[])) == a && Merge(Dict(map[]), a) == a
  {
  }

  lemma {:induction false} MergeIdempotent(a: Tree)
    requires a.Dict?
    ensures Merge(a, a) == a
  {
    forall p ensures At(a, p) == Overridden(a, a, p) {
    }
    MergeUnique(a, a, a);
  }

  lemma MergeAbsorbs(a: Tree, b: Tree)
    requires a.Dict? && b.Dict?
    ensures Merge(Merge(a, b), b) == Merge(a, b)
  {
    var m := Merge(a, b);
    forall p ensures At(m, p) == Overridden(m, b, p) {
      MergeAt(a, b, p);
    }
    MergeUnique(m, b, m);
  }

  /** From `q` down, whatever `a` holds is either present in `c` or cut off by one of its leaves. */
  ghost predicate Covers(c: Tree, a: Tree, q: seq<Key>) {
    forall p | q <= p && At(a, p) != Absent :: At(c, p) != Absent || Blocks(c, p)
  }

  /** Merging `y` over `x` gives just `y` exactly when `y` covers all of `x`. */
  lemma MergeYieldsSecond(x: Tree, y: Tree)
    requires x.Dict? && y.Dict?
    ensures Merge(x, y) == y <==> Covers(y, x, [])
  {
    if Merge(x, y) == y {
      forall p | At(x, p) != Absent ensures At(y, p) != Absent || Blocks(y, p) {
        MergeAt(x, y, p);
      }
    }
    if Covers(y, x, []) {
      forall p ensures At(y, p) == Overridden(x, y, p) {
        assert [] <= p;
      }
      MergeUnique(x, y, y);
    }
  }

  // ---- Associativity ----

  /** No leaf of `b` that separates a map of `a` from a map of `c` loses anything `c` does not cover. */
  ghost predicate Reassociable(a: Tree, b: Tree, c: Tree) {
    forall q | At(a, q).AMap? && At(b, q).ALeaf? && At(c, q).AMap? :: Covers(c, a, q)
  }

  lemma BlocksPrefix(t: Tree, path: seq<Key>, n: nat)
    requires n <= |path| && Blocks(t, path[..n])
    ensures Blocks(t, path)
  {
    var m :| 0 <= m < n && At(t, path[..n][..m]).ALeaf?;
    assert path[..n][..m] == path[..m];
  }

  /** A leaf met in the merge of `b` and `c` comes from one of them. */
  lemma BlocksMerged(b: Tree, c: Tree, path: seq<Key>)
    requires b.Dict? && c.Dict? && Blocks(Merge(b, c), path) && !Blocks(c, path)
    ensures exists n :: 0 <= n < |path| && At(b, path[..n]).ALeaf? && At(c, path[..n]) == Absent
  {
    var n :| 0 <= n < |path| && At(Merge(b, c), path[..n]).ALeaf?;
    MergeAt(b, c, path[..n]);
  }

  /** A leaf of `b` on the way that `c` leaves alone is still there after merging. */
  lemma BlocksKept(b: Tree, c: Tree, path: seq<Key>, n: nat)
    requires b.Dict? && c.Dict? && !Blocks(c, path)
    requires n < |path| && At(b, path[..n]).ALeaf? && At(c, path[..n]) == Absent
    ensures Blocks(Merge(b, c), path)
  {
    MergeAt(b, c, path[..n]);
    if Blocks(c, path[..n]) {
      BlocksPrefix(c, path, n);
    }
  }

  lemma AssocAt(a: Tree, b: Tree, c: Tree, p: seq<Key>)
    requires a.Dict? && b.Dict? && c.Dict? && Reassociable(a, b, c)
    ensures Overridden(Merge(a, b), c, p) == Overridden(a, Merge(b, c), p)
  {
    MergeAt(a, b, p);
    MergeAt(b, c, p);
    if At(c, p) == Absent {
      if Blocks(c, p) {
        var n :| 0 <= n < |p| && At(c, p[..n]).ALeaf?;
        MergeAt(b, c, p[..n]);
      } else if At(b, p) == Absent {
        if Blocks(b, p) {
          var n :| 0 <= n < |p| && At(b, p[..n]).ALeaf?;
          if At(c, p[..n]) == Absent {
            BlocksKept(b, c, p, n);
          } else {
            assert p[..n] <= p;
            if !At(a, p[..n]).AMap? {
              AtPrefix(a, p, n);
            }
          }
        } else if Blocks(Merge(b, c), p) {
          BlocksMerged(b, c, p);
        }
      }
    }
  }

  lemma OneLeafOnPath(t: Tree, path: seq<Key>, n: nat, m: nat)
    requires n <= |path| && m <= |path| && At(t, path[..n]).ALeaf? && At(t, path[..m]).ALeaf?
    ensures n == m
  {
    if n < m {
      assert path[..m][..n] == path[..n];
      AtPrefix(t, path[..m], n);
    } else if m < n {
      assert path[..n][..m] == path[..m];
      AtPrefix(t, path[..n], m);
    }
  }

  lemma MapReplacesLeaf(b: Tree, c: Tree, p: seq<Key>, n: nat)
    requires b.Dict? && c.Dict? && n <= |p| && !Blocks(c, p)
    requires At(b, p[..n]).ALeaf? && At(c, p[..n]).AMap?
    ensures !Blocks(Merge(b, c), p)
  {
    if Blocks(Merge(b, c), p) {
      BlocksMerged(b, c, p);
      var m :| 0 <= m < |p| && At(b, p[..m]).ALeaf? && At(c, p[..m]) == Absent;
      OneLeafOnPath(b, p, n, m);
    }
  }

  lemma AssocFails(a: Tree, b: Tree, c: Tree, p: seq<Key>, n: nat)
    requires a.Dict? && b.Dict? && c.Dict? && n < |p|
    requires At(b, p[..n]).ALeaf? && At(c, p[..n]).AMap?
    requires At(a, p) != Absent && At(c, p) == Absent && !Blocks(c, p)
    ensures At(Merge(Merge(a, b), c), p) == Absent
    ensures At(Merge(a, Merge(b, c)), p) == At(a, p)
  {
    AtPrefix(b, p, n);
    MergeAt(a, b, p);
    MergeAt(Merge(a, b), c, p);
    MergeAt(b, c, p);
    MergeAt(a, Merge(b, c), p);
    MapReplacesLeaf(b, c, p, n);
  }

  /** Three overrides may be merged in either grouping exactly when they are `Reassociable`. */
  lemma MergeAssociative(a: Tree, b: Tree, c: Tree)
    requires a.Dict? && b.Dict? && c.Dict?
    ensures Merge(Merge(a, b), c) == Merge(a, Merge(b, c)) <==> Reassociable(a, b, c)
  {
    if Reassociable(a, b, c) {
      forall p ensures At(Merge(Merge(a, b), c), p) == Overridden(a, Merge(b, c), p) {
        MergeAt(Merge(a, b), c, p);
        AssocAt(a, b, c, p);
      }
      MergeUnique(a, Merge(b, c), Merge(Merge(a, b), c));
    } else {
      var q :| At(a, q).AMap? && At(b, q).ALeaf? && At(c, q).AMap? && !Covers(c, a, q);
      var p :| q <= p && At(a, p) != Absent && At(c, p) == Absent && !Blocks(c, p);
      assert p[..|q|] == q && (|q| == |p| ==> q == p);
      AssocFails(a, b, c, p, |q|);
    }
  }

  /** The smallest loss: a map, a scalar and a map under one key. */
  lemma AssociativityWitness(k: Key, x: Key, y: Key, s: string)
    requires x != y
    ensures var a, b, c := Dict(map[k := Dict(map[x := Leaf(s)])]), Dict(map[k := Leaf(s)]), Dict(map[k := Dict(map[y := Leaf(s)])]);
            Merge(Merge(a, b), c) != Merge(a, Merge(b, c))
  {
    var a, b, c := Dict(map[k := Dict(map[x := Leaf(s)])]), Dict(map[k := Leaf(s)]), Dict(map[k := Dict(map[y := Leaf(s)])]);
    assert At(a, [k]).AMap? && At(b, [k]).ALeaf? && At(c, [k]).AMap?;
    assert [k, x][1..] == [x] && [x][1..] == [];
    assert At(a.kids[k], [x]) == At(Leaf(s), []) && At(c.kids[k], [x]) == Absent;
    assert At(a, [k, x]) == ALeaf(s) && At(c, [k, x]) == Absent;
    assert [k, x][..0] == [] && [k, x][..1] == [k];
    assert !Blocks(c, [k, x]);
    AssocFails(a, b, c, [k, x], 1);
  }

  // ---- MergeYAML ----

  /** What must stand at `path` after the one-level merge: its first key decides. */
  function Replaced(dst: Tree, src: Tree, path: seq<Key>): Found {
    if path == [] then AMap
    else if src.Dict? && path[0] in src.kids then At(src, path)
    else At(dst, path)
  }

  /** Below a key of `src` the result has what `src` has there, and below any other key what `dst` has. */
  lemma ShallowAt(dst: Tree, src: Tree, path: seq<Key>)
    requires dst.Dict? && src.Dict?
    ensures At(ShallowMerge(dst, src), path) == Replaced(dst, src, path)
  {
  }

  /** No other tree meets that description. */
  lemma ShallowUnique(dst: Tree, src: Tree, r: Tree)
    requires dst.Dict? && src.Dict? && forall p :: At(r, p) == Replaced(dst, src, p)
    ensures r == ShallowMerge(dst, src)
  {
    forall p ensures At(r, p) == At(ShallowMerge(dst, src), p) {
      ShallowAt(dst, src, p);
    }
    Extensional(r, ShallowMerge(dst, src));
  }

  lemma ShallowKey(dst: Tree, src: Tree, k: Key)
    requires dst.Dict? && src.Dict? && k in dst.kids.Keys + src.kids.Keys
    ensures var shared := k in dst.kids && k in src.kids && dst.kids[k].Dict? && src.kids[k].Dict?;
            ShallowMerge(dst, src).kids[k] == Merge(dst, src).kids[k] <==> (shared ==> Covers(src.kids[k], dst.kids[k], []))
  {
    if k in dst.kids && k in src.kids && dst.kids[k].Dict? && src.kids[k].Dict? {
      MergeYieldsSecond(dst.kids[k], src.kids[k]);
    }
  }

  /** The one-level merge agrees with the deep one exactly when each map of `src` covers the map it replaces. */
  lemma ShallowAgrees(dst: Tree, src: Tree)
    requires dst.Dict? && src.Dict?
    ensures ShallowMerge(dst, src) == Merge(dst, src)
       <==> forall k | k in dst.kids && k in src.kids && dst.kids[k].Dict? && src.kids[k].Dict? ::
              Covers(src.kids[k], dst.kids[k], [])
  {
    forall k | k in dst.kids.Keys + src.kids.Keys {
      ShallowKey(dst, src, k);
    }
    assert ShallowMerge(dst, src).kids.Keys == Merge(dst, src).kids.Keys == dst.kids.Keys + src.kids.Keys;
  }

  /** One shared key with a map on each side: the one-level merge drops what the deep one keeps. */
  lemma ShallowWitness(k: Key, x: Key, y: Key, s: string)
    requires x != y
    ensures var dst, src := Dict(map[k := Dict(map[x := Leaf(s)])]), Dict(map[k := Dict(map[y := Leaf(s)])]);
            && At(ShallowMerge(dst, src), [k, x]) == Absent && At(Merge(dst, src), [k, x]) == ALeaf(s)
            && ShallowMerge(dst, src) != Merge(dst, src)
  {
    var dst, src := Dict(map[k := Dict(map[x := Leaf(s)])]), Dict(map[k := Dict(map[y := Leaf(s)])]);
    assert [k, x][1..] == [x] && [x][1..] == [];
    assert At(dst.kids[k], [x]) == At(Leaf(s), []) && At(src.kids[k], [x]) == Absent;
    assert ShallowMerge(dst, src).kids[k] == src.kids[k];
    MergeAt(dst, src, [k, x]);
    assert [k, x][..0] == [] && [k, x][..1] == [k];
    assert At(src, [k]) == At(src.kids[k], []) by {
      assert [k][1..] == [];
    }
    assert !Blocks(src, [k, x]);
  }
}
