/**
 The merges as Go runs them, on maps that live on the heap and may be shared: `mergeMaps`
 (pkg/helm/values.go) allocates its result and recursion allocates more, while `maps.Copy`
 overwrites its first argument (pkg/utils/file/yaml.go).
 A nil map is `null`; ranging over it yields nothing.
 */
module HeapMerge {
  import opened Text
  import opened ValueTree

  datatype Value = Scalar(scalar: string) | MapRef(m: GoMap?)

  class GoMap {
    var entries: map<Key, Value>

    constructor ()
      ensures entries == map[]
    {
      entries := map[];
    }
  }

  function Entries(m: GoMap?): map<Key, Value>
    reads m
  {
    if m == null then map[] else m.entries
  }

  function Lookup<V>(m: map<Key, V>, k: Key): Option<V> {
    if k in m then Some(m[k]) else None
  }

  /** `v` stands for the tree `t`, all maps met on the way being in `heap`. Maps may be shared. */
  ghost predicate Shows(v: Value, t: Tree, heap: set<GoMap>)
    reads heap
    decreases t
  {
    match v
    case Scalar(s) => t == Leaf(s)
    case MapRef(m) =>
      && t.Dict?
      && (m != null ==> m in heap)
      && (m == null ==> t.kids == map[])
      && (m != null ==> ShowsEntries(m.entries, t, heap))
  }

  ghost predicate ShowsEntries(entries: map<Key, Value>, t: Tree, heap: set<GoMap>)
    requires t.Dict?
    reads heap
    decreases t, 0
  {
    entries.Keys == t.kids.Keys && forall k | k in t.kids :: Shows(entries[k], t.kids[k], heap)
  }

  lemma {:induction false} ShowsMore(v: Value, t: Tree, heap: set<GoMap>, more: set<GoMap>)
    requires Shows(v, t, heap) && heap <= more
    ensures Shows(v, t, more)
    decreases t
  {
    if v.MapRef? && v.m != null {
      forall k | k in t.kids ensures Shows(v.m.entries[k], t.kids[k], more) {
        ShowsMore(v.m.entries[k], t.kids[k], heap, more);
      }
    }
  }

  lemma ShowsEntriesMore(entries: map<Key, Value>, t: Tree, heap: set<GoMap>, more: set<GoMap>)
    requires t.Dict? && ShowsEntries(entries, t, heap) && heap <= more
    ensures ShowsEntries(entries, t, more)
  {
    forall k | k in t.kids ensures Shows(entries[k], t.kids[k], more) {
      ShowsMore(entries[k], t.kids[k], heap, more);
    }
  }

  /** The result so far: the keys in `done` carry the merge, the others still what `a` had. */
  ghost function Partial(ta: Tree, tb: Tree, done: set<Key>): Tree
    requires ta.Dict? && tb.Dict? && done <= tb.kids.Keys
  {
    Dict(map k | k in ta.kids.Keys + done :: if k in done then MergeKey(ta, tb, k) else ta.kids[k])
  }

  /** Every entry that was not merged key by key is the very value of the input that decided it. */
  ghost predicate Shared(out: map<Key, Value>, ea: map<Key, Value>, eb: map<Key, Value>, done: set<Key>)
    requires done <= eb.Keys
  {
    && (forall k | k in ea && k !in done :: k in out && out[k] == ea[k])
    && (forall k | k in done && !(k in ea && ea[k].MapRef? && eb[k].MapRef?) :: k in out && out[k] == eb[k])
  }

  /** Shallow copy of `a` into a new map. */
  method CloneMap(a: GoMap?) returns (out: GoMap)
    ensures fresh(out) && out.entries == Entries(a)
  {
    out := new GoMap();
    var keys := Entries(a).Keys;
    while keys != {}
      invariant keys <= Entries(a).Keys
      invariant out.entries == Entries(a) - keys
      modifies out
      decreases keys
    {
      var k :| k in keys;
      out.entries := out.entries[k := Entries(a)[k]];
      keys := keys - {k};
    }
  }

  /**
   Merges `b` over `a`. Nothing that existed before is written (there is no `modifies` clause); the
   result and every map built on the way are new, and unmerged entries are shared with the inputs.
   */
  method MergeMaps(a: GoMap?, b: GoMap?, ghost ta: Tree, ghost tb: Tree, ghost heap: set<GoMap>)
    returns (out: GoMap, ghost grown: set<GoMap>)
    requires Shows(MapRef(a), ta, heap) && Shows(MapRef(b), tb, heap)
    ensures fresh(out) && out in grown && heap <= grown && fresh(grown - heap)
    ensures Shows(MapRef(out), Merge(ta, tb), grown)
    ensures Shared(out.entries, Entries(a), Entries(b), Entries(b).Keys)
    decreases tb, 0
  {
    ProgressStart(a, b, ta, tb, heap);
    hide Shows, ShowsEntries, Shared, Progress, Merge, Entries, Lookup;
    out := CloneMap(a);
    var ea, eb := Entries(a), Entries(b);
    grown := heap;
    ghost var done: set<Key> := {};
    var keys := eb.Keys;
    while keys != {}
      invariant done == eb.Keys - keys && keys <= eb.Keys
      invariant fresh(out) && out !in grown && heap <= grown && fresh(grown - heap)
      invariant ta.Dict? && tb.Dict? && Progress(out.entries, ea, eb, ta, tb, done, grown)
      modifies out
      decreases keys
    {
      var k :| k in keys;
      InTree(out.entries, ea, eb, ta, tb, done, k, grown);
      grown := MergeEntry(out, ea, eb, k, ta, tb, tb.kids[k], done, grown);
      done := done + {k};
      keys := keys - {k};
    }
    assert done == eb.Keys;
    Finished(out, ea, eb, ta, tb, grown);
    grown := grown + {out};
  }

  /** The body of the loop over `b`: merges one key into `out`. */
  method MergeEntry(out: GoMap, ghost ea: map<Key, Value>, eb: map<Key, Value>, k: Key,
                    ghost ta: Tree, ghost tb: Tree, ghost tv: Tree, ghost done: set<Key>, ghost heap: set<GoMap>)
    returns (ghost grown: set<GoMap>)
    requires ta.Dict? && tb.Dict? && k in tb.kids && tv == tb.kids[k]
    requires k in eb && k !in done && out !in heap && Progress(out.entries, ea, eb, ta, tb, done, heap)
    modifies out
    ensures heap <= grown && fresh(grown - heap) && Progress(out.entries, ea, eb, ta, tb, done + {k}, grown)
    decreases tv, 2
  {
    hide Shows, ShowsEntries, Shared, Progress, Merge, Lookup;
    var had := out.entries;
    ProgressAt(had, ea, eb, ta, tb, done, k, heap);
    var stored;
    stored, grown := MergeValue(Lookup(had, k), eb[k], Lookup(ta.kids, k), tv, heap);
    StoreMerged(had, ea, eb, ta, tb, done, k, stored, heap, grown);
    out.entries := had[k := stored];
  }

  /** The value stored for one key of `b`: a merged map when both sides are maps, else `v` itself. */
  method MergeValue(current: Option<Value>, v: Value, ghost tc: Option<Tree>, ghost tv: Tree, ghost heap: set<GoMap>)
    returns (stored: Value, ghost grown: set<GoMap>)
    requires current.Some? <==> tc.Some?
    requires current.Some? ==> Shows(current.value, tc.value, heap)
    requires Shows(v, tv, heap)
    ensures heap <= grown && fresh(grown - heap)
    ensures Shows(stored, MergeIn(tc, tv), grown)
    ensures !(current.Some? && current.value.MapRef? && v.MapRef?) ==> stored == v
    decreases tv, 1
  {
    if v.MapRef? && current.Some? && current.value.MapRef? {
      var merged;
      merged, grown := MergeMaps(current.value.m, v.m, tc.value, tv, heap);
      stored := MapRef(merged);
    } else {
      stored, grown := v, heap;
    }
  }

  /** Every key in `done` holds its merged value, and every other key what `a` had. */
  ghost predicate Progress(entries: map<Key, Value>, ea: map<Key, Value>, eb: map<Key, Value>,
                           ta: Tree, tb: Tree, done: set<Key>, heap: set<GoMap>)
    reads heap
  {
    && ta.Dict? && tb.Dict? && done <= tb.kids.Keys
    && ea.Keys == ta.kids.Keys && eb.Keys == tb.kids.Keys
    && ShowsEntries(eb, tb, heap)
    && ShowsEntries(entries, Partial(ta, tb, done), heap)
    && Shared(entries, ea, eb, done)
  }

  lemma ProgressStart(a: GoMap?, b: GoMap?, ta: Tree, tb: Tree, heap: set<GoMap>)
    requires Shows(MapRef(a), ta, heap) && Shows(MapRef(b), tb, heap)
    ensures ta.Dict? && tb.Dict? && Progress(Entries(a), Entries(a), Entries(b), ta, tb, {}, heap)
  {
    assert Partial(ta, tb, {}) == ta;
  }

  lemma InTree(had: map<Key, Value>, ea: map<Key, Value>, eb: map<Key, Value>, ta: Tree, tb: Tree,
               done: set<Key>, k: Key, heap: set<GoMap>)
    requires Progress(had, ea, eb, ta, tb, done, heap) && k in eb
    ensures k in tb.kids
  {
  }

  /** What is known of a key before it is merged. */
  lemma ProgressAt(had: map<Key, Value>, ea: map<Key, Value>, eb: map<Key, Value>, ta: Tree, tb: Tree,
                   done: set<Key>, k: Key, heap: set<GoMap>)
    requires Progress(had, ea, eb, ta, tb, done, heap) && k in eb && k !in done
    ensures k in tb.kids && Shows(eb[k], tb.kids[k], heap)
    ensures Lookup(had, k).Some? <==> Lookup(ta.kids, k).Some?
    ensures Lookup(had, k).Some? ==> Shows(Lookup(had, k).value, Lookup(ta.kids, k).value, heap)
    ensures Lookup(had, k) == Lookup(ea, k)
    ensures MergeKeyed(ta, tb, k) == MergeKey(ta, tb, k)
    ensures !(Lookup(had, k).Some? && Lookup(had, k).value.MapRef? && eb[k].MapRef?)
       <==> !(k in ea && ea[k].MapRef? && eb[k].MapRef?)
  {
    assert k in ta.kids ==> Partial(ta, tb, done).kids[k] == ta.kids[k];
  }

  /** `MergeKey` as one step of the loop sees it. */
  ghost function MergeKeyed(ta: Tree, tb: Tree, k: Key): Tree
    requires ta.Dict? && tb.Dict? && k in tb.kids
  {
    MergeIn(Lookup(ta.kids, k), tb.kids[k])
  }

  ghost function MergeIn(tc: Option<Tree>, tv: Tree): Tree {
    if tc.Some? && tc.value.Dict? && tv.Dict? then Merge(tc.value, tv) else tv
  }

  lemma StoreEntry(had: map<Key, Value>, ta: Tree, tb: Tree, done: set<Key>, k: Key, v: Value, heap: set<GoMap>)
    requires ta.Dict? && tb.Dict? && done <= tb.kids.Keys && k in tb.kids
    requires ShowsEntries(had, Partial(ta, tb, done), heap)
    requires Shows(v, MergeKey(ta, tb, k), heap)
    ensures ShowsEntries(had[k := v], Partial(ta, tb, done + {k}), heap)
  {
    var t := Partial(ta, tb, done + {k});
    forall j | j in t.kids ensures Shows(had[k := v][j], t.kids[j], heap) {
      assert j != k ==> t.kids[j] == Partial(ta, tb, done).kids[j];
    }
  }

  lemma ShareEntry(had: map<Key, Value>, ea: map<Key, Value>, eb: map<Key, Value>, done: set<Key>, k: Key, v: Value)
    requires done <= eb.Keys && k in eb && k !in done && Shared(had, ea, eb, done)
    requires !(k in ea && ea[k].MapRef? && eb[k].MapRef?) ==> v == eb[k]
    ensures Shared(had[k := v], ea, eb, done + {k})
  {
  }

  lemma StoreMerged(had: map<Key, Value>, ea: map<Key, Value>, eb: map<Key, Value>, ta: Tree, tb: Tree,
                    done: set<Key>, k: Key, v: Value, before: set<GoMap>, heap: set<GoMap>)
    requires Progress(had, ea, eb, ta, tb, done, before) && before <= heap && k in tb.kids && k !in done
    requires Shows(v, MergeKey(ta, tb, k), heap)
    requires !(k in ea && ea[k].MapRef? && eb[k].MapRef?) ==> v == eb[k]
    ensures Progress(had[k := v], ea, eb, ta, tb, done + {k}, heap)
  {
    assert ShowsEntries(eb, tb, heap) by {
      ShowsEntriesMore(eb, tb, before, heap);
    }
    assert ShowsEntries(had[k := v], Partial(ta, tb, done + {k}), heap) by {
      ShowsEntriesMore(had, Partial(ta, tb, done), before, heap);
      StoreEntry(had, ta, tb, done, k, v, heap);
    }
    ShareEntry(had, ea, eb, done, k, v);
  }

  lemma Finished(out: GoMap, ea: map<Key, Value>, eb: map<Key, Value>, ta: Tree, tb: Tree, heap: set<GoMap>)
    requires Progress(out.entries, ea, eb, ta, tb, eb.Keys, heap)
    ensures Shows(MapRef(out), Merge(ta, tb), heap + {out})
    ensures Shared(out.entries, ea, eb, eb.Keys)
  {
    assert Partial(ta, tb, eb.Keys) == Merge(ta, tb);
    ShowsEntriesMore(out.entries, Merge(ta, tb), heap, heap + {out});
  }

  /** `maps.Copy`: every entry of `src` is written into `dst`. */
  method CopyInto(dst: GoMap, src: GoMap?)
    requires dst != src
    modifies dst
    ensures dst.entries == old(dst.entries) + Entries(src)
  {
    var keys := Entries(src).Keys;
    while keys != {}
      invariant keys <= Entries(src).Keys
      invariant dst.entries == old(dst.entries) + (Entries(src) - keys)
      decreases keys
    {
      var k :| k in keys;
      dst.entries := dst.entries[k := Entries(src)[k]];
      keys := keys - {k};
    }
  }

  /** The merge inside `MergeYAML`, on the two decoded documents. */
  method MergeDocuments(dst: GoMap, src: GoMap?, ghost td: Tree, ghost ts: Tree, ghost heap: set<GoMap>)
    requires td.Dict? && ts.Dict? && dst != src && dst !in heap
    requires ShowsEntries(dst.entries, td, heap) && ShowsEntries(Entries(src), ts, heap)
    modifies dst
    ensures Shows(MapRef(dst), ShallowMerge(td, ts), heap + {dst})
    ensures ShowsEntries(Entries(src), ts, heap)
  {
    CopyInto(dst, src);
    assert ShowsEntries(dst.entries, ShallowMerge(td, ts), heap);
    ShowsEntriesMore(dst.entries, ShallowMerge(td, ts), heap, heap + {dst});
  }
}
