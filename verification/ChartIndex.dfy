/**
 The clean-up loop over one chart's versions in the index file, and the choice of the latest one
 (pkg/artifacts/manager.go). A Go slice is an array with a length of its own: deleting shortens the
 loop's local slice and shifts cells of the array it shares with `Entries`, whose own length stays.
 */
module ChartIndex {
  import opened Text
  import opened Semver

  const API_VERSION_V1 := "v1"

  /** `version`: the parsed version, if it parses; `restValid`: all else that `Validate` checks besides the API version. */
  class ChartVersion {
    var apiVersion: string
    const version: Option<Version>
    const urls: seq<string>
    const restValid: bool

    constructor (apiVersion: string, version: Option<Version>, urls: seq<string>, restValid: bool)
      ensures this.apiVersion == apiVersion && this.version == version && this.urls == urls && this.restValid == restValid
    {
      this.apiVersion, this.version, this.urls, this.restValid := apiVersion, version, urls, restValid;
    }

    /** What no default can repair. A version that does not parse is invalid. */
    predicate Sound() {
      version.Some? && restValid
    }

    predicate Validate()
      reads this
    {
      apiVersion != "" && Sound()
    }
  }

  type Entry = ChartVersion?

  /** What the loop keeps: nil entries, and entries valid once their API version is defaulted. */
  predicate Keep(e: Entry) {
    e == null || e.Sound()
  }

  function Filter(s: seq<Entry>): (r: seq<Entry>)
    ensures |r| <= |s|
  {
    if s == [] then [] else (if Keep(s[0]) then [s[0]] else []) + Filter(s[1..])
  }

  /** The backing array after the loop, cell by cell: a deletion shifts the kept entries behind it down by one. */
  function Swept(s: seq<Entry>): (r: seq<Entry>)
    ensures |r| == |s|
  {
    if s == [] then []
    else
      var rest, m := Swept(s[1..]), |Filter(s[1..])|;
      if Keep(s[0]) then [s[0]] + rest
      else rest[..m] + [if m == 0 then s[0] else rest[m - 1]] + rest[m..]
  }

  // ---- The loop ----

  /** `append(cvs[:idx], cvs[idx+1:]...)` on the first `len` cells. */
  method DeleteAt(cells: array<Entry>, idx: nat, len: nat)
    requires idx < len <= cells.Length
    modifies cells
    ensures cells[..] == old(cells[..idx]) + old(cells[idx + 1..len]) + old(cells[len - 1..])
  {
    forall k | idx <= k < len - 1 {
      cells[k] := cells[k + 1];
    }
  }

  function Defaulted(apiVersion: string): string {
    if apiVersion == "" then API_VERSION_V1 else apiVersion
  }

  method SetDefault(e: ChartVersion) returns (ok: bool)
    modifies e
    ensures e.apiVersion == Defaulted(old(e.apiVersion)) && ok == e.Validate()
    ensures e.apiVersion != "" && Defaulted(e.apiVersion) == Defaulted(old(e.apiVersion))
  {
    if e.apiVersion == "" {
      e.apiVersion := API_VERSION_V1;
    }
    ok := e.Validate();
  }

  /** The API versions the entries have now. */
  ghost function ApiVersions(entries: seq<Entry>): (r: seq<string>)
    reads set e: ChartVersion | e in entries
    ensures |r| == |entries|
  {
    seq(|entries|, k requires 0 <= k < |entries| reads set e: ChartVersion | e in entries =>
      if entries[k] == null then "" else entries[k].apiVersion)
  }

  /** The API versions while the loop is at `idx`: those it has passed are defaulted. */
  ghost predicate Versions(before: seq<Entry>, named: seq<string>, idx: nat)
    requires |named| == |before|
    reads set e: ChartVersion | e in before
  {
    forall k | 0 <= k < |before| && before[k] != null ::
      && Defaulted(before[k].apiVersion) == Defaulted(named[k])
      && (idx <= k ==> before[k].apiVersion != "")
  }

  /** One turn of the loop: the entry at `idx` is defaulted, and deleted when it is still invalid. */
  method Visit(cells: array<Entry>, idx: nat, len: nat, ghost before: seq<Entry>, ghost named: seq<string>) returns (left: nat)
    requires Progress(before, idx + 1, cells[..], len)
    requires |named| == |before| && Versions(before, named, idx + 1)
    modifies cells, if before[idx] == null then {} else {before[idx]}
    ensures Progress(before, idx, cells[..], left) && Versions(before, named, idx)
  {
    AtNext(before, idx, cells[..], len);
    left := len;
    var e := cells[idx];
    var keep := true;
    if e != null {
      keep := SetDefault(e);
    }
    if keep {
      KeepStep(before, idx, cells[..], len);
    } else {
      ghost var was := cells[..];
      DeleteAt(cells, idx, len);
      DeleteStep(before, idx, was, cells[..], len);
      left := len - 1;
    }
  }

  /** Deletes invalid entries in place, from the back; `len` is the length of the local slice at the end. */
  method CleanUp(cells: array<Entry>) returns (len: nat)
    modifies cells
    modifies set e | e in cells[..] && e != null
    ensures cells[..] == Swept(old(cells[..])) && len == |Filter(old(cells[..]))|
    ensures forall k | 0 <= k < cells.Length && old(cells[k]) != null ::
              old(cells[k]).apiVersion == if old(cells[k].apiVersion) == "" then "v1" else old(cells[k].apiVersion)
  {
    ghost var before, named := cells[..], ApiVersions(cells[..]);
    len := cells.Length;
    var idx: nat := cells.Length;
    while idx > 0
      invariant Progress(before, idx, cells[..], len)
      invariant Versions(before, named, idx)
    {
      idx := idx - 1;
      len := Visit(cells, idx, len, before, named);
    }
    assert before[0..] == before && cells[..][0..] == cells[..];
  }

  /** Cells below `idx` are untouched; those from `idx` on hold what the sweep leaves of them. */
  ghost predicate Progress(before: seq<Entry>, idx: nat, cells: seq<Entry>, len: nat) {
    && idx <= |before| == |cells|
    && len == idx + |Filter(before[idx..])|
    && cells[..idx] == before[..idx]
    && cells[idx..] == Swept(before[idx..])
  }

  lemma AtNext(before: seq<Entry>, idx: nat, cells: seq<Entry>, len: nat)
    requires Progress(before, idx + 1, cells, len)
    ensures cells[idx] == before[idx] && idx < len <= |cells|
  {
    assert cells[idx] == cells[..idx + 1][idx] == before[..idx + 1][idx];
  }

  lemma KeepStep(before: seq<Entry>, idx: nat, cells: seq<Entry>, len: nat)
    requires Progress(before, idx + 1, cells, len) && Keep(before[idx])
    ensures Progress(before, idx, cells, len)
  {
    AtNext(before, idx, cells, len);
    assert cells[..idx] == cells[..idx + 1][..idx] == before[..idx];
    assert before[idx..][1..] == before[idx + 1..];
    assert cells[idx..] == [before[idx]] + cells[idx + 1..];
  }

  /** What a deletion at `idx` does to an array whose cells behind `idx` are `rest`, the first `m` of them in the slice. */
  lemma DeletedCells<T>(was: seq<T>, idx: nat, m: nat, rest: seq<T>, cells: seq<T>)
    requires idx < |was| && was[idx + 1..] == rest && m <= |rest|
    requires cells == was[..idx] + was[idx + 1..idx + 1 + m] + was[idx + m..]
    ensures cells[..idx] == was[..idx]
    ensures cells[idx..] == rest[..m] + [if m == 0 then was[idx] else rest[m - 1]] + rest[m..]
  {
    assert was[idx + 1..idx + 1 + m] == rest[..m];
    assert was[idx + m..] == [was[idx + m]] + rest[m..];
  }

  lemma DeleteStep(before: seq<Entry>, idx: nat, was: seq<Entry>, cells: seq<Entry>, len: nat)
    requires Progress(before, idx + 1, was, len) && !Keep(before[idx]) && len <= |was|
    requires cells == was[..idx] + was[idx + 1..len] + was[len - 1..]
    ensures Progress(before, idx, cells, len - 1)
  {
    var m := |Filter(before[idx + 1..])|;
    AtNext(before, idx, was, len);
    DeletedCells(was, idx, m, Swept(before[idx + 1..]), cells);
    assert was[..idx] == before[..idx] by {
      assert was[..idx] == was[..idx + 1][..idx];
    }
    SweptDeleting(before, idx);
  }

  lemma SweptDeleting(before: seq<Entry>, idx: nat)
    requires idx < |before| && !Keep(before[idx])
    ensures var rest, m := Swept(before[idx + 1..]), |Filter(before[idx + 1..])|;
            Swept(before[idx..]) == rest[..m] + [if m == 0 then before[idx] else rest[m - 1]] + rest[m..]
    ensures Filter(before[idx..]) == Filter(before[idx + 1..])
  {
    assert before[idx..][1..] == before[idx + 1..];
  }

  // ---- What is left where ----

  /** The number of entries to be deleted at the very end. */
  function Trailing(s: seq<Entry>): (t: nat)
    ensures t <= |s|
  {
    if s == [] || Keep(s[|s| - 1]) then 0 else 1 + Trailing(s[..|s| - 1])
  }

  function Repeat(e: Entry, n: nat): seq<Entry> {
    seq(n, i => e)
  }

  lemma {:induction false} TrailingCons(s: seq<Entry>)
    requires s != []
    ensures Trailing(s) == if Filter(s[1..]) == [] && !Keep(s[0]) then |s| else Trailing(s[1..])
    ensures Filter(s[1..]) == [] ==> Trailing(s[1..]) == |s| - 1
    decreases |s|
  {
    var n := |s| - 1;
    if n > 0 {
      assert s[..n][1..] == s[1..][..n - 1];
      TrailingCons(s[..n]);
      FilterSnoc(s[1..]);
      assert s[1..][n - 1] == s[n];
    }
  }

  lemma {:induction false} FilterConcat(xs: seq<Entry>, ys: seq<Entry>)
    ensures Filter(xs + ys) == Filter(xs) + Filter(ys)
  {
    if xs == [] {
      assert xs + ys == ys;
    } else {
      assert (xs + ys)[0] == xs[0] && (xs + ys)[1..] == xs[1..] + ys;
      FilterConcat(xs[1..], ys);
    }
  }

  lemma FilterSnoc(s: seq<Entry>)
    requires s != []
    ensures Filter(s) == Filter(s[..|s| - 1]) + if Keep(s[|s| - 1]) then [s[|s| - 1]] else []
  {
    var n := |s| - 1;
    assert s == s[..n] + [s[n]];
    FilterConcat(s[..n], [s[n]]);
    assert [s[n]][1..] == [];
  }

  /** The kept entries, copies of the last one, and a tail. */
  ghost predicate Shape(cells: seq<Entry>, kept: seq<Entry>, copies: nat, tail: seq<Entry>)
    requires kept != []
  {
    cells == kept + Repeat(kept[|kept| - 1], copies) + tail
  }

  lemma ShapeKeep(x: Entry, cells: seq<Entry>, kept: seq<Entry>, copies: nat, tail: seq<Entry>)
    requires kept != [] && Shape(cells, kept, copies, tail)
    ensures Shape([x] + cells, [x] + kept, copies, tail)
  {
    assert [x] + (kept + Repeat(kept[|kept| - 1], copies) + tail) == ([x] + kept) + Repeat(kept[|kept| - 1], copies) + tail;
  }

  lemma ShapeDelete(cells: seq<Entry>, kept: seq<Entry>, copies: nat, tail: seq<Entry>)
    requires kept != [] && Shape(cells, kept, copies, tail)
    ensures Shape(cells[..|kept|] + [cells[|kept| - 1]] + cells[|kept|..], kept, copies + 1, tail)
  {
    var last := kept[|kept| - 1];
    assert cells[..|kept|] == kept;
    assert cells[|kept|..] == Repeat(last, copies) + tail;
    assert Repeat(last, copies + 1) == [last] + Repeat(last, copies);
  }

  lemma ShapeLastKept(s: seq<Entry>)
    requires Filter(s) != [] && Filter(s[1..]) == []
    ensures Trailing(s) == |s| - 1 && Filter(s) == [s[0]]
    ensures Shape(Swept(s), [s[0]], 0, s[1..])
  {
    TrailingCons(s);
    SweptNothing(s[1..]);
    assert Repeat(s[0], 0) == [];
  }

  /**
   The array in closed form: the kept entries in their order, then copies of the last kept one for every
   deletion before it, then the invalid entries that stood at the end, which no deletion ever overwrites.
   */
  ghost predicate ClosedForm(s: seq<Entry>)
    requires Filter(s) != []
  {
    && Trailing(s) + |Filter(s)| <= |s|
    && Shape(Swept(s), Filter(s), |s| - Trailing(s) - |Filter(s)|, s[|s| - Trailing(s)..])
  }

  lemma {:induction false} SweptShape(s: seq<Entry>)
    requires Filter(s) != []
    ensures ClosedForm(s)
    decreases |s|
  {
    SomeEntry(s);
    hide Filter, ClosedForm;
    if Filter(s[1..]) == [] {
      ShapeLast(s);
    } else {
      SweptShape(s[1..]);
      ShapeNext(s);
    }
  }

  lemma SomeEntry(s: seq<Entry>)
    requires Filter(s) != []
    ensures s != []
  {
  }

  lemma ShapeLast(s: seq<Entry>)
    requires s != [] && Filter(s) != [] && Filter(s[1..]) == []
    ensures ClosedForm(s)
  {
    ShapeLastKept(s);
  }

  lemma TailOfTail<T>(s: seq<T>, n: nat)
    requires n < |s|
    ensures s[1..][|s| - 1 - n..] == s[|s| - n..]
  {
  }

  lemma ShapeNext(s: seq<Entry>)
    requires s != [] && Filter(s[1..]) != [] && ClosedForm(s[1..])
    ensures Filter(s) != [] && ClosedForm(s)
  {
    hide Shape, Swept, Filter, Trailing;
    var r := s[1..];
    var n, tail := |r| - Trailing(r) - |Filter(r)|, r[|r| - Trailing(r)..];
    ShapeCons(s, n, tail);
    NextCounts(s, n, tail);
  }

  lemma NextCounts(s: seq<Entry>, n: nat, tail: seq<Entry>)
    requires s != [] && Filter(s[1..]) != []
    requires var r := s[1..]; Trailing(r) + |Filter(r)| + n == |r| && tail == r[|r| - Trailing(r)..]
    ensures Trailing(s) + |Filter(s)| + (if Keep(s[0]) then n else n + 1) == |s|
    ensures tail == s[|s| - Trailing(s)..]
  {
    TrailingCons(s);
    FilterHead(s);
    TailOfTail(s, Trailing(s[1..]));
  }

  lemma FilterHead(s: seq<Entry>)
    requires s != []
    ensures |Filter(s)| == |Filter(s[1..])| + if Keep(s[0]) then 1 else 0
  {
  }

  lemma ShapeCons(s: seq<Entry>, n: nat, tail: seq<Entry>)
    requires s != [] && Filter(s[1..]) != [] && Shape(Swept(s[1..]), Filter(s[1..]), n, tail)
    ensures Filter(s) != [] && Shape(Swept(s), Filter(s), if Keep(s[0]) then n else n + 1, tail)
  {
    var cells, kept := Swept(s[1..]), Filter(s[1..]);
    if Keep(s[0]) {
      ShapeKeep(s[0], cells, kept, n, tail);
      assert Swept(s) == [s[0]] + cells && Filter(s) == [s[0]] + kept;
    } else {
      ShapeDelete(cells, kept, n, tail);
      assert Swept(s) == cells[..|kept|] + [cells[|kept| - 1]] + cells[|kept|..];
      assert Filter(s) == [] + kept == kept;
    }
  }

  lemma {:induction false} SweptNothing(s: seq<Entry>)
    requires Filter(s) == []
    ensures Swept(s) == s
  {
    if s != [] {
      SweptNothing(s[1..]);
    }
  }

  // ---- What readers of Entries see ----

  lemma {:induction false} FilterKeeps(s: seq<Entry>)
    ensures forall e :: e in Filter(s) <==> e in s && Keep(e)
  {
    if s != [] {
      FilterKeeps(s[1..]);
      assert s == [s[0]] + s[1..];
    }
  }

  lemma {:induction false} TrailingInvalid(s: seq<Entry>)
    ensures forall k | |s| - Trailing(s) <= k < |s| :: !Keep(s[k])
    ensures Trailing(s) == 0 <==> s == [] || Keep(s[|s| - 1])
    decreases |s|
  {
    if s != [] && !Keep(s[|s| - 1]) {
      TrailingInvalid(s[..|s| - 1]);
    }
  }

  lemma ShapeMembers(cells: seq<Entry>, kept: seq<Entry>, copies: nat, tail: seq<Entry>)
    requires kept != [] && Shape(cells, kept, copies, tail)
    ensures forall e :: e in cells <==> e in kept || e in tail
    ensures cells[..|kept|] == kept
  {
    var middle := Repeat(kept[|kept| - 1], copies);
    assert forall e | e in middle :: e == kept[|kept| - 1];
    assert forall e :: e in cells <==> e in kept || e in middle || e in tail;
  }

  lemma SweptMembers(s: seq<Entry>)
    ensures forall e :: e in Swept(s) <==> e in Filter(s) || e in s[|s| - Trailing(s)..]
    ensures Swept(s)[..|Filter(s)|] == Filter(s)
  {
    hide Swept, Filter, Shape;
    if Filter(s) == [] {
      SweptNothing(s);
      AllTrailing(s);
    } else {
      SweptShape(s);
      ShapeMembers(Swept(s), Filter(s), |s| - Trailing(s) - |Filter(s)|, s[|s| - Trailing(s)..]);
    }
  }

  lemma {:induction false} AllTrailing(s: seq<Entry>)
    requires Filter(s) == []
    ensures Trailing(s) == |s|
    decreases |s|
  {
    if s != [] {
      TrailingCons(s);
    }
  }

  lemma OriginalEntry(s: seq<Entry>, e: Entry)
    requires e in Swept(s)
    ensures e in s
  {
    SweptMembers(s);
    if e in Filter(s) {
      FilterKeeps(s);
    } else {
      var tail := s[|s| - Trailing(s)..];
      var i :| 0 <= i < |tail| && tail[i] == e;
      assert s[|s| - Trailing(s) + i] == e;
    }
  }

  /** The local slice is the stable filter of what was there; every cell of the array still holds an original entry. */
  lemma LocalSlice(s: seq<Entry>, i: nat)
    requires i < |s|
    ensures Swept(s)[..|Filter(s)|] == Filter(s)
    ensures Swept(s)[i] in s
  {
    SweptMembers(s);
    OriginalEntry(s, Swept(s)[i]);
  }

  /** The invalid entries that outlive the clean-up. */
  function Leftover(s: seq<Entry>): seq<Entry> {
    s[|s| - Trailing(s)..]
  }

  lemma LeftoverInvalid(s: seq<Entry>)
    ensures forall e | e in Leftover(s) :: !Keep(e)
    ensures Leftover(s) == [] <==> s == [] || Keep(s[|s| - 1])
    ensures s != [] && !Keep(s[|s| - 1]) ==> s[|s| - 1] in Leftover(s)
  {
    TrailingInvalid(s);
    if s != [] && !Keep(s[|s| - 1]) {
      LastInTail(s, Trailing(s));
    }
  }

  lemma LastInTail<T>(s: seq<T>, n: nat)
    requires 0 < n <= |s|
    ensures s[|s| - 1] in s[|s| - n..]
  {
    assert s[|s| - n..][n - 1] == s[|s| - 1];
  }

  lemma Survivor(s: seq<Entry>, e: Entry)
    ensures e in Swept(s) <==> e in Filter(s) || e in Leftover(s)
    ensures e in Filter(s) ==> Keep(e)
    ensures e in Leftover(s) ==> !Keep(e)
  {
    SweptMembers(s);
    FilterKeeps(s);
    LeftoverInvalid(s);
  }

  /**
   `Entries` keeps its length, so it still shows invalid entries after the loop exactly when the last
   entry was invalid. When it was not, `Entries` shows the filtered entries, some of them repeatedly.
   */
  lemma InvalidSurvives(s: seq<Entry>)
    ensures (exists e :: e in Swept(s) && !Keep(e)) <==> s != [] && !Keep(s[|s| - 1])
    ensures s == [] || Keep(s[|s| - 1]) ==> forall e :: e in Swept(s) <==> e in Filter(s)
  {
    hide Filter, Swept;
    LeftoverInvalid(s);
    if s != [] && !Keep(s[|s| - 1]) {
      Survivor(s, s[|s| - 1]);
    } else {
      forall e | e in Swept(s) ensures Keep(e) {
        Survivor(s, e);
      }
      forall e ensures e in Swept(s) <==> e in Filter(s) {
        Survivor(s, e);
      }
    }
  }

  // ---- The latest version ----

  /** The order of the sort: a version that does not parse comes before all others. */
  predicate Older(x: Option<Version>, y: Option<Version>) {
    y.Some? && (x == None || Less(x.value, y.value))
  }

  predicate SameAge(x: Option<Version>, y: Option<Version>) {
    !Older(x, y) && !Older(y, x)
  }

  lemma AgeOrder(x: Option<Version>, y: Option<Version>, z: Option<Version>)
    ensures !Older(x, x) && !(Older(x, y) && Older(y, x))
    ensures Older(x, y) && Older(y, z) ==> Older(x, z)
    ensures Older(x, y) && !Older(z, y) ==> Older(x, z)
    ensures !Older(x, y) && Older(z, y) ==> Older(z, x)
    ensures !Older(x, y) && !Older(y, z) ==> !Older(x, z)
  {
    var v: Version := if x.Some? then x.value else if y.Some? then y.value else if z.Some? then z.value else Version(0, 0, 0, [], "");
    var vx, vy, vz := if x.Some? then x.value else v, if y.Some? then y.value else v, if z.Some? then z.value else v;
    hide Less;
    PrecedenceOrder(vx, vy, vz);
    PrecedenceOrder(vz, vy, vx);
    PrecedenceOrder(vx, vx, vx);
    PrecedenceOrder(vx, vz, vy);
    PrecedenceOrder(vy, vz, vx);
  }

  /** Newest first, as `SortEntries` leaves the versions. */
  ghost predicate Descending(versions: seq<ChartVersion>) {
    forall i, j | 0 <= i < j < |versions| :: !Older(versions[i].version, versions[j].version)
  }

  /** One of the orders the sort may leave: it is not stable, so versions of one age may stand in any order. */
  ghost predicate Arranged(sorted: seq<ChartVersion>, cells: seq<Entry>) {
    Descending(sorted) && multiset(sorted) == multiset(cells)
  }

  /** The order as a reader sees it: what parses stands before what does not, the greater version first. */
  lemma DescendingExactly(versions: seq<ChartVersion>)
    ensures Descending(versions) <==>
              forall i, j | 0 <= i < j < |versions| && versions[j].version.Some? ::
                versions[i].version.Some? && !Less(versions[i].version.value, versions[j].version.value)
  {
    hide Less;
    forall i, j | 0 <= i < j < |versions|
      ensures Older(versions[i].version, versions[j].version) <==>
                versions[j].version.Some?
                && (versions[i].version.Some? ==> Less(versions[i].version.value, versions[j].version.value))
    {
    }
  }

  function LatestChartVersion(entries: map<string, seq<ChartVersion>>, chartName: string): Result<ChartVersion> {
    if chartName !in entries then Err("chart not found")
    else if |entries[chartName]| == 0 then Err("chart has empty versions")
    else if |entries[chartName][0].urls| == 0 then Err("no download URLs found")
    else Ok(entries[chartName][0])
  }

  /** Nothing in `cells` is newer than `e`. */
  ghost predicate Newest(e: ChartVersion, cells: seq<Entry>) {
    forall x: ChartVersion | x in cells :: !Older(e.version, x.version)
  }

  lemma ArrangedMembers(sorted: seq<ChartVersion>, cells: seq<Entry>, e: Entry)
    requires multiset(sorted) == multiset(cells)
    ensures e in sorted <==> e in cells
  {
    assert e in sorted <==> e in multiset(sorted);
    assert e in cells <==> e in multiset(cells);
  }

  lemma FirstIsNewest(sorted: seq<ChartVersion>, cells: seq<Entry>)
    requires Arranged(sorted, cells) && cells != []
    ensures sorted != [] && sorted[0] in cells && Newest(sorted[0], cells)
  {
    ArrangedMembers(sorted, cells, cells[0]);
    ArrangedMembers(sorted, cells, sorted[0]);
    forall x: ChartVersion | x in cells ensures !Older(sorted[0].version, x.version) {
      ArrangedMembers(sorted, cells, x);
      var k :| 0 <= k < |sorted| && sorted[k] == x;
      AgeOrder(x.version, x.version, x.version);
    }
  }

  // ---- Every newest entry can come first ----

  function Insert(e: ChartVersion, sorted: seq<ChartVersion>): seq<ChartVersion> {
    if sorted == [] || !Older(e.version, sorted[0].version) then [e] + sorted
    else [sorted[0]] + Insert(e, sorted[1..])
  }

  function Sort(cells: seq<ChartVersion>): seq<ChartVersion> {
    if cells == [] then [] else Insert(cells[0], Sort(cells[1..]))
  }

  lemma {:induction false} InsertAdds(e: ChartVersion, sorted: seq<ChartVersion>)
    ensures multiset(Insert(e, sorted)) == multiset(sorted) + multiset{e}
  {
    if sorted != [] && Older(e.version, sorted[0].version) {
      InsertAdds(e, sorted[1..]);
      assert sorted == [sorted[0]] + sorted[1..];
    }
  }

  /** Descending, said of the head and the tail. */
  lemma DescendingCons(e: ChartVersion, rest: seq<ChartVersion>)
    requires Descending(rest) && forall x | x in rest :: !Older(e.version, x.version)
    ensures Descending([e] + rest)
  {
    var all := [e] + rest;
    forall i, j | 0 <= i < j < |all| ensures !Older(all[i].version, all[j].version) {
      assert all[j] == rest[j - 1] && all[j] in rest;
      assert i > 0 ==> all[i] == rest[i - 1];
    }
  }

  lemma DescendingTail(sorted: seq<ChartVersion>)
    requires Descending(sorted) && sorted != []
    ensures Descending(sorted[1..]) && forall x | x in sorted[1..] :: !Older(sorted[0].version, x.version)
  {
    forall x | x in sorted[1..] ensures !Older(sorted[0].version, x.version) {
      var k :| 0 <= k < |sorted[1..]| && sorted[1..][k] == x;
      assert x == sorted[k + 1];
    }
  }

  lemma {:induction false} InsertSorts(e: ChartVersion, sorted: seq<ChartVersion>)
    requires Descending(sorted)
    ensures Descending(Insert(e, sorted))
  {
    if sorted == [] {
    } else if Older(e.version, sorted[0].version) {
      DescendingTail(sorted);
      InsertSorts(e, sorted[1..]);
      InsertAdds(e, sorted[1..]);
      forall x | x in Insert(e, sorted[1..]) ensures !Older(sorted[0].version, x.version) {
        assert x in multiset(Insert(e, sorted[1..]));
        assert x in multiset(sorted[1..]) || x == e;
        AgeOrder(e.version, sorted[0].version, e.version);
      }
      DescendingCons(sorted[0], Insert(e, sorted[1..]));
    } else {
      DescendingTail(sorted);
      forall x | x in sorted ensures !Older(e.version, x.version) {
        assert sorted == [sorted[0]] + sorted[1..];
        AgeOrder(e.version, sorted[0].version, x.version);
      }
      DescendingCons(e, sorted);
    }
  }

  lemma {:induction false} SortSorts(cells: seq<ChartVersion>)
    ensures Descending(Sort(cells)) && multiset(Sort(cells)) == multiset(cells)
  {
    if cells != [] {
      SortSorts(cells[1..]);
      InsertSorts(cells[0], Sort(cells[1..]));
      InsertAdds(cells[0], Sort(cells[1..]));
      assert cells == [cells[0]] + cells[1..];
    }
  }

  /** Any entry that nothing is newer than comes first in some arrangement. */
  lemma NewestCanLead(cells: seq<ChartVersion>, e: ChartVersion) returns (sorted: seq<ChartVersion>)
    requires e in cells && Newest(e, cells)
    ensures Arranged(sorted, cells) && sorted[0] == e
  {
    var i :| 0 <= i < |cells| && cells[i] == e;
    var rest := cells[..i] + cells[i + 1..];
    SortSorts(rest);
    sorted := [e] + Sort(rest);
    WithoutOne(cells, i);
    forall x | x in Sort(rest) ensures !Older(e.version, x.version) {
      assert x in multiset(Sort(rest)) && x in multiset(rest) && x in rest;
    }
    DescendingCons(e, Sort(rest));
    assert multiset(sorted) == multiset{e} + multiset(Sort(rest));
  }

  lemma WithoutOne<T>(cells: seq<T>, i: nat)
    requires i < |cells|
    ensures multiset(cells) == multiset{cells[i]} + multiset(cells[..i] + cells[i + 1..])
    ensures forall x | x in cells[..i] + cells[i + 1..] :: x in cells
  {
    assert cells == cells[..i] + [cells[i]] + cells[i + 1..];
  }

  // ---- When the choice is a valid version ----

  /** Some kept entry is newer than `t`; or none is older. */
  ghost predicate Beaten(s: seq<Entry>, t: ChartVersion) {
    exists k: ChartVersion :: k in Filter(s) && Older(t.version, k.version)
  }

  ghost predicate Matched(s: seq<Entry>, t: ChartVersion) {
    exists k: ChartVersion :: k in Filter(s) && !Older(k.version, t.version)
  }

  lemma Visible(s: seq<Entry>, e: ChartVersion)
    ensures e in Swept(s) <==> (e in Filter(s) || e in Leftover(s))
    ensures e in Filter(s) ==> e.Sound()
    ensures e in Leftover(s) ==> !e.Sound()
  {
    Survivor(s, e);
  }

  lemma SweptSome(s: seq<Entry>)
    requires s != [] && null !in s
    ensures Swept(s) != [] && null !in Swept(s)
  {
    if null in Swept(s) {
      OriginalEntry(s, null);
    }
  }

  /** Whatever the sort does with equals, a valid version is chosen: exactly if each leftover is beaten by a kept entry. */
  lemma AlwaysValid(s: seq<Entry>)
    requires s != [] && null !in s
    ensures (forall sorted: seq<ChartVersion> | Arranged(sorted, Swept(s)) :: sorted != [] && sorted[0].Sound())
       <==> (forall t: ChartVersion | t in Leftover(s) :: Beaten(s, t))
  {
    SweptSome(s);
    if forall t: ChartVersion | t in Leftover(s) :: Beaten(s, t) {
      forall sorted: seq<ChartVersion> | Arranged(sorted, Swept(s)) ensures sorted != [] && sorted[0].Sound() {
        BeatenLeavesValid(s, sorted);
      }
    } else {
      var sorted := UnbeatenLeads(s);
    }
  }

  lemma BeatenLeavesValid(s: seq<Entry>, sorted: seq<ChartVersion>)
    requires s != [] && null !in s && Arranged(sorted, Swept(s))
    requires forall t: ChartVersion | t in Leftover(s) :: Beaten(s, t)
    ensures sorted != [] && sorted[0].Sound()
  {
    SweptSome(s);
    FirstIsNewest(sorted, Swept(s));
    var first := sorted[0];
    Visible(s, first);
    if first in Leftover(s) {
      var k: ChartVersion :| k in Filter(s) && Older(first.version, k.version);
      Visible(s, k);
    }
  }

  /** The newest of some entries. */
  lemma {:induction false} NewestOf(cells: seq<ChartVersion>) returns (e: ChartVersion)
    requires cells != []
    ensures e in cells && Newest(e, cells)
  {
    SortSorts(cells);
    var sorted := Sort(cells);
    FirstIsNewest(sorted, cells);
    e := sorted[0];
  }

  lemma UnbeatenLeads(s: seq<Entry>) returns (sorted: seq<ChartVersion>)
    requires s != [] && null !in s && exists t: ChartVersion :: t in Leftover(s) && !Beaten(s, t)
    ensures Arranged(sorted, Swept(s)) && sorted != [] && !sorted[0].Sound()
  {
    SweptSome(s);
    var t: ChartVersion :| t in Leftover(s) && !Beaten(s, t);
    Visible(s, t);
    var cells: seq<ChartVersion> := Swept(s);
    var m := NewestOf(cells);
    Visible(s, m);
    if m in Leftover(s) {
      sorted := NewestCanLead(cells, m);
    } else {
      assert !Older(t.version, m.version);
      forall x: ChartVersion | x in cells ensures !Older(t.version, x.version) {
        AgeOrder(t.version, m.version, x.version);
      }
      sorted := NewestCanLead(cells, t);
    }
  }

  /** Some order of equals chooses a valid version: exactly if each leftover is at least matched in age by a kept entry. */
  lemma SometimesValid(s: seq<Entry>)
    requires s != [] && null !in s
    ensures (exists sorted: seq<ChartVersion> :: Arranged(sorted, Swept(s)) && sorted != [] && sorted[0].Sound())
       <==> (forall t: ChartVersion | t in Leftover(s) :: Matched(s, t))
  {
    SweptSome(s);
    if forall t: ChartVersion | t in Leftover(s) :: Matched(s, t) {
      MatchedKept(s);
      var sorted := MatchedLeads(s);
    } else {
      var t: ChartVersion :| t in Leftover(s) && !Matched(s, t);
      forall sorted: seq<ChartVersion> | Arranged(sorted, Swept(s)) ensures sorted == [] || !sorted[0].Sound() {
        UnmatchedWins(s, sorted, t);
      }
    }
  }

  lemma MatchedKept(s: seq<Entry>)
    requires s != [] && null !in s && forall t: ChartVersion | t in Leftover(s) :: Matched(s, t)
    ensures Filter(s) != []
  {
    if Filter(s) == [] {
      NothingMatched(s);
    }
  }

  lemma NothingMatched(s: seq<Entry>)
    requires s != [] && null !in s && Filter(s) == []
    ensures exists t: ChartVersion :: t in Leftover(s) && !Matched(s, t)
  {
    AllTrailing(s);
    var t: ChartVersion := s[0];
    assert t in Leftover(s) && !Matched(s, t);
  }

  lemma UnmatchedWins(s: seq<Entry>, sorted: seq<ChartVersion>, t: ChartVersion)
    requires s != [] && null !in s && Arranged(sorted, Swept(s)) && t in Leftover(s) && !Matched(s, t)
    ensures sorted != [] && !sorted[0].Sound()
  {
    SweptSome(s);
    FirstIsNewest(sorted, Swept(s));
    Visible(s, t);
    Visible(s, sorted[0]);
    NotKept(s, sorted[0], t);
  }

  lemma NotKept(s: seq<Entry>, e: ChartVersion, t: ChartVersion)
    requires !Matched(s, t) && !Older(e.version, t.version)
    ensures e !in Filter(s)
  {
  }

  lemma MatchedLeads(s: seq<Entry>) returns (sorted: seq<ChartVersion>)
    requires s != [] && null !in s && Filter(s) != [] && forall t: ChartVersion | t in Leftover(s) :: Matched(s, t)
    ensures Arranged(sorted, Swept(s)) && sorted != [] && sorted[0].Sound()
  {
    SweptSome(s);
    SweptMembers(s);
    assert forall e | e in Filter(s) :: e in Swept(s);
    var kept: seq<ChartVersion> := Filter(s);
    var m := NewestOf(kept);
    Visible(s, m);
    var cells: seq<ChartVersion> := Swept(s);
    forall x: ChartVersion | x in cells ensures !Older(m.version, x.version) {
      Visible(s, x);
      if x in Leftover(s) {
        var k: ChartVersion :| k in Filter(s) && !Older(k.version, x.version);
        AgeOrder(m.version, k.version, x.version);
      }
    }
    sorted := NewestCanLead(cells, m);
  }

  /** If no leftover ties with a kept entry, the order of equals does not matter. */
  lemma ChosenValidExactly(s: seq<Entry>, sorted: seq<ChartVersion>)
    requires s != [] && null !in s && Arranged(sorted, Swept(s))
    requires forall t: ChartVersion, k: ChartVersion | t in Leftover(s) && k in Filter(s) :: !SameAge(t.version, k.version)
    ensures sorted != [] && (sorted[0].Sound() <==> forall t: ChartVersion | t in Leftover(s) :: Beaten(s, t))
  {
    if forall t: ChartVersion | t in Leftover(s) :: Beaten(s, t) {
      BeatenLeavesValid(s, sorted);
    } else {
      var t: ChartVersion :| t in Leftover(s) && !Beaten(s, t);
      UnmatchedWins(s, sorted, t);
    }
  }

  /**
   The choice from `Entries` is as new as the one a filtered list would give, exactly if each leftover
   is at least matched in age by a kept entry.
   */
  lemma LatestUnaffected(s: seq<Entry>, sorted: seq<ChartVersion>, filtered: seq<ChartVersion>)
    requires null !in s && Filter(s) != [] && Arranged(sorted, Swept(s)) && Arranged(filtered, Filter(s))
    ensures sorted != [] && filtered != []
    ensures SameAge(sorted[0].version, filtered[0].version) <==> forall t: ChartVersion | t in Leftover(s) :: Matched(s, t)
  {
    SweptSome(s);
    FirstIsNewest(sorted, Swept(s));
    FirstIsNewest(filtered, Filter(s));
    var v, f := sorted[0], filtered[0];
    Visible(s, v);
    Visible(s, f);
    forall t: ChartVersion | t in Leftover(s) ensures Matched(s, t) <==> !Older(f.version, t.version) {
      MatchedByNewest(s, f, t);
    }
    forall t: ChartVersion | t in Leftover(s) ensures !Older(v.version, t.version) {
      Visible(s, t);
    }
    if SameAge(v.version, f.version) {
      forall t: ChartVersion | t in Leftover(s) ensures Matched(s, t) {
        AgeOrder(f.version, v.version, t.version);
      }
    }
  }

  lemma MatchedByNewest(s: seq<Entry>, f: ChartVersion, t: ChartVersion)
    requires f in Filter(s) && Newest(f, Filter(s))
    ensures Matched(s, t) <==> !Older(f.version, t.version)
  {
    if Matched(s, t) {
      var k: ChartVersion :| k in Filter(s) && !Older(k.version, t.version);
      AgeOrder(f.version, k.version, t.version);
    }
  }

  lemma LastSurvives(s: seq<Entry>)
    requires s != [] && !Keep(s[|s| - 1])
    ensures s[|s| - 1] in Swept(s)
  {
    LeftoverInvalid(s);
    SweptMembers(s);
  }

  /** If the last entry was invalid and newer than all others, it is the one chosen. */
  lemma LatestInvalid(s: seq<Entry>, sorted: seq<ChartVersion>, last: ChartVersion)
    requires s != [] && null !in s && s[|s| - 1] == last && !last.Sound()
    requires forall x: ChartVersion | x in s && x != last :: Older(x.version, last.version)
    requires Arranged(sorted, Swept(s))
    ensures sorted != [] && sorted[0] == last
  {
    LastSurvives(s);
    SweptSome(s);
    FirstIsNewest(sorted, Swept(s));
    OriginalEntry(s, sorted[0]);
  }

  lemma ChosenFirst(s: seq<Entry>, sorted: seq<ChartVersion>)
    requires s != [] && null !in s && Arranged(sorted, Swept(s))
    ensures sorted != [] && sorted[0] in s
    ensures forall x: ChartVersion | x in Filter(s) || x in Leftover(s) :: !Older(sorted[0].version, x.version)
    ensures !sorted[0].Sound() ==> sorted[0] in Leftover(s) && !Beaten(s, sorted[0])
  {
    hide Filter, Swept, Leftover, Older;
    SweptSome(s);
    FirstIsNewest(sorted, Swept(s));
    OriginalEntry(s, sorted[0]);
    Visible(s, sorted[0]);
    forall x: ChartVersion | x in Filter(s) || x in Leftover(s) ensures !Older(sorted[0].version, x.version) {
      Visible(s, x);
    }
    NotBeaten(s, sorted[0]);
  }

  lemma NotBeaten(s: seq<Entry>, e: ChartVersion)
    requires forall x: ChartVersion | x in Filter(s) || x in Leftover(s) :: !Older(e.version, x.version)
    ensures !Beaten(s, e)
  {
    if Beaten(s, e) {
      var k: ChartVersion :| k in Filter(s) && Older(e.version, k.version);
      assert false;
    }
  }

  /**
   Clean-up, sort and choice together: a version is chosen exactly if the first one has a URL; it was in the
   index file, nothing still visible is newer, and it is valid unless it is a leftover that nothing beats.
   */
  lemma LatestExactly(s: seq<Entry>, sorted: seq<ChartVersion>, entries: map<string, seq<ChartVersion>>, name: string)
    requires null !in s && name in entries && entries[name] == sorted && Arranged(sorted, Swept(s))
    ensures LatestChartVersion(entries, name).Ok? <==> s != [] && sorted != [] && sorted[0].urls != []
    ensures LatestChartVersion(entries, name).Ok? ==>
              var v := LatestChartVersion(entries, name).value;
              && v in s && v.urls != []
              && (forall x: ChartVersion | x in Filter(s) || x in Leftover(s) :: !Older(v.version, x.version))
              && (!v.Sound() ==> v in Leftover(s) && !Beaten(s, v))
  {
    if s == [] {
      assert |multiset(sorted)| == |sorted|;
    } else {
      ChosenFirst(s, sorted);
    }
  }
}
