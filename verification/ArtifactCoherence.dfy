/**
 The artifact cache against fresh downloads, over whole histories of requests (pkg/artifacts/manager.go). The key of a
 cached file holds type, name and version but not the region it came from nor the time, so the cache is as good as a
 fresh download exactly when no two requests for one artifact are ever served different bytes.
 */
module ArtifactCoherence {
  import opened Text
  import opened Paths
  import opened Semver
  import opened Artifacts
  import opened ArtifactPlaces
  import opened ArtifactSources
  import opened ArtifactCache

  // ---- The cache against a fresh download ----

  /** An undisturbed request for something its server has. */
  predicate Available(w: World, q: Request) {
    Reaches(w, q) && q.faults == NO_FAULTS && Served(w, SrcOf(w, q)).Some?
  }

  /** Result, cached file and installed binaries are all the same with the cache as without. */
  ghost predicate LikeFresh(w: World, workingDir: string, nodes: Nodes, q: Request) {
    Serve(w, workingDir, nodes, q.(cache := true)) == Serve(w, workingDir, nodes, q.(cache := false))
  }

  lemma DownloadedAlike(w: World, nodes: Nodes, src: Source, destDir: string, installDir: string, file: string)
    requires file == PathJoin([destDir, src.fileName]) == Target(src, destDir) && Served(w, src).Some?
    requires file in nodes ==> nodes[file] == File(Served(w, src).value) && destDir in nodes && nodes[destDir] == Directory
    ensures Downloaded(w, nodes, src, destDir, Options(true, installDir), NO_FAULTS)
         == Downloaded(w, nodes, src, destDir, Options(false, installDir), NO_FAULTS)
  {
    if file in nodes {
      assert nodes[file := nodes[file]] == nodes;
      assert Fetched(w, nodes, src, destDir, NO_FAULTS) == Outcome(Ok(file), nodes);
    }
  }

  lemma SameServe(w: World, workingDir: string, nodes: Nodes, q: Request)
    requires Proper(workingDir) && Reaches(w, q)
    ensures forall cache :: var r, src := q.(cache := cache), SrcOf(w, q);
              Serve(w, workingDir, nodes, r) == Downloaded(w, nodes, src, PathOf(workingDir, PkgOf(src)),
                Options(cache, if src.typ.Binary? then PathOf(workingDir, Bin(src.name, src.version)) else ""), q.faults)
  {
    forall cache {
      ServeAt(w, workingDir, nodes, q.(cache := cache));
    }
  }

  lemma AvailableNamed(w: World, q: Request)
    requires Available(w, q)
    ensures SrcOf(w, q).fileName != "" && Segment(SrcOf(w, q).fileName) && ProperSource(SrcOf(w, q))
  {
    SourceFacts(w, q);
  }

  lemma CurrentIsLikeFresh(w: World, workingDir: string, nodes: Nodes, q: Request)
    requires Proper(workingDir) && Available(w, q) && Housed(workingDir, nodes, SrcOf(w, q))
    requires var file := CachedAt(workingDir, SrcOf(w, q));
             file in nodes ==> nodes[file] == File(Served(w, SrcOf(w, q)).value)
    ensures LikeFresh(w, workingDir, nodes, q)
  {
    hide Serve, Downloaded, Served, Target, PathJoin, PathOf, Reaches, SrcOf;
    var src := SrcOf(w, q);
    AvailableNamed(w, q);
    TargetAt(w, workingDir, q);
    SameServe(w, workingDir, nodes, q);
    DownloadedAlike(w, nodes, src, PathOf(workingDir, PkgOf(src)),
      if src.typ.Binary? then PathOf(workingDir, Bin(src.name, src.version)) else "", CachedAt(workingDir, src));
  }

  lemma HitKeeps(w: World, workingDir: string, nodes: Nodes, q: Request)
    requires Proper(workingDir) && Available(w, q) && q.cache && CachedAt(workingDir, SrcOf(w, q)) in nodes
    ensures Same(nodes, Serve(w, workingDir, nodes, q).nodes, CachedAt(workingDir, SrcOf(w, q)))
  {
    var src := SrcOf(w, q);
    SourceFacts(w, q);
    FileInPlace(workingDir, PkgOf(src), src.fileName);
    ServeElsewhere(w, workingDir, nodes, q, FileOf(src));
  }

  /** After an undisturbed fresh download the file holds what was served. */
  lemma FreshHolds(w: World, workingDir: string, nodes: Nodes, q: Request)
    requires Proper(workingDir) && Available(w, q) && !q.cache && Housed(workingDir, nodes, SrcOf(w, q))
    ensures var out, file := Serve(w, workingDir, nodes, q).nodes, CachedAt(workingDir, SrcOf(w, q));
            file in out && out[file] == File(Served(w, SrcOf(w, q)).value)
  {
    hide Serve, AfterFetch, Served, PathOf, Reaches, SrcOf;
    AvailableNamed(w, q);
    OwnHolding(w, workingDir, nodes, q, SrcOf(w, q));
    InstallKeepsHolding(w, workingDir, nodes, q, SrcOf(w, q));
  }

  lemma HoldingRead(workingDir: string, nodes: Nodes, src: Source)
    requires Tidy(workingDir, nodes) && ProperSource(src) && Segment(src.fileName)
    ensures var file := CachedAt(workingDir, src);
            HoldingOf(workingDir, nodes, src).content == if file in nodes then Some(nodes[file].content) else None
    ensures CachedAt(workingDir, src) in nodes ==> nodes[CachedAt(workingDir, src)] != Directory
  {
    assert FileIn(PkgOf(src), src.fileName) == FileOf(src);
  }

  lemma StaleDiffers(w: World, workingDir: string, nodes: Nodes, q: Request)
    requires Proper(workingDir) && Available(w, q) && Housed(workingDir, nodes, SrcOf(w, q))
    requires var file := CachedAt(workingDir, SrcOf(w, q));
             file in nodes && nodes[file] != File(Served(w, SrcOf(w, q)).value)
    ensures !LikeFresh(w, workingDir, nodes, q)
  {
    var hit, miss := q.(cache := true), q.(cache := false);
    assert SrcOf(w, hit) == SrcOf(w, miss) == SrcOf(w, q);
    hide Serve, CachedAt, Served, Housed;
    HitKeeps(w, workingDir, nodes, hit);
    FreshHolds(w, workingDir, nodes, miss);
  }

  /** In any state, the cached answer is the fresh one exactly when the file is absent or holds what would be served. */
  lemma LikeFreshExactly(w: World, workingDir: string, nodes: Nodes, q: Request)
    requires Proper(workingDir) && Available(w, q) && Housed(workingDir, nodes, SrcOf(w, q))
    ensures var file := CachedAt(workingDir, SrcOf(w, q));
            LikeFresh(w, workingDir, nodes, q) <==> (file in nodes ==> nodes[file] == File(Served(w, SrcOf(w, q)).value))
  {
    var file := CachedAt(workingDir, SrcOf(w, q));
    if file in nodes ==> nodes[file] == File(Served(w, SrcOf(w, q)).value) {
      CurrentIsLikeFresh(w, workingDir, nodes, q);
    } else {
      StaleDiffers(w, workingDir, nodes, q);
    }
  }

  const NOTHING := Holding(false, None)

  lemma EmptyTidy(workingDir: string)
    ensures Tidy(workingDir, map[])
  {
  }

  /**
   For every history, with any mixture of regions, cache flags and failures, torn writes and servers that
   change their answers included: a cached request is answered like a fresh download exactly when the history
   holds nothing for the artifact, or holds what its server has now.
   */
  lemma HistoryExactly(home: string, h: seq<Exchange>, w: World, q: Request)
    requires AllPlain(h) && Available(w, q)
    ensures LikeFresh(w, WorkingDir(home), Run(WorkingDir(home), map[], h), q)
       <==> Held(NOTHING, h, SrcOf(w, q)).content in [None, Served(w, SrcOf(w, q))]
  {
    var workingDir, src := WorkingDir(home), SrcOf(w, q);
    WorkingDirProper(home);
    AvailableNamed(w, q);
    EmptyTidy(workingDir);
    RunHolding(workingDir, map[], h, src);
    HoldingRead(workingDir, map[], src);
    assert HoldingOf(workingDir, map[], src) == NOTHING;
    hide Run, Held, Serve, Tidy, HoldingOf, Served, CachedAt, Housed;
    HoldingRead(workingDir, Run(workingDir, map[], h), src);
    TidyHoused(workingDir, Run(workingDir, map[], h), src);
    LikeFreshExactly(w, workingDir, Run(workingDir, map[], h), q);
  }

  // ---- Coherence ----

  /** Two sources of one artifact, each as served in its own world. */
  predicate Agree(v: World, s: Source, w: World, t: Source) {
    SameArtifact(s, t) && Served(v, s).Some? && Served(w, t).Some? ==> Served(v, s) == Served(w, t)
  }

  /** `worlds`: every state of the world in which a request may be made, in any order. */
  ghost predicate NeverDiffers(worlds: iset<World>) {
    forall v, w, a, b | v in worlds && w in worlds && Reaches(v, a) && Reaches(w, b) :: Agree(v, SrcOf(v, a), w, SrcOf(w, b))
  }

  /** In one unchanging world: whatever region serves an artifact, it serves the same bytes. */
  ghost predicate RegionFree(w: World) {
    forall a, b | Reaches(w, a) && Reaches(w, b) :: Agree(w, SrcOf(w, a), w, SrcOf(w, b))
  }

  /** What is cached for a source is what would be served for it. */
  predicate Sound(w: World, workingDir: string, nodes: Nodes, src: Source) {
    var dir, file := PathOf(workingDir, PkgOf(src)), CachedAt(workingDir, src);
    && (dir in nodes ==> nodes[dir] == Directory)
    && (src.fileName != "" && file in nodes ==>
          && dir in nodes && nodes[file] != Directory
          && (Served(w, src).Some? ==> nodes[file] == File(Served(w, src).value)))
  }

  ghost predicate Coherent(worlds: iset<World>, workingDir: string, nodes: Nodes) {
    && Tidy(workingDir, nodes)
    && forall w, q | w in worlds && Reaches(w, q) :: Sound(w, workingDir, nodes, SrcOf(w, q))
  }

  lemma DirSound(workingDir: string, nodes: Nodes, src: Source)
    requires Tidy(workingDir, nodes) && ProperSource(src)
    ensures var dir := PathOf(workingDir, PkgOf(src)); dir in nodes ==> nodes[dir] == Directory
  {
    FixedSegments();
    assert HousedAt(nodes, PathOf(workingDir, PkgOf(src)), PathOf(workingDir, FileIn(PkgOf(src), PKG)));
  }

  lemma SoundHolding(w: World, workingDir: string, nodes: Nodes, src: Source)
    requires Tidy(workingDir, nodes) && ProperSource(src) && Segment(src.fileName)
    ensures Sound(w, workingDir, nodes, src)
       <==> (Served(w, src) == None || HoldingOf(workingDir, nodes, src).content in [None, Served(w, src)])
  {
    HoldingRead(workingDir, nodes, src);
    DirSound(workingDir, nodes, src);
    assert FileIn(PkgOf(src), src.fileName) == FileOf(src);
    assert HousedAt(nodes, PathOf(workingDir, PkgOf(src)), CachedAt(workingDir, src));
  }

  /** A holding stays right for `src` under a request that is not torn and agrees with it. */
  lemma HoldingStays(v: World, holding: Holding, q: Request, w: World, src: Source)
    requires q.faults.torn == None && Served(w, src).Some? && holding.content in [None, Served(w, src)]
    requires Reaches(v, q) ==> Agree(v, SrcOf(v, q), w, src)
    ensures HoldingNext(v, holding, q, src).content in [None, Served(w, src)]
    ensures holding.content.Some? ==> HoldingNext(v, holding, q, src).content.Some?
  {
    hide Served, Reaches, SrcOf;
  }

  lemma SoundStep(v: World, workingDir: string, nodes: Nodes, q: Request, w: World, r: Request)
    requires Proper(workingDir) && Plain(v, q) && q.faults.torn == None && Tidy(workingDir, nodes)
    requires Reaches(w, r) && Sound(w, workingDir, nodes, SrcOf(w, r))
    requires Reaches(v, q) ==> Agree(v, SrcOf(v, q), w, SrcOf(w, r))
    ensures Tidy(workingDir, Serve(v, workingDir, nodes, q).nodes)
    ensures Sound(w, workingDir, Serve(v, workingDir, nodes, q).nodes, SrcOf(w, r))
  {
    var src, out := SrcOf(w, r), Serve(v, workingDir, nodes, q).nodes;
    TidyServe(v, workingDir, nodes, q);
    SourceFacts(w, r);
    DirSound(workingDir, out, src);
    if src.fileName != "" {
      hide Sound, Serve, HoldingOf, Tidy, Plain, Served;
      SoundHolding(w, workingDir, nodes, src);
      HoldingStep(v, workingDir, nodes, q, src);
      if Served(w, src).Some? {
        HoldingStays(v, HoldingOf(workingDir, nodes, src), q, w, src);
      }
      SoundHolding(w, workingDir, out, src);
    }
  }

  lemma TidyServe(w: World, workingDir: string, nodes: Nodes, q: Request)
    requires Proper(workingDir) && Plain(w, q) && Tidy(workingDir, nodes)
    ensures Tidy(workingDir, Serve(w, workingDir, nodes, q).nodes)
  {
    hide Serve, Tidy;
    if Reaches(w, q) {
      TidyStep(w, workingDir, nodes, q);
    } else {
      UnreachedServe(w, workingDir, nodes, q);
    }
  }

  /** One request keeps the cache coherent, whatever its region, cache flag and failures short of a torn write. */
  lemma ServeCoherent(worlds: iset<World>, workingDir: string, nodes: Nodes, v: World, q: Request)
    requires Proper(workingDir) && NeverDiffers(worlds) && v in worlds && Plain(v, q) && q.faults.torn == None
    requires Coherent(worlds, workingDir, nodes)
    ensures Coherent(worlds, workingDir, Serve(v, workingDir, nodes, q).nodes)
  {
    hide Serve, Tidy, Sound, Plain, Agree, Reaches, SrcOf;
    TidyServe(v, workingDir, nodes, q);
    forall w, r | w in worlds && Reaches(w, r) ensures Sound(w, workingDir, Serve(v, workingDir, nodes, q).nodes, SrcOf(w, r)) {
      SoundStep(v, workingDir, nodes, q, w, r);
    }
  }

  /** A history the cache is meant for: plain names and versions, and no write torn half way. */
  ghost predicate Regular(worlds: iset<World>, h: seq<Exchange>) {
    forall x | x in h :: x.w in worlds && Plain(x.w, x.q) && x.q.faults.torn == None
  }

  lemma {:induction false} RunCoherent(worlds: iset<World>, workingDir: string, nodes: Nodes, h: seq<Exchange>)
    requires Proper(workingDir) && NeverDiffers(worlds) && Regular(worlds, h) && Coherent(worlds, workingDir, nodes)
    ensures Coherent(worlds, workingDir, Run(workingDir, nodes, h))
    decreases |h|
  {
    hide Serve, Coherent, NeverDiffers, Plain;
    if h != [] {
      assert h[0] in h && Regular(worlds, h[1..]);
      ServeCoherent(worlds, workingDir, nodes, h[0].w, h[0].q);
      RunCoherent(worlds, workingDir, Serve(h[0].w, workingDir, nodes, h[0].q).nodes, h[1..]);
    }
  }

  lemma EmptyCoherent(worlds: iset<World>, workingDir: string)
    ensures Coherent(worlds, workingDir, map[])
  {
  }

  /**
   Over any regular history from an empty disk, if no two requests for one artifact are ever served different
   bytes, whatever the region or the time, a cached request is answered exactly as a fresh download would be.
   */
  lemma CacheCoherent(worlds: iset<World>, home: string, h: seq<Exchange>, w: World, q: Request)
    requires NeverDiffers(worlds) && Regular(worlds, h) && w in worlds && Available(w, q)
    ensures LikeFresh(w, WorkingDir(home), Run(WorkingDir(home), map[], h), q)
  {
    var workingDir := WorkingDir(home);
    WorkingDirProper(home);
    EmptyCoherent(worlds, workingDir);
    RunCoherent(worlds, workingDir, map[], h);
    AvailableNamed(w, q);
    TidyHoused(workingDir, Run(workingDir, map[], h), SrcOf(w, q));
    hide Run, NeverDiffers, Regular, Tidy;
    CurrentIsLikeFresh(w, workingDir, Run(workingDir, map[], h), q);
  }

  /** One request that leaves other bytes in the cache than `q` would fetch makes the cache answer differently. */
  lemma StaleAnswer(home: string, v: World, a: Request, w: World, q: Request)
    requires Reaches(v, a) && Served(v, SrcOf(v, a)).Some? && !a.cache && a.faults == NO_FAULTS.(torn := a.faults.torn)
    requires Available(w, q) && SameArtifact(SrcOf(v, a), SrcOf(w, q))
    requires (if a.faults.torn.Some? then a.faults.torn else Served(v, SrcOf(v, a))) != Served(w, SrcOf(w, q))
    ensures !LikeFresh(w, WorkingDir(home), Run(WorkingDir(home), map[], [Exchange(v, a)]), q)
  {
    var h := [Exchange(v, a)];
    assert h[1..] == [] && AllPlain(h);
    HistoryExactly(home, h, w, q);
  }

  ghost predicate AlwaysLikeFresh(worlds: iset<World>, home: string) {
    forall h, w, q | Regular(worlds, h) && w in worlds && Available(w, q) ::
      LikeFresh(w, WorkingDir(home), Run(WorkingDir(home), map[], h), q)
  }

  /**
   The cache is coherent over all regular histories exactly when no two requests for one artifact are ever
   served different bytes, whatever the region or the time.
   */
  lemma CoherentExactly(worlds: iset<World>, home: string)
    ensures AlwaysLikeFresh(worlds, home) <==> NeverDiffers(worlds)
  {
    if NeverDiffers(worlds) {
      forall h, w, q | Regular(worlds, h) && w in worlds && Available(w, q)
        ensures LikeFresh(w, WorkingDir(home), Run(WorkingDir(home), map[], h), q)
      {
        CacheCoherent(worlds, home, h, w, q);
      }
    } else {
      var v, w, a, b :| v in worlds && w in worlds && Reaches(v, a) && Reaches(w, b) && !Agree(v, SrcOf(v, a), w, SrcOf(w, b));
      AnswersDiffer(worlds, home, v, a, w, b);
    }
  }

  lemma AnswersDiffer(worlds: iset<World>, home: string, v: World, a: Request, w: World, b: Request)
    requires v in worlds && w in worlds && Reaches(v, a) && Reaches(w, b) && !Agree(v, SrcOf(v, a), w, SrcOf(w, b))
    ensures !AlwaysLikeFresh(worlds, home)
  {
    var first, second := a.(cache := false, faults := NO_FAULTS), b.(faults := NO_FAULTS);
    assert SrcOf(v, first) == SrcOf(v, a) && SrcOf(w, second) == SrcOf(w, b);
    StaleAnswer(home, v, first, w, second);
    assert Regular(worlds, [Exchange(v, first)]) && Available(w, second);
  }

  /** While the world does not change, only the region can make a difference. */
  lemma CoherentStatically(w: World, home: string)
    ensures AlwaysLikeFresh(iset{w}, home) <==> RegionFree(w)
  {
    CoherentExactly(iset{w}, home);
    if RegionFree(w) {
      forall u, v, a, b | u in iset{w} && v in iset{w} && Reaches(u, a) && Reaches(v, b)
        ensures Agree(u, SrcOf(u, a), v, SrcOf(v, b))
      {
        assert u == w && v == w;
      }
    }
  }

  /** An artifact served anew with other bytes under its old version: the cache never looks again. */
  lemma RepublishedStale(home: string, before: World, after: World, q: Request)
    requires Available(before, q) && Available(after, q) && SameArtifact(SrcOf(before, q), SrcOf(after, q))
    requires Served(before, SrcOf(before, q)) != Served(after, SrcOf(after, q))
    ensures !LikeFresh(after, WorkingDir(home), Run(WorkingDir(home), map[], [Exchange(before, q.(cache := false))]), q)
  {
    assert SrcOf(before, q.(cache := false)) == SrcOf(before, q);
    StaleAnswer(home, before, q.(cache := false), after, q);
  }

  /** Every server has just these bytes for everything. */
  function Uniform(bytes: Content): World {
    World("linux", "amd64", (typ, name, cn) => Err("none"), Err("none"), url => Some(bytes), (url, version) => Some(bytes), content => None, content => None)
  }

  lemma UniformRegionFree(bytes: Content)
    ensures RegionFree(Uniform(bytes))
  {
    var w := Uniform(bytes);
    forall a, b | Reaches(w, a) && Reaches(w, b) ensures Agree(w, SrcOf(w, a), w, SrcOf(w, b)) {
      hide Reaches, SrcOf;
    }
  }

  /** So regions that agree at every moment are not enough: one chart, two moments. */
  lemma RegionFreeIsNotEnough(home: string)
    ensures exists before, after, q ::
              && RegionFree(before) && RegionFree(after) && Available(after, q)
              && !LikeFresh(after, WorkingDir(home), Run(WorkingDir(home), map[], [Exchange(before, q.(cache := false))]), q)
  {
    var before, after := Uniform([]), Uniform([1]);
    var q := Request("c", "1", Chart, true, true, NO_FAULTS);
    UniformRegionFree([]);
    UniformRegionFree([1]);
    UniformServes([], q);
    UniformServes([1], q);
    RepublishedStale(home, before, after, q);
  }

  lemma UniformServes(bytes: Content, q: Request)
    requires q == Request("c", "1", Chart, true, true, NO_FAULTS)
    ensures var w := Uniform(bytes);
            && Available(w, q) && Served(w, SrcOf(w, q)) == Some(bytes)
            && SrcOf(w, q).typ == Chart && SrcOf(w, q).name == "c" && SrcOf(w, q).version == "1"
            && SrcOf(w, q).fileName == ChartFileName("c", "1")
  {
    var w := Uniform(bytes);
    assert |q.version| == 1 && |LATEST_VERSION_TAG| == 6;
    assert NewSource(w, q.name, q.version, q.typ, q.cn) == SourceOf(w, "c", "1", Chart, true);
    assert |ChartURL("c", "1", true)| > 0;
  }

  /** A write that fails half way is not undone: whatever part it left is served from the cache afterwards. */
  lemma TornWritePoisons(w: World, home: string, q: Request, part: Content)
    requires Available(w, q) && Some(part) != Served(w, SrcOf(w, q))
    ensures var torn := q.(cache := false, faults := NO_FAULTS.(torn := Some(part)));
            !LikeFresh(w, WorkingDir(home), Run(WorkingDir(home), map[], [Exchange(w, torn)]), q)
  {
    var torn := q.(cache := false, faults := NO_FAULTS.(torn := Some(part)));
    assert SrcOf(w, torn) == SrcOf(w, q);
    StaleAnswer(home, w, torn, w, q);
  }

  lemma {:induction false} HeldConcat(holding: Holding, xs: seq<Exchange>, ys: seq<Exchange>, src: Source)
    ensures Held(holding, xs + ys, src) == Held(Held(holding, xs, src), ys, src)
    decreases |xs|
  {
    hide HoldingNext;
    if xs == [] {
      assert xs + ys == ys;
    } else {
      assert (xs + ys)[0] == xs[0] && (xs + ys)[1..] == xs[1..] + ys;
      HeldConcat(HoldingNext(xs[0].w, holding, xs[0].q, src), xs[1..], ys, src);
    }
  }

  lemma {:induction false} HeldStays(worlds: iset<World>, holding: Holding, h: seq<Exchange>, w: World, q: Request)
    requires NeverDiffers(worlds) && Regular(worlds, h) && w in worlds && Reaches(w, q) && Served(w, SrcOf(w, q)).Some?
    requires holding.content in [None, Served(w, SrcOf(w, q))]
    ensures Held(holding, h, SrcOf(w, q)).content in [None, Served(w, SrcOf(w, q))]
    decreases |h|
  {
    if h != [] {
      var x := h[0];
      assert x in h && Regular(worlds, h[1..]);
      hide HoldingNext, Served, Reaches, SrcOf, Agree, Plain;
      HoldingStays(x.w, holding, x.q, w, SrcOf(w, q));
      HeldStays(worlds, HoldingNext(x.w, holding, x.q, SrcOf(w, q)), h[1..], w, q);
    }
  }

  /**
   A torn write, or an answer since replaced, does no harm once an undisturbed uncached download of the artifact
   has overwritten it: whatever came before that, and whatever regular requests come after.
   */
  lemma OverwrittenRepairs(worlds: iset<World>, home: string, xs: seq<Exchange>, repair: Exchange, ys: seq<Exchange>, w: World, q: Request)
    requires NeverDiffers(worlds) && AllPlain(xs) && Regular(worlds, ys) && w in worlds && Available(w, q)
    requires repair.w in worlds && Available(repair.w, repair.q) && !repair.q.cache
    requires SameArtifact(SrcOf(repair.w, repair.q), SrcOf(w, q))
    ensures LikeFresh(w, WorkingDir(home), Run(WorkingDir(home), map[], xs + [repair] + ys), q)
  {
    var src := SrcOf(w, q);
    RepairHolds(worlds, Held(NOTHING, xs, src), repair, w, q);
    RepairPlain(worlds, xs, repair, ys);
    hide NeverDiffers, Available, SameArtifact, Held, Served, AllPlain, Regular;
    HeldConcat(NOTHING, xs + [repair], ys, src);
    HeldConcat(NOTHING, xs, [repair], src);
    HeldStays(worlds, Held(NOTHING, xs + [repair], src), ys, w, q);
    HistoryExactly(home, xs + [repair] + ys, w, q);
  }

  lemma RepairPlain(worlds: iset<World>, xs: seq<Exchange>, repair: Exchange, ys: seq<Exchange>)
    requires AllPlain(xs) && Regular(worlds, ys) && Reaches(repair.w, repair.q)
    ensures AllPlain(xs + [repair] + ys)
  {
  }

  lemma RepairHolds(worlds: iset<World>, holding: Holding, repair: Exchange, w: World, q: Request)
    requires NeverDiffers(worlds) && w in worlds && repair.w in worlds && Available(w, q)
    requires Available(repair.w, repair.q) && !repair.q.cache && SameArtifact(SrcOf(repair.w, repair.q), SrcOf(w, q))
    ensures Held(holding, [repair], SrcOf(w, q)).content == Served(w, SrcOf(w, q))
  {
    assert [repair][1..] == [] && Agree(repair.w, SrcOf(repair.w, repair.q), w, SrcOf(w, q));
  }
}
