/**
 Requests for artifacts and what each does to the disk (pkg/artifacts/manager.go, with its callers in
 pkg/cluster/baremetal/create.go and pkg/helm/loader.go), then over whole histories: what the cache holds of an
 artifact, told without a disk and without paths.
 */
module ArtifactCache {
  import opened Text
  import opened Paths
  import opened Semver
  import opened Artifacts
  import opened ArtifactPlaces
  import opened ArtifactSources

  // ---- Requests ----

  datatype Request = Request(name: string, version: string, typ: ArtifactType, cn: bool, cache: bool, faults: Faults)

  /** What the callers do for one artifact; only binaries get an install directory. */
  function Serve(w: World, workingDir: string, nodes: Nodes, q: Request): Outcome {
    match NewSource(w, q.name, q.version, q.typ, q.cn)
    case Err(e) => Outcome(Err(e), nodes)
    case Ok(src) =>
      var destDir := AllocateArtifactFilePath(workingDir, src, false);
      var installDir := AllocateArtifactFilePath(workingDir, src, true);
      if destDir.Err? then Outcome(destDir, nodes)
      else if installDir.Err? then Outcome(installDir, nodes)
      else Downloaded(w, nodes, src, destDir.value, Options(q.cache, if src.typ.Binary? then installDir.value else ""), q.faults)
  }

  /** A request, and the world as it is when the request is made: servers may answer otherwise the next time. */
  datatype Exchange = Exchange(w: World, q: Request)

  ghost function Run(workingDir: string, nodes: Nodes, h: seq<Exchange>): Nodes
    decreases |h|
  {
    if h == [] then nodes else Run(workingDir, Serve(h[0].w, workingDir, nodes, h[0].q).nodes, h[1..])
  }

  /** Name and resolved version are single path elements. */
  predicate Plain(w: World, q: Request) {
    var src := NewSource(w, q.name, q.version, q.typ, q.cn);
    src.Ok? ==> Segment(src.value.name) && Segment(src.value.version)
  }

  predicate Reaches(w: World, q: Request) {
    var src := NewSource(w, q.name, q.version, q.typ, q.cn);
    src.Ok? && ProperSource(src.value)
  }

  function SrcOf(w: World, q: Request): Source
    requires Reaches(w, q)
  {
    NewSource(w, q.name, q.version, q.typ, q.cn).value
  }

  function PkgOf(src: Source): Place {
    Pkg(src.typ.Chart?, src.name, src.version)
  }

  function FileOf(src: Source): Place {
    PkgFile(src.typ.Chart?, src.name, src.version, src.fileName)
  }

  /** The path where a source's download is kept. */
  function CachedAt(workingDir: string, src: Source): string {
    PathOf(workingDir, FileOf(src))
  }

  lemma SourceKeeps(w: World, name: string, version: string, typ: ArtifactType, cn: bool)
    requires SourceOf(w, name, version, typ, cn).Ok?
    ensures var src := SourceOf(w, name, version, typ, cn).value;
            src.name == name && src.version == version && src.typ == typ && src.fromCNRegion == cn
  {
  }

  lemma Resolved(w: World, q: Request)
    requires Reaches(w, q)
    ensures var src := SrcOf(w, q);
            && SourceOf(w, src.name, src.version, src.typ, q.cn) == Ok(src)
            && src.name == q.name && src.typ == q.typ && Segment(src.name) && Segment(src.version)
  {
    var latest := w.latest(q.typ, q.name, q.cn);
    var v := if (q.version == LATEST_VERSION_TAG || q.version == "") && latest.Ok? then latest.value else q.version;
    SourceKeeps(w, q.name, v, q.typ, q.cn);
  }

  lemma TargetIsFile(w: World, q: Request, destDir: string)
    requires Reaches(w, q)
    ensures Target(SrcOf(w, q), destDir) == PathJoin([destDir, SrcOf(w, q).fileName])
  {
    Resolved(w, q);
    PulledFile(w, q.name, SrcOf(w, q).version, q.typ, q.cn, destDir);
  }

  lemma SourceFacts(w: World, q: Request)
    requires Reaches(w, q)
    ensures var src := SrcOf(w, q);
            && src.fileName == FileNameOf(w, src.name, src.version, src.typ)
            && (src.fileName != "" ==> Segment(src.fileName)) && (src.fileName == "" ==> Served(w, src) == None)
            && forall destDir :: Target(src, destDir) == PathJoin([destDir, src.fileName])
  {
    var src := SrcOf(w, q);
    Resolved(w, q);
    SourceFileName(w, src.name, src.version, src.typ, q.cn);
    NoNameNoAnswer(w, src);
    forall destDir {
      TargetIsFile(w, q, destDir);
    }
  }

  lemma NoNameNoAnswer(w: World, src: Source)
    requires src.fileName == "" ==> src.url == ""
    ensures src.fileName == "" ==> Served(w, src) == None
  {
  }

  // ---- Effects of one request on the disk ----

  lemma {:induction false} PlacedElsewhere(nodes: Nodes, dir: string, exes: seq<Exe>, path: string)
    requires forall name: ExeName :: PathJoin([dir, name]) != path
    ensures Same(nodes, Placed(nodes, dir, exes), path)
    decreases |exes|
  {
    if exes != [] {
      PlacedElsewhere(nodes[PathJoin([dir, exes[0].name]) := File(exes[0].content)], dir, exes[1..], path);
    }
  }

  lemma DeliveredElsewhere(w: World, nodes: Nodes, src: Source, destDir: string, installDir: string, f: Faults, path: string)
    requires src.typ.Binary? ==> path != installDir && forall name: ExeName :: PathJoin([installDir, name]) != path
    ensures Same(nodes, Delivered(w, nodes, src, destDir, installDir, f).nodes, path)
  {
    if src.typ.Binary? && installDir != "" && !f.install {
      var file := PathJoin([destDir, src.fileName]);
      var exes := Unpacked(w, WithDir(nodes, installDir), file);
      if exes.Some? {
        PlacedElsewhere(WithDir(nodes, installDir), installDir, exes.value, path);
      }
    }
  }

  /** A request leaves alone every package directory and package file but its own. */
  lemma InstallsElsewhere(workingDir: string, src: Source, p: Place)
    requires Proper(workingDir) && ProperSource(src) && src.typ.Binary? && ProperPlace(p) && (p.Pkg? || p.PkgFile?)
    ensures var installDir := PathOf(workingDir, Bin(src.name, src.version));
            && PathOf(workingDir, p) != installDir
            && forall name: ExeName :: PathJoin([installDir, name]) != PathOf(workingDir, p)
  {
    var bin := Bin(src.name, src.version);
    PlacesDistinct(workingDir, p, bin);
    forall name: ExeName ensures PathJoin([PathOf(workingDir, bin), name]) != PathOf(workingDir, p) {
      FileInPlace(workingDir, bin, name);
      PlacesDistinct(workingDir, p, InPlace(bin, name));
    }
  }

  /** `Serve` in terms of places. */
  lemma ServeAt(w: World, workingDir: string, nodes: Nodes, q: Request)
    requires Proper(workingDir) && Reaches(w, q)
    ensures var src := SrcOf(w, q);
            Serve(w, workingDir, nodes, q) == Downloaded(w, nodes, src, PathOf(workingDir, PkgOf(src)),
              Options(q.cache, if src.typ.Binary? then PathOf(workingDir, Bin(src.name, src.version)) else ""), q.faults)
  {
    Allocated(workingDir, SrcOf(w, q), false);
    Allocated(workingDir, SrcOf(w, q), true);
  }

  /** The disk when the download is over and installing begins. */
  function FetchPhase(w: World, nodes: Nodes, src: Source, destDir: string, cache: bool, f: Faults): Nodes {
    if cache && (f.stat || PathJoin([destDir, src.fileName]) in nodes) then nodes
    else Fetched(w, nodes, src, destDir, f).nodes
  }

  function AfterFetch(w: World, workingDir: string, nodes: Nodes, q: Request): Nodes
    requires Reaches(w, q)
  {
    FetchPhase(w, nodes, SrcOf(w, q), PathOf(workingDir, PkgOf(SrcOf(w, q))), q.cache, q.faults)
  }

  lemma DownloadedElsewhere(w: World, nodes: Nodes, src: Source, destDir: string, opts: Options, f: Faults, path: string)
    requires src.typ.Binary? ==> path != opts.binaryInstallDir && forall name: ExeName :: PathJoin([opts.binaryInstallDir, name]) != path
    ensures Same(FetchPhase(w, nodes, src, destDir, opts.enableCache, f), Downloaded(w, nodes, src, destDir, opts, f).nodes, path)
  {
    var fetched := FetchPhase(w, nodes, src, destDir, opts.enableCache, f);
    DeliveredElsewhere(w, fetched, src, destDir, opts.binaryInstallDir, f, path);
  }

  lemma ServeElsewhere(w: World, workingDir: string, nodes: Nodes, q: Request, p: Place)
    requires Proper(workingDir) && Reaches(w, q) && ProperPlace(p) && (p.Pkg? || p.PkgFile?)
    ensures Same(AfterFetch(w, workingDir, nodes, q), Serve(w, workingDir, nodes, q).nodes, PathOf(workingDir, p))
  {
    var src := SrcOf(w, q);
    var installDir := if src.typ.Binary? then PathOf(workingDir, Bin(src.name, src.version)) else "";
    ServeAt(w, workingDir, nodes, q);
    if src.typ.Binary? {
      InstallsElsewhere(workingDir, src, p);
    }
    DownloadedElsewhere(w, nodes, src, PathOf(workingDir, PkgOf(src)), Options(q.cache, installDir), q.faults, PathOf(workingDir, p));
  }

  lemma FetchElsewhere(w: World, nodes: Nodes, src: Source, destDir: string, cache: bool, f: Faults, path: string)
    requires path != destDir && (Served(w, src).Some? ==> path != Target(src, destDir))
    ensures Same(nodes, FetchPhase(w, nodes, src, destDir, cache, f), path)
  {
  }

  // ---- What every history keeps ----

  /** A package directory and a file of it: the file is there only if the directory is. */
  predicate HousedAt(nodes: Nodes, dir: string, file: string) {
    (dir in nodes ==> nodes[dir] == Directory) && (file in nodes ==> dir in nodes && nodes[file] != Directory)
  }

  function FileIn(dir: Place, file: string): Place
    requires dir.Pkg?
  {
    PkgFile(dir.chart, dir.name, dir.version, file)
  }

  ghost predicate Tidy(workingDir: string, nodes: Nodes) {
    forall dir: Place, file: string | dir.Pkg? && ProperPlace(dir) && Segment(file) ::
      HousedAt(nodes, PathOf(workingDir, dir), PathOf(workingDir, FileIn(dir, file)))
  }

  predicate Housed(workingDir: string, nodes: Nodes, src: Source) {
    HousedAt(nodes, PathOf(workingDir, PkgOf(src)), CachedAt(workingDir, src))
  }

  lemma TidyHoused(workingDir: string, nodes: Nodes, src: Source)
    requires Tidy(workingDir, nodes) && ProperSource(src) && Segment(src.fileName)
    ensures Housed(workingDir, nodes, src)
  {
    assert FileIn(PkgOf(src), src.fileName) == FileOf(src);
  }

  lemma FetchHoused(w: World, nodes: Nodes, src: Source, destDir: string, target: string, cache: bool, f: Faults, file: string)
    requires HousedAt(nodes, destDir, file) && file != destDir && target != destDir
    requires Served(w, src).Some? ==> Target(src, destDir) == target
    ensures HousedAt(FetchPhase(w, nodes, src, destDir, cache, f), destDir, file)
  {
  }

  lemma HousedKept(a: Nodes, b: Nodes, dir: string, file: string)
    requires Same(a, b, dir) && Same(a, b, file) && HousedAt(a, dir, file)
    ensures HousedAt(b, dir, file)
  {
  }

  /** Where a source's download goes, if there is one. */
  lemma TargetAt(w: World, workingDir: string, q: Request)
    requires Proper(workingDir) && Reaches(w, q) && SrcOf(w, q).fileName != ""
    ensures var src := SrcOf(w, q);
            && Segment(src.fileName)
            && Target(src, PathOf(workingDir, PkgOf(src))) == CachedAt(workingDir, src)
            && PathJoin([PathOf(workingDir, PkgOf(src)), src.fileName]) == CachedAt(workingDir, src)
  {
    SourceFacts(w, q);
    FileInPlace(workingDir, PkgOf(SrcOf(w, q)), SrcOf(w, q).fileName);
  }

  lemma FetchTidyAt(w: World, workingDir: string, nodes: Nodes, q: Request, dir: Place, file: string)
    requires Proper(workingDir) && Reaches(w, q) && dir.Pkg? && ProperPlace(dir) && Segment(file)
    requires HousedAt(nodes, PathOf(workingDir, dir), PathOf(workingDir, FileIn(dir, file)))
    ensures HousedAt(AfterFetch(w, workingDir, nodes, q), PathOf(workingDir, dir), PathOf(workingDir, FileIn(dir, file)))
  {
    var src := SrcOf(w, q);
    var destDir := PathOf(workingDir, PkgOf(src));
    var target := if src.fileName != "" then CachedAt(workingDir, src) else PathOf(workingDir, FileIn(dir, file));
    SourceFacts(w, q);
    if src.fileName != "" {
      TargetAt(w, workingDir, q);
      PlacesDistinct(workingDir, FileOf(src), PkgOf(src));
      PlacesDistinct(workingDir, FileOf(src), dir);
      PlacesDistinct(workingDir, FileOf(src), FileIn(dir, file));
    }
    PlacesDistinct(workingDir, dir, FileIn(dir, file));
    PlacesDistinct(workingDir, PkgOf(src), FileIn(dir, file));
    PlacesDistinct(workingDir, PkgOf(src), dir);
    hide FetchPhase, Served, HousedAt, PathOf, Target;
    if dir == PkgOf(src) {
      FetchHoused(w, nodes, src, destDir, target, q.cache, q.faults, PathOf(workingDir, FileIn(dir, file)));
    } else {
      FetchElsewhere(w, nodes, src, destDir, q.cache, q.faults, PathOf(workingDir, dir));
      FetchElsewhere(w, nodes, src, destDir, q.cache, q.faults, PathOf(workingDir, FileIn(dir, file)));
      HousedKept(nodes, AfterFetch(w, workingDir, nodes, q), PathOf(workingDir, dir), PathOf(workingDir, FileIn(dir, file)));
    }
  }

  lemma TidyStep(w: World, workingDir: string, nodes: Nodes, q: Request)
    requires Proper(workingDir) && Reaches(w, q) && Tidy(workingDir, nodes)
    ensures Tidy(workingDir, Serve(w, workingDir, nodes, q).nodes)
  {
    hide Serve, HousedAt, PathOf, Reaches, AfterFetch;
    forall dir: Place, file: string | dir.Pkg? && ProperPlace(dir) && Segment(file)
      ensures HousedAt(Serve(w, workingDir, nodes, q).nodes, PathOf(workingDir, dir), PathOf(workingDir, FileIn(dir, file)))
    {
      FetchTidyAt(w, workingDir, nodes, q, dir, file);
      ServeElsewhere(w, workingDir, nodes, q, dir);
      ServeElsewhere(w, workingDir, nodes, q, FileIn(dir, file));
      HousedKept(AfterFetch(w, workingDir, nodes, q), Serve(w, workingDir, nodes, q).nodes,
                 PathOf(workingDir, dir), PathOf(workingDir, FileIn(dir, file)));
    }
  }

  lemma UnreachedServe(w: World, workingDir: string, nodes: Nodes, q: Request)
    requires Plain(w, q) && !Reaches(w, q)
    ensures Serve(w, workingDir, nodes, q).nodes == nodes && Serve(w, workingDir, nodes, q).result.Err?
  {
  }

  // ---- What a history holds ----

  predicate SamePlace(s: Source, t: Source) {
    s.typ == t.typ && s.name == t.name && s.version == t.version
  }

  /** One file of the cache: what `SourceFileName` says of file names makes the regions share it. */
  predicate SameArtifact(s: Source, t: Source) {
    SamePlace(s, t) && s.fileName == t.fileName
  }

  /** What a history leaves of one artifact: whether its directory exists, and the bytes of its file. */
  datatype Holding = Holding(dir: bool, content: Option<Content>)

  /** The effect of a request for the artifact, regions, cache flags and failures included. */
  function HoldingAfter(holding: Holding, served: Option<Content>, cache: bool, f: Faults): Holding {
    if cache && (f.stat || holding.content.Some?) then holding
    else if !holding.dir && f.mkdir then holding
    else if served == None || f.create then Holding(true, holding.content)
    else Holding(true, if f.torn.Some? then f.torn else served)
  }

  function HoldingNext(w: World, holding: Holding, q: Request, src: Source): Holding {
    if !Reaches(w, q) || !SamePlace(SrcOf(w, q), src) then holding
    else if SrcOf(w, q).fileName == src.fileName then HoldingAfter(holding, Served(w, SrcOf(w, q)), q.cache, q.faults)
    else holding.(dir := holding.dir || !((q.cache && q.faults.stat) || q.faults.mkdir))
  }

  /** The holding of `src` after a history, told without a disk and without paths. */
  ghost function Held(holding: Holding, h: seq<Exchange>, src: Source): Holding
    decreases |h|
  {
    if h == [] then holding else Held(HoldingNext(h[0].w, holding, h[0].q, src), h[1..], src)
  }

  function HoldingAt(nodes: Nodes, dir: string, file: string): Holding
    requires HousedAt(nodes, dir, file)
  {
    Holding(dir in nodes, if file in nodes then Some(nodes[file].content) else None)
  }

  /** The holding of a source on a disk. */
  ghost function HoldingOf(workingDir: string, nodes: Nodes, src: Source): Holding
    requires Tidy(workingDir, nodes) && ProperSource(src) && Segment(src.fileName)
  {
    assert FileIn(PkgOf(src), src.fileName) == FileOf(src);
    HoldingAt(nodes, PathOf(workingDir, PkgOf(src)), CachedAt(workingDir, src))
  }

  lemma HitHolding(w: World, nodes: Nodes, src: Source, destDir: string, file: string, f: Faults)
    requires HousedAt(nodes, destDir, file) && PathJoin([destDir, src.fileName]) == file && (f.stat || file in nodes)
    ensures FetchPhase(w, nodes, src, destDir, true, f) == nodes
    ensures HoldingAfter(HoldingAt(nodes, destDir, file), Served(w, src), true, f) == HoldingAt(nodes, destDir, file)
  {
    hide Fetched, Served;
  }

  lemma NoDirHolding(w: World, nodes: Nodes, src: Source, destDir: string, file: string, f: Faults)
    requires HousedAt(nodes, destDir, file) && destDir !in nodes && f.mkdir
    ensures Fetched(w, nodes, src, destDir, f).nodes == nodes
    ensures HoldingAfter(HoldingAt(nodes, destDir, file), Served(w, src), false, f) == HoldingAt(nodes, destDir, file)
  {
    hide Served, Written;
  }

  lemma NoFileHolding(w: World, nodes: Nodes, src: Source, destDir: string, file: string, f: Faults)
    requires destDir != file && HousedAt(nodes, destDir, file) && !(destDir !in nodes && f.mkdir)
    requires Served(w, src) == None || f.create
    ensures Fetched(w, nodes, src, destDir, f).nodes == WithDir(nodes, destDir)
    ensures HousedAt(WithDir(nodes, destDir), destDir, file)
    ensures HoldingAt(WithDir(nodes, destDir), destDir, file)
         == HoldingAfter(HoldingAt(nodes, destDir, file), Served(w, src), false, f)
  {
    hide Target;
  }

  lemma FileHolding(w: World, nodes: Nodes, src: Source, destDir: string, file: string, f: Faults)
    requires destDir != file && HousedAt(nodes, destDir, file) && !(destDir !in nodes && f.mkdir)
    requires Served(w, src).Some? && !f.create && Target(src, destDir) == file
    ensures var out := Fetched(w, nodes, src, destDir, f).nodes;
            && HousedAt(out, destDir, file)
            && HoldingAt(out, destDir, file) == HoldingAfter(HoldingAt(nodes, destDir, file), Served(w, src), false, f)
  {
    hide Target, Served;
  }

  /** Without a hit the cache flag makes no difference. */
  lemma MissHolding(holding: Holding, served: Option<Content>, cache: bool, f: Faults)
    requires cache ==> !f.stat && holding.content == None
    ensures HoldingAfter(holding, served, cache, f) == HoldingAfter(holding, served, false, f)
  {
  }

  lemma FetchHolding(w: World, nodes: Nodes, src: Source, destDir: string, file: string, cache: bool, f: Faults)
    requires destDir != file && HousedAt(nodes, destDir, file)
    requires PathJoin([destDir, src.fileName]) == file && Target(src, destDir) == file
    ensures var out := FetchPhase(w, nodes, src, destDir, cache, f);
            && HousedAt(out, destDir, file)
            && HoldingAt(out, destDir, file) == HoldingAfter(HoldingAt(nodes, destDir, file), Served(w, src), cache, f)
  {
    hide Fetched, Target, Served, HoldingAfter, PathJoin, WithDir;
    if cache && (f.stat || file in nodes) {
      HitHolding(w, nodes, src, destDir, file, f);
    } else {
      MissHolding(HoldingAt(nodes, destDir, file), Served(w, src), cache, f);
      if destDir !in nodes && f.mkdir {
        NoDirHolding(w, nodes, src, destDir, file, f);
      } else if Served(w, src) == None || f.create {
        NoFileHolding(w, nodes, src, destDir, file, f);
      } else {
        FileHolding(w, nodes, src, destDir, file, f);
      }
    }
  }

  /** A request for another file of the directory: it may create the directory. */
  lemma FetchDir(w: World, nodes: Nodes, src: Source, destDir: string, own: string, cache: bool, f: Faults)
    requires PathJoin([destDir, src.fileName]) == own && (own in nodes ==> destDir in nodes)
    requires Served(w, src).Some? ==> Target(src, destDir) != destDir
    ensures var out := FetchPhase(w, nodes, src, destDir, cache, f);
            destDir in out <==> destDir in nodes || !((cache && f.stat) || f.mkdir)
  {
    hide PathJoin, Target;
  }

  lemma HoldingKept(a: Nodes, b: Nodes, dir: string, file: string)
    requires Same(a, b, dir) && Same(a, b, file) && HousedAt(a, dir, file)
    ensures HousedAt(b, dir, file) && HoldingAt(b, dir, file) == HoldingAt(a, dir, file)
  {
  }

  lemma InstallKeepsHolding(w: World, workingDir: string, nodes: Nodes, q: Request, src: Source)
    requires Proper(workingDir) && Reaches(w, q) && ProperSource(src) && Segment(src.fileName)
    ensures var dir, file := PathOf(workingDir, PkgOf(src)), CachedAt(workingDir, src);
            && Same(AfterFetch(w, workingDir, nodes, q), Serve(w, workingDir, nodes, q).nodes, dir)
            && Same(AfterFetch(w, workingDir, nodes, q), Serve(w, workingDir, nodes, q).nodes, file)
  {
    ServeElsewhere(w, workingDir, nodes, q, PkgOf(src));
    ServeElsewhere(w, workingDir, nodes, q, FileOf(src));
  }

  lemma OwnHolding(w: World, workingDir: string, nodes: Nodes, q: Request, src: Source)
    requires Proper(workingDir) && Reaches(w, q) && SameArtifact(SrcOf(w, q), src) && Segment(src.fileName)
    requires HousedAt(nodes, PathOf(workingDir, PkgOf(src)), CachedAt(workingDir, src))
    ensures var dir, file := PathOf(workingDir, PkgOf(src)), CachedAt(workingDir, src);
            var out := AfterFetch(w, workingDir, nodes, q);
            && HousedAt(out, dir, file)
            && HoldingAt(out, dir, file) == HoldingAfter(HoldingAt(nodes, dir, file), Served(w, SrcOf(w, q)), q.cache, q.faults)
  {
    var own := SrcOf(w, q);
    assert PkgOf(own) == PkgOf(src) && FileOf(own) == FileOf(src);
    TargetAt(w, workingDir, q);
    PlacesDistinct(workingDir, PkgOf(src), FileOf(src));
    hide HoldingAfter, HoldingAt, HousedAt, FetchPhase, Served, PathOf;
    FetchHolding(w, nodes, own, PathOf(workingDir, PkgOf(own)), CachedAt(workingDir, own), q.cache, q.faults);
  }

  lemma NeighbourHolding(w: World, workingDir: string, nodes: Nodes, q: Request, src: Source)
    requires Proper(workingDir) && Reaches(w, q) && ProperSource(src) && Segment(src.fileName)
    requires SamePlace(SrcOf(w, q), src) && SrcOf(w, q).fileName != src.fileName && Tidy(workingDir, nodes)
    ensures var dir, file := PathOf(workingDir, PkgOf(src)), CachedAt(workingDir, src);
            var out := AfterFetch(w, workingDir, nodes, q);
            && Same(nodes, out, file)
            && (dir in out <==> dir in nodes || !((q.cache && q.faults.stat) || q.faults.mkdir))
  {
    var own := SrcOf(w, q);
    var dir, file := PathOf(workingDir, PkgOf(src)), CachedAt(workingDir, src);
    SourceFacts(w, q);
    PlacesDistinct(workingDir, PkgOf(src), FileOf(src));
    assert PkgOf(own) == PkgOf(src);
    OwnPath(w, workingDir, nodes, q);
    if own.fileName != "" {
      TargetAt(w, workingDir, q);
      PlacesDistinct(workingDir, FileOf(own), FileOf(src));
      PlacesDistinct(workingDir, FileOf(own), PkgOf(own));
    }
    hide FetchPhase, Served, Tidy, PathOf, Target, PathJoin;
    FetchElsewhere(w, nodes, own, dir, q.cache, q.faults, file);
    FetchDir(w, nodes, own, dir, PathJoin([dir, own.fileName]), q.cache, q.faults);
  }

  /** Whatever a request looks up is there only if its directory is. */
  lemma OwnPath(w: World, workingDir: string, nodes: Nodes, q: Request)
    requires Proper(workingDir) && Reaches(w, q) && Tidy(workingDir, nodes)
    ensures var dir := PathOf(workingDir, PkgOf(SrcOf(w, q)));
            PathJoin([dir, SrcOf(w, q).fileName]) in nodes ==> dir in nodes
  {
    var src := SrcOf(w, q);
    if src.fileName != "" {
      TargetAt(w, workingDir, q);
      assert FileIn(PkgOf(src), src.fileName) == FileOf(src);
    } else {
      PlaceProper(workingDir, PkgOf(src));
      JoinNothing(PathOf(workingDir, PkgOf(src)));
    }
  }

  lemma JoinNothing(dir: string)
    requires Proper(dir)
    ensures PathJoin([dir, ""]) == dir
  {
    TrailingSlash(dir);
    JoinCons(dir, [""], '/');
    assert [dir] + [""] == [dir, ""] && dir + ['/'] + "" == dir + ['/'];
  }

  lemma OtherHolding(w: World, workingDir: string, nodes: Nodes, q: Request, src: Source)
    requires Proper(workingDir) && Reaches(w, q) && ProperSource(src) && Segment(src.fileName)
    requires !SamePlace(SrcOf(w, q), src)
    ensures var out := AfterFetch(w, workingDir, nodes, q);
            Same(nodes, out, PathOf(workingDir, PkgOf(src))) && Same(nodes, out, CachedAt(workingDir, src))
  {
    var s := SrcOf(w, q);
    var destDir := PathOf(workingDir, PkgOf(s));
    SourceFacts(w, q);
    PlacesDistinct(workingDir, PkgOf(s), PkgOf(src));
    PlacesDistinct(workingDir, PkgOf(s), FileOf(src));
    if s.fileName != "" {
      TargetAt(w, workingDir, q);
      PlacesDistinct(workingDir, FileOf(s), PkgOf(src));
      PlacesDistinct(workingDir, FileOf(s), FileOf(src));
    }
    hide FetchPhase, Served, PathOf, Target;
    FetchElsewhere(w, nodes, s, destDir, q.cache, q.faults, PathOf(workingDir, PkgOf(src)));
    FetchElsewhere(w, nodes, s, destDir, q.cache, q.faults, CachedAt(workingDir, src));
  }

  lemma FetchedHolding(w: World, workingDir: string, nodes: Nodes, q: Request, src: Source)
    requires Proper(workingDir) && Reaches(w, q) && Tidy(workingDir, nodes) && ProperSource(src) && Segment(src.fileName)
    ensures var dir, file := PathOf(workingDir, PkgOf(src)), CachedAt(workingDir, src);
            var out := AfterFetch(w, workingDir, nodes, q);
            HousedAt(out, dir, file) && HoldingAt(out, dir, file) == HoldingNext(w, HoldingOf(workingDir, nodes, src), q, src)
  {
    var dir, file := PathOf(workingDir, PkgOf(src)), CachedAt(workingDir, src);
    TidyHoused(workingDir, nodes, src);
    assert FileIn(PkgOf(src), src.fileName) == FileOf(src);
    FetchTidyAt(w, workingDir, nodes, q, PkgOf(src), src.fileName);
    hide AfterFetch, HoldingAfter, Served, PathOf, Reaches;
    if SameArtifact(SrcOf(w, q), src) {
      OwnHolding(w, workingDir, nodes, q, src);
    } else if SamePlace(SrcOf(w, q), src) {
      NeighbourHolding(w, workingDir, nodes, q, src);
    } else {
      OtherHolding(w, workingDir, nodes, q, src);
      HoldingKept(nodes, AfterFetch(w, workingDir, nodes, q), dir, file);
    }
  }

  /** One request, seen by the holding of any source. */
  lemma HoldingStep(w: World, workingDir: string, nodes: Nodes, q: Request, src: Source)
    requires Proper(workingDir) && Plain(w, q) && Tidy(workingDir, nodes) && ProperSource(src) && Segment(src.fileName)
    ensures var out := Serve(w, workingDir, nodes, q).nodes;
            Tidy(workingDir, out) && HoldingOf(workingDir, out, src) == HoldingNext(w, HoldingOf(workingDir, nodes, src), q, src)
  {
    hide AfterFetch, Serve, HoldingAt, HousedAt, PathOf, Tidy, Plain;
    if Reaches(w, q) {
      TidyStep(w, workingDir, nodes, q);
      FetchedHolding(w, workingDir, nodes, q, src);
      InstallKeepsHolding(w, workingDir, nodes, q, src);
      HoldingKept(AfterFetch(w, workingDir, nodes, q), Serve(w, workingDir, nodes, q).nodes,
                  PathOf(workingDir, PkgOf(src)), CachedAt(workingDir, src));
    } else {
      UnreachedServe(w, workingDir, nodes, q);
    }
  }

  ghost predicate AllPlain(h: seq<Exchange>) {
    forall x | x in h :: Plain(x.w, x.q)
  }

  lemma {:induction false} RunHolding(workingDir: string, nodes: Nodes, h: seq<Exchange>, src: Source)
    requires Proper(workingDir) && AllPlain(h) && Tidy(workingDir, nodes) && ProperSource(src) && Segment(src.fileName)
    ensures Tidy(workingDir, Run(workingDir, nodes, h))
    ensures HoldingOf(workingDir, Run(workingDir, nodes, h), src) == Held(HoldingOf(workingDir, nodes, src), h, src)
    decreases |h|
  {
    hide Serve, HoldingOf, HoldingNext, Tidy, Plain;
    if h != [] {
      assert h[0] in h && forall x | x in h[1..] :: x in h;
      HoldingStep(h[0].w, workingDir, nodes, h[0].q, src);
      RunHolding(workingDir, Serve(h[0].w, workingDir, nodes, h[0].q).nodes, h[1..], src);
    }
  }
}
