/**
 What a request for an artifact comes to (pkg/artifacts/manager.go): when it is answered, and for a binary, what is
 then found under the path it is answered with.
 */
module ArtifactInstall {
  import opened Text
  import opened Paths
  import opened Semver
  import opened Artifacts
  import opened ArtifactPlaces
  import opened ArtifactSources
  import opened ArtifactCache
  import opened ArtifactCoherence

  // ---- Answered requests ----

  lemma FetchedOk(w: World, nodes: Nodes, src: Source, destDir: string, file: string, f: Faults)
    requires destDir != file && HousedAt(nodes, destDir, file) && Target(src, destDir) == file
    ensures var out := Fetched(w, nodes, src, destDir, f);
            && (out.result.Ok? <==> (destDir in nodes || !f.mkdir) && Served(w, src).Some? && !f.create && f.torn == None)
            && (out.result.Ok? ==> file in out.nodes && out.nodes[file] == File(Served(w, src).value))
  {
    hide Served, Target;
  }

  lemma InstalledOk(w: World, nodes: Nodes, file: string, installDir: string, f: Faults)
    requires file in nodes && nodes[file] != Directory
    ensures Installed(w, nodes, file, installDir, f).result.Ok? <==> !f.install && Opens(w, file, nodes[file].content)
  {
    UnpackedExactly(w, WithDir(nodes, installDir), file);
    hide Unpacked, EndsWith, Placed;
  }

  lemma DeliveredExactly(w: World, nodes: Nodes, src: Source, destDir: string, installDir: string, f: Faults, file: string)
    requires file == PathJoin([destDir, src.fileName]) && file in nodes && nodes[file] != Directory
    requires src.typ.Binary? ==> installDir != ""
    ensures Delivered(w, nodes, src, destDir, installDir, f).result.Ok?
       <==> (src.typ.Binary? ==> !f.install && Opens(w, file, nodes[file].content))
  {
    hide PathJoin, Installed, Opens;
    if src.typ.Binary? {
      InstalledOk(w, nodes, file, installDir, f);
    }
  }

  /** The bytes of the file come from the cache, or they are served and written without a fault. */
  predicate Obtains(holding: Holding, served: Option<Content>, cache: bool, f: Faults, bytes: Content) {
    if cache && holding.content.Some? then !f.stat && holding.content == Some(bytes)
    else !(cache && f.stat) && (holding.dir || !f.mkdir) && !f.create && f.torn == None && served == Some(bytes)
  }

  lemma DownloadedExactly(w: World, nodes: Nodes, src: Source, destDir: string, opts: Options, f: Faults, file: string)
    requires destDir != file && HousedAt(nodes, destDir, file)
    requires file == PathJoin([destDir, src.fileName]) == Target(src, destDir)
    requires src.typ.Binary? ==> opts.binaryInstallDir != ""
    ensures Downloaded(w, nodes, src, destDir, opts, f).result.Ok?
       <==> exists bytes ::
              && Obtains(HoldingAt(nodes, destDir, file), Served(w, src), opts.enableCache, f, bytes)
              && (src.typ.Binary? ==> !f.install && Opens(w, file, bytes))
  {
    var out := Downloaded(w, nodes, src, destDir, opts, f);
    var holding := HoldingAt(nodes, destDir, file);
    hide PathJoin, Target, Opens, Delivered, Fetched, Served;
    if opts.enableCache && (f.stat || file in nodes) {
      if !f.stat {
        DeliveredExactly(w, nodes, src, destDir, opts.binaryInstallDir, f, file);
        assert Obtains(holding, Served(w, src), opts.enableCache, f, nodes[file].content);
      }
    } else {
      FetchedOk(w, nodes, src, destDir, file, f);
      var fetched := Fetched(w, nodes, src, destDir, f);
      if fetched.result.Ok? {
        DeliveredExactly(w, fetched.nodes, src, destDir, opts.binaryInstallDir, f, file);
        assert Obtains(holding, Served(w, src), opts.enableCache, f, Served(w, src).value);
      }
    }
  }

  lemma FileEnds(workingDir: string, src: Source, ext: string)
    requires Proper(workingDir) && ProperSource(src) && Segment(src.fileName) && '/' !in ext
    ensures EndsWith(CachedAt(workingDir, src), ext) <==> EndsWith(src.fileName, ext)
  {
    var dir, name := PathOf(workingDir, PkgOf(src)), src.fileName;
    FileInPlace(workingDir, PkgOf(src), name);
    PlaceProper(workingDir, PkgOf(src));
    JoinOne(dir, name);
    hide PathOf, PathJoin, Proper, EndsWith;
    var head := dir + ['/'];
    assert CachedAt(workingDir, src) == head + name;
    assert '/' in head;
    EndsWithTail(head, name, ext);
  }

  lemma EndsWithTail(head: string, name: string, ext: string)
    requires head != "" && head[|head| - 1] == '/' && '/' !in name && '/' !in ext
    ensures EndsWith(head + name, ext) <==> EndsWith(name, ext)
  {
    if EndsWith(head + name, ext) {
      LastPartEnds(head + name, ext);
      LastPartTail(head, name);
      assert LastIndexOf(head, '/') == |head| - 1;
      assert "" + name == name;
    }
    if EndsWith(name, ext) {
      assert EndsWith(head + name, name);
      EndsTransitive(head + name, name, ext);
    }
  }

  lemma OpensAt(w: World, workingDir: string, src: Source, bytes: Content)
    requires Proper(workingDir) && ProperSource(src) && Segment(src.fileName)
    ensures Opens(w, CachedAt(workingDir, src), bytes) <==> Opens(w, src.fileName, bytes)
  {
    OneDot();
    FileEnds(workingDir, src, ".zip");
    FileEnds(workingDir, src, ".tgz");
    FileEnds(workingDir, src, ".gz");
    hide EndsWith, CachedAt;
  }

  /** On any disk that histories leave: a request is answered exactly when its bytes are obtained and, for a binary, unpack. */
  lemma ServeExactly(w: World, workingDir: string, nodes: Nodes, q: Request)
    requires Proper(workingDir) && Reaches(w, q) && Tidy(workingDir, nodes) && SrcOf(w, q).fileName != ""
    ensures Segment(SrcOf(w, q).fileName)
    ensures var src := SrcOf(w, q);
            Serve(w, workingDir, nodes, q).result.Ok? <==>
              exists bytes ::
                && Obtains(HoldingOf(workingDir, nodes, src), Served(w, src), q.cache, q.faults, bytes)
                && (src.typ.Binary? ==> !q.faults.install && Opens(w, src.fileName, bytes))
  {
    var src := SrcOf(w, q);
    var dir, file := PathOf(workingDir, PkgOf(src)), CachedAt(workingDir, src);
    TargetAt(w, workingDir, q);
    ServeAt(w, workingDir, nodes, q);
    TidyHoused(workingDir, nodes, src);
    PlacesDistinct(workingDir, PkgOf(src), FileOf(src));
    hide Serve, Downloaded, Obtains, Opens, PathJoin, Target, Served, Tidy, HousedAt, HoldingAt, PathOf, Reaches, SrcOf;
    assert HoldingOf(workingDir, nodes, src) == HoldingAt(nodes, dir, file);
    forall bytes ensures Opens(w, file, bytes) <==> Opens(w, src.fileName, bytes) {
      OpensAt(w, workingDir, src, bytes);
    }
    var installDir := if src.typ.Binary? then PathOf(workingDir, Bin(src.name, src.version)) else "";
    BinPathNamed(workingDir, src);
    DownloadedExactly(w, nodes, src, dir, Options(q.cache, installDir), q.faults, file);
  }

  lemma BinPathNamed(workingDir: string, src: Source)
    ensures PathOf(workingDir, Bin(src.name, src.version)) != ""
  {
  }

  /** A binary other than those of etcd and greptime is never answered. */
  lemma NamelessFails(w: World, workingDir: string, nodes: Nodes, q: Request)
    requires Proper(workingDir) && Reaches(w, q) && Tidy(workingDir, nodes) && SrcOf(w, q).fileName == ""
    ensures Serve(w, workingDir, nodes, q).result.Err? && SrcOf(w, q).typ.Binary? && q.name !in ["etcd", "greptime"]
  {
    var src := SrcOf(w, q);
    var dir := PathOf(workingDir, PkgOf(src));
    SourceFacts(w, q);
    NamelessBinary(w, q);
    ServeAt(w, workingDir, nodes, q);
    PlaceProper(workingDir, PkgOf(src));
    JoinNothing(dir);
    DirSound(workingDir, nodes, src);
    hide Serve, PathOf, PathJoin, Served, Target, Tidy, SrcOf, Reaches;
    DirectoryFails(w, nodes, src, dir, Options(q.cache, PathOf(workingDir, Bin(src.name, src.version))), q.faults);
  }

  lemma NamelessBinary(w: World, q: Request)
    requires Reaches(w, q) && SrcOf(w, q).fileName == ""
    ensures SrcOf(w, q).typ.Binary? && q.name !in ["etcd", "greptime"]
  {
    Resolved(w, q);
    var src := SrcOf(w, q);
    if src.typ.Chart? {
      ChartSource(w, src.name, src.version, q.cn);
    } else if src.name == "etcd" {
      EtcdSource(w, src.version, q.cn);
    } else if src.name == "greptime" {
      GreptimeSource(w, src.version, q.cn);
    }
  }

  lemma DirectoryFails(w: World, nodes: Nodes, src: Source, dir: string, opts: Options, f: Faults)
    requires src.typ.Binary? && Served(w, src) == None && PathJoin([dir, src.fileName]) == dir
    requires dir in nodes ==> nodes[dir] == Directory
    ensures Downloaded(w, nodes, src, dir, opts, f).result.Err?
  {
    hide Served, PathJoin, Target;
  }

  /**
   After every history, with whatever regions, cache flags, failures and changes it saw: an undisturbed request
   is answered exactly when, for a binary, the archive unpacks. The archive is what the history holds, if
   the cache is asked and holds something, and what the server has otherwise.
   */
  lemma AnsweredExactly(home: string, h: seq<Exchange>, w: World, q: Request)
    requires AllPlain(h) && Available(w, q)
    ensures var src := SrcOf(w, q);
            var held := Held(NOTHING, h, src).content;
            var bytes := if q.cache && held.Some? then held.value else Served(w, src).value;
            Serve(w, WorkingDir(home), Run(WorkingDir(home), map[], h), q).result.Ok? <==>
              src.typ.Chart? || Opens(w, src.fileName, bytes)
  {
    var workingDir, src := WorkingDir(home), SrcOf(w, q);
    WorkingDirProper(home);
    AvailableNamed(w, q);
    EmptyTidy(workingDir);
    RunHolding(workingDir, map[], h, src);
    HoldingRead(workingDir, map[], src);
    assert HoldingOf(workingDir, map[], src) == NOTHING;
    ServeExactly(w, workingDir, Run(workingDir, map[], h), q);
    hide Run, Held, Serve, Tidy, HoldingOf, Served, Opens, SrcOf, Reaches;
    var holding := Held(NOTHING, h, src);
    var bytes := if q.cache && holding.content.Some? then holding.content.value else Served(w, src).value;
    assert Obtains(holding, Served(w, src), q.cache, q.faults, bytes);
  }

  /** The kind of archive: zip for etcd on macOS, gzipped tar for every other binary. */
  lemma OpensExactly(w: World, q: Request, bytes: Content)
    requires Available(w, q) && SrcOf(w, q).typ.Binary?
    ensures Opens(w, SrcOf(w, q).fileName, bytes)
       <==> if q.name == "etcd" && w.goos == "darwin" then w.unzip(bytes).Some? else w.untar(bytes).Some?
  {
    var file := SrcOf(w, q).fileName;
    ArchiveEnds(w, q);
    OneEnding(file);
  }

  lemma OneEnding(file: string)
    ensures EndsWith(file, ".zip") ==> !EndsWith(file, ".gz") && !EndsWith(file, ".tgz")
  {
    LastChar(file, ".zip");
    LastChar(file, ".gz");
    LastChar(file, ".tgz");
    assert ".gz"[2] == 'z' && ".tgz"[3] == 'z' && ".zip"[3] == 'p';
  }

  lemma LastChar(file: string, ext: string)
    requires ext != ""
    ensures EndsWith(file, ext) ==> file != "" && file[|file| - 1] == ext[|ext| - 1]
  {
  }

  lemma ArchiveEnds(w: World, q: Request)
    requires Available(w, q) && SrcOf(w, q).typ.Binary?
    ensures var file := SrcOf(w, q).fileName;
            if q.name == "etcd" && w.goos == "darwin" then EndsWith(file, ".zip") else EndsWith(file, ".gz") || EndsWith(file, ".tgz")
  {
    Resolved(w, q);
    AvailableNamed(w, q);
    var src := SrcOf(w, q);
    OtherBinary(w, src.name, src.version, q.cn);
    if src.name == "etcd" {
      EtcdSource(w, src.version, q.cn);
    } else {
      GreptimeSource(w, src.version, q.cn);
    }
  }

  lemma OtherBinary(w: World, name: string, version: string, cn: bool)
    ensures name !in ["etcd", "greptime"] ==> SourceOf(w, name, version, Binary, cn) == Ok(Source(name, "", "", version, Binary, cn))
  {
  }

  // ---- Installed binaries ----

  /** What the archive of a binary request unpacks to. */
  function ArchiveOf(w: World, workingDir: string, nodes: Nodes, q: Request): Option<seq<Exe>>
    requires Reaches(w, q)
  {
    var src := SrcOf(w, q);
    var installDir := PathOf(workingDir, Bin(src.name, src.version));
    Unpacked(w, WithDir(AfterFetch(w, workingDir, nodes, q), installDir), PathJoin([PathOf(workingDir, PkgOf(src)), src.fileName]))
  }

  lemma DeliveredOk(w: World, nodes: Nodes, src: Source, destDir: string, installDir: string, f: Faults)
    requires src.typ.Binary? && Delivered(w, nodes, src, destDir, installDir, f).result.Ok?
    ensures var exes := Unpacked(w, WithDir(nodes, installDir), PathJoin([destDir, src.fileName]));
            && exes.Some?
            && Delivered(w, nodes, src, destDir, installDir, f)
                 == Outcome(Ok(PathJoin([Dir(destDir), BIN, src.name])), Placed(WithDir(nodes, installDir), installDir, exes.value))
  {
    hide Unpacked, Placed, PathJoin, Dir;
  }

  lemma DownloadedOk(w: World, nodes: Nodes, src: Source, destDir: string, opts: Options, f: Faults)
    requires src.typ.Binary? && Downloaded(w, nodes, src, destDir, opts, f).result.Ok?
    ensures Downloaded(w, nodes, src, destDir, opts, f)
         == Delivered(w, FetchPhase(w, nodes, src, destDir, opts.enableCache, f), src, destDir, opts.binaryInstallDir, f)
  {
    hide Delivered, Fetched, PathJoin;
  }

  lemma DeliveredBinary(w: World, nodes: Nodes, src: Source, destDir: string, opts: Options, f: Faults)
    requires src.typ.Binary? && Downloaded(w, nodes, src, destDir, opts, f).result.Ok?
    ensures var before := WithDir(FetchPhase(w, nodes, src, destDir, opts.enableCache, f), opts.binaryInstallDir);
            var exes := Unpacked(w, before, PathJoin([destDir, src.fileName]));
            && exes.Some?
            && Downloaded(w, nodes, src, destDir, opts, f)
                 == Outcome(Ok(PathJoin([Dir(destDir), BIN, src.name])), Placed(before, opts.binaryInstallDir, exes.value))
  {
    hide Downloaded, Delivered, FetchPhase, Unpacked, Placed, PathJoin, Dir, WithDir;
    DownloadedOk(w, nodes, src, destDir, opts, f);
    DeliveredOk(w, FetchPhase(w, nodes, src, destDir, opts.enableCache, f), src, destDir, opts.binaryInstallDir, f);
  }

  lemma BinFileUntouched(w: World, workingDir: string, nodes: Nodes, q: Request, file: string)
    requires Proper(workingDir) && Reaches(w, q) && SrcOf(w, q).typ.Binary? && Segment(file)
    ensures var src := SrcOf(w, q);
            var before := WithDir(AfterFetch(w, workingDir, nodes, q), PathOf(workingDir, Bin(src.name, src.version)));
            Same(nodes, before, PathOf(workingDir, BinFile(src.name, src.version, file)))
  {
    var s := SrcOf(w, q);
    var place := BinFile(s.name, s.version, file);
    SourceFacts(w, q);
    PlacesDistinct(workingDir, PkgOf(s), place);
    PlacesDistinct(workingDir, Bin(s.name, s.version), place);
    if s.fileName != "" {
      FileInPlace(workingDir, PkgOf(s), s.fileName);
      PlacesDistinct(workingDir, FileOf(s), place);
    }
    FetchElsewhere(w, nodes, s, PathOf(workingDir, PkgOf(s)), q.cache, q.faults, PathOf(workingDir, place));
  }

  /**
   The path returned for a binary is not looked at. It names a file exactly when the archive holds an
   executable called like the artifact, whose bytes it then has, or one was there before.
   */
  lemma BinaryPresent(w: World, workingDir: string, nodes: Nodes, q: Request)
    requires Proper(workingDir) && Reaches(w, q) && SrcOf(w, q).typ.Binary? && Serve(w, workingDir, nodes, q).result.Ok?
    ensures var src := SrcOf(w, q);
            var out, exes := Serve(w, workingDir, nodes, q), ArchiveOf(w, workingDir, nodes, q);
            && out.result.value == PathOf(workingDir, BinFile(src.name, src.version, src.name))
            && exes.Some?
            && (out.result.value in out.nodes <==> LastOf(exes.value, src.name).Some? || out.result.value in nodes)
            && (LastOf(exes.value, src.name).Some? ==> out.nodes[out.result.value] == File(LastOf(exes.value, src.name).value))
  {
    var src := SrcOf(w, q);
    var destDir, bin := PathOf(workingDir, PkgOf(src)), Bin(src.name, src.version);
    ServeAt(w, workingDir, nodes, q);
    DeliveredBinary(w, nodes, src, destDir, Options(q.cache, PathOf(workingDir, bin)), q.faults);
    BinFileUntouched(w, workingDir, nodes, q, src.name);
    hide Serve, Downloaded, Placed, Unpacked, PathJoin, Dir;
    Allocated(workingDir, src, false);
    Allocated(workingDir, src, true);
    BinaryInInstallDir(workingDir, src);
    FileInPlace(workingDir, bin, src.name);
    PlaceProper(workingDir, bin);
    var before := WithDir(AfterFetch(w, workingDir, nodes, q), PathOf(workingDir, bin));
    PlacedAt(before, PathOf(workingDir, bin), ArchiveOf(w, workingDir, nodes, q).value, src.name);
  }
}
