/**
 The layout of the artifact directories: which places `AllocateArtifactFilePath` hands out and that,
 for proper names and versions, no two of them coincide.
 */
module ArtifactPlaces {
  import opened Text
  import opened Paths
  import opened Semver
  import opened Artifacts

  /** A directory allocated for an artifact, or a file directly in one. */
  datatype Place =
    | Pkg(chart: bool, name: string, version: string)
    | Bin(name: string, version: string)
    | PkgFile(chart: bool, name: string, version: string, file: string)
    | BinFile(name: string, version: string, file: string)

  function KindDir(chart: bool): string {
    if chart then "charts" else "binaries"
  }

  function Segments(p: Place): seq<string> {
    match p
    case Pkg(chart, name, version) => [ARTIFACTS_DIR, KindDir(chart), name, version, PKG]
    case Bin(name, version) => [ARTIFACTS_DIR, KindDir(false), name, version, BIN]
    case PkgFile(chart, name, version, file) => [ARTIFACTS_DIR, KindDir(chart), name, version, PKG, file]
    case BinFile(name, version, file) => [ARTIFACTS_DIR, KindDir(false), name, version, BIN, file]
  }

  function PathOf(workingDir: string, p: Place): string {
    Under(workingDir, Segments(p))
  }

  predicate ProperPlace(p: Place) {
    && Segment(p.name) && Segment(p.version)
    && (p.PkgFile? || p.BinFile? ==> Segment(p.file))
  }

  lemma FixedSegments()
    ensures Segment(ARTIFACTS_DIR) && Segment(BASE_DIR) && Segment(PKG) && Segment(BIN)
    ensures Segment(KindDir(true)) && Segment(KindDir(false)) && KindDir(true) != KindDir(false) && PKG != BIN
  {
    assert ARTIFACTS_DIR[0] == 'a' && PKG[0] == 'p' && BIN[0] == 'b' && |BASE_DIR| == 6;
    assert KindDir(true)[0] == 'c' && KindDir(false)[0] == 'b';
  }

  /** The working directory is a proper directory whatever the home directory is. */
  lemma WorkingDirProper(home: string)
    ensures Proper(WorkingDir(home))
  {
    FixedSegments();
    if home == "" {
      JoinBlank(BASE_DIR);
      SplitJoin([BASE_DIR], '/');
      NormalStays([], [BASE_DIR], false);
      assert [] + [BASE_DIR] == [BASE_DIR];
      CleanIdempotent(BASE_DIR);
    } else {
      var joined := Under(home, [BASE_DIR]);
      JoinCons(home, [BASE_DIR], '/');
      assert [home] + [BASE_DIR] == [home, BASE_DIR];
      UnderElements(home, [BASE_DIR]);
      CleanIdempotent(joined);
    }
  }

  lemma JoinBlank(name: string)
    requires name != ""
    ensures PathJoin(["", name]) == Clean(name)
  {
    assert ["", name][1..] == [name];
    assert Join([name], '/') == name;
  }

  lemma SegmentsProper(p: Place)
    requires ProperPlace(p)
    ensures forall s | s in Segments(p) :: Segment(s)
  {
    FixedSegments();
  }

  lemma SegmentsInjective(p: Place, q: Place)
    requires Segments(p) == Segments(q)
    ensures p == q
  {
    FixedSegments();
    var a, b := Segments(p), Segments(q);
    assert a[1] == b[1] && a[2] == b[2] && a[3] == b[3] && a[4] == b[4];
    assert |a| == 6 ==> a[5] == b[5];
  }

  /** Different places have different paths. */
  lemma PlacesDistinct(workingDir: string, p: Place, q: Place)
    requires ProperPlace(p) && ProperPlace(q)
    ensures PathOf(workingDir, p) == PathOf(workingDir, q) <==> p == q
  {
    SegmentsProper(p);
    SegmentsProper(q);
    UnderInjective(workingDir, Segments(p), Segments(q));
    if Segments(p) == Segments(q) {
      SegmentsInjective(p, q);
    }
  }

  lemma PlaceProper(workingDir: string, p: Place)
    requires Proper(workingDir) && ProperPlace(p)
    ensures Proper(PathOf(workingDir, p)) && PathJoin([workingDir] + Segments(p)) == PathOf(workingDir, p)
  {
    SegmentsProper(p);
    JoinUnder(workingDir, Segments(p));
  }

  /** A file joined to an allocated directory is the place with that file. */
  lemma FileInPlace(workingDir: string, dir: Place, file: string)
    requires Proper(workingDir) && ProperPlace(dir) && Segment(file) && (dir.Pkg? || dir.Bin?)
    ensures PathJoin([PathOf(workingDir, dir), file]) == PathOf(workingDir, InPlace(dir, file))
  {
    PlaceProper(workingDir, dir);
    JoinUnder(PathOf(workingDir, dir), [file]);
    assert [PathOf(workingDir, dir)] + [file] == [PathOf(workingDir, dir), file];
    UnderUnder(workingDir, Segments(dir), [file]);
    assert Segments(dir) + [file] == Segments(InPlace(dir, file));
  }

  function InPlace(dir: Place, file: string): Place
    requires dir.Pkg? || dir.Bin?
  {
    if dir.Pkg? then PkgFile(dir.chart, dir.name, dir.version, file) else BinFile(dir.name, dir.version, file)
  }

  // ---- Allocation ----

  predicate ProperSource(src: Source) {
    !src.typ.Unknown? && Segment(src.name) && Segment(src.version)
  }

  function AllocatedPlace(src: Source, installBinary: bool): Place {
    if src.typ.Binary? && installBinary then Bin(src.name, src.version)
    else Pkg(src.typ.Chart?, src.name, src.version)
  }

  lemma Allocated(workingDir: string, src: Source, installBinary: bool)
    requires Proper(workingDir) && ProperSource(src)
    ensures AllocateArtifactFilePath(workingDir, src, installBinary) == Ok(PathOf(workingDir, AllocatedPlace(src, installBinary)))
  {
    var p := AllocatedPlace(src, installBinary);
    PlaceProper(workingDir, p);
    hide PathJoin, Under, Proper, Segment;
    assert [workingDir] + Segments(p) == [workingDir, ARTIFACTS_DIR, KindDir(src.typ.Chart?), src.name, src.version, Segments(p)[4]];
  }

  lemma JoinFive(a: string, b: string, c: string, d: string, e: string)
    ensures Join([a, b, c, d, e], '/') == a + ['/'] + (b + ['/'] + (c + ['/'] + (d + ['/'] + e)))
  {
    JoinCons(d, [e], '/');
    JoinCons(c, [d, e], '/');
    JoinCons(b, [c, d, e], '/');
    JoinCons(a, [b, c, d, e], '/');
    assert [d] + [e] == [d, e] && [c] + [d, e] == [c, d, e] && [b] + [c, d, e] == [b, c, d, e] && [a] + [b, c, d, e] == [a, b, c, d, e];
  }

  /** The path as text. */
  lemma AllocatedText(workingDir: string, src: Source, installBinary: bool)
    requires Proper(workingDir) && ProperSource(src)
    ensures AllocateArtifactFilePath(workingDir, src, installBinary)
         == Ok(workingDir + ['/'] + ("artifacts" + ['/'] + ((if src.typ.Chart? then "charts" else "binaries") + ['/']
               + (src.name + ['/'] + (src.version + ['/'] + if src.typ.Binary? && installBinary then "bin" else "pkg")))))
  {
    var p := AllocatedPlace(src, installBinary);
    Allocated(workingDir, src, installBinary);
    JoinFive("artifacts", if src.typ.Chart? then "charts" else "binaries", src.name, src.version,
             if src.typ.Binary? && installBinary then "bin" else "pkg");
    hide Join;
    assert Segments(p) == ["artifacts", if src.typ.Chart? then "charts" else "binaries", src.name, src.version,
                           if src.typ.Binary? && installBinary then "bin" else "pkg"];
  }

  /**
   The allocated path determines type, name and version, and for binaries whether it is the package or
   the install directory, so no package directory is an install directory. An unknown type has no path.
   */
  lemma AllocationInjective(workingDir: string, s: Source, sBin: bool, t: Source, tBin: bool)
    requires Proper(workingDir) && ProperSource(s) && ProperSource(t)
    ensures AllocateArtifactFilePath(workingDir, s, sBin) == AllocateArtifactFilePath(workingDir, t, tBin)
       <==> s.typ == t.typ && s.name == t.name && s.version == t.version && (s.typ.Binary? ==> sBin == tBin)
  {
    Allocated(workingDir, s, sBin);
    Allocated(workingDir, t, tBin);
    PlacesDistinct(workingDir, AllocatedPlace(s, sBin), AllocatedPlace(t, tBin));
  }

  /** The binary path that `DownloadTo` derives from the package directory is a file of the install directory. */
  lemma BinaryInInstallDir(workingDir: string, src: Source)
    requires Proper(workingDir) && ProperSource(src) && src.typ.Binary?
    ensures var pkgDir := AllocateArtifactFilePath(workingDir, src, false).value;
            var installDir := AllocateArtifactFilePath(workingDir, src, true).value;
            && PathJoin([Dir(pkgDir), BIN, src.name]) == PathJoin([installDir, src.name])
            && Dir(PathJoin([installDir, src.name])) == installDir
  {
    Allocated(workingDir, src, false);
    Allocated(workingDir, src, true);
    FixedSegments();
    var common := [ARTIFACTS_DIR, KindDir(false), src.name, src.version];
    JoinUnder(workingDir, common);
    assert common + [PKG] == Segments(Pkg(false, src.name, src.version));
    assert common + [BIN] == Segments(Bin(src.name, src.version));
    UnderUnder(workingDir, common, [PKG]);
    UnderUnder(workingDir, common, [BIN]);
    Sibling(Under(workingDir, common), PKG, BIN, src.name);
  }

  /** What is joined to the working directory. */
  function RawSegments(src: Source, installBinary: bool): seq<string> {
    [ARTIFACTS_DIR, KindDir(src.typ.Chart?), src.name, src.version, if src.typ.Binary? && installBinary then BIN else PKG]
  }

  function RawPath(workingDir: string, src: Source, installBinary: bool): string {
    workingDir + ['/'] + Join(RawSegments(src, installBinary), '/')
  }

  /** Where a name and a version lead from the working directory, `.` and `..` resolved. */
  function Reached(workingDir: string, src: Source, installBinary: bool): seq<string> {
    Reduce(Pieces(RawSegments(src, installBinary)), Rooted(workingDir), Elements(workingDir))
  }

  lemma AllocatedRaw(workingDir: string, src: Source, installBinary: bool)
    requires Proper(workingDir) && !src.typ.Unknown?
    ensures var path := RawPath(workingDir, src, installBinary);
            && AllocateArtifactFilePath(workingDir, src, installBinary) == Ok(Clean(path))
            && path != "" && Rooted(path) == Rooted(workingDir) && Elements(path) == Reached(workingDir, src, installBinary)
  {
    var raw := RawSegments(src, installBinary);
    JoinCons(workingDir, raw, '/');
    assert [workingDir] + raw == [workingDir, raw[0], raw[1], raw[2], raw[3], raw[4]];
    SplitConcat(workingDir, Join(raw, '/'), '/');
    SplitPieces(raw);
    ReduceConcat(Split(workingDir, '/'), Pieces(raw), Rooted(workingDir), []);
  }

  /** For arbitrary names and versions, two allocations coincide exactly when they reach the same elements. */
  lemma AllocationExactly(workingDir: string, s: Source, sBin: bool, t: Source, tBin: bool)
    requires Proper(workingDir) && !s.typ.Unknown? && !t.typ.Unknown?
    ensures AllocateArtifactFilePath(workingDir, s, sBin) == AllocateArtifactFilePath(workingDir, t, tBin)
       <==> Reached(workingDir, s, sBin) == Reached(workingDir, t, tBin)
  {
    hide Reached, AllocateArtifactFilePath, RawPath;
    AllocatedRaw(workingDir, s, sBin);
    AllocatedRaw(workingDir, t, tBin);
    CleanEqual(RawPath(workingDir, s, sBin), RawPath(workingDir, t, tBin));
  }

  /** Allocation is not injective on all version strings: this one reaches into another chart's directory. */
  lemma VersionEscapes(workingDir: string, a: Source, b: Source)
    requires Proper(workingDir) && a.typ == b.typ == Chart && Segment(a.name) && ProperSource(b)
    requires a.version == ".." + ['/'] + (b.name + ['/'] + b.version)
    ensures AllocateArtifactFilePath(workingDir, a, false) == AllocateArtifactFilePath(workingDir, b, false)
  {
    FixedSegments();
    EscapedVersion(a.version, b.name, b.version);
    EscapedPieces(ARTIFACTS_DIR, KindDir(true), a.name, a.version, PKG, ["..", b.name, b.version]);
    PlainPieces(ARTIFACTS_DIR, KindDir(true), b.name, b.version, PKG);
    hide Pieces, Reduce, KindDir;
    ElementsNormal(workingDir);
    EscapedReduce(Elements(workingDir), ARTIFACTS_DIR, KindDir(true), a.name, b.name, b.version, PKG, Rooted(workingDir));
    AllocationExactly(workingDir, a, false, b, false);
  }

  lemma EscapedVersion(version: string, b: string, v: string)
    requires version == ".." + ['/'] + (b + ['/'] + v) && '/' !in b && '/' !in v
    ensures Split(version, '/') == ["..", b, v]
  {
    SplitTriple("..", b, v);
  }

  lemma SplitTriple(a: string, b: string, c: string)
    requires '/' !in a && '/' !in b && '/' !in c
    ensures Split(a + ['/'] + (b + ['/'] + c), '/') == [a, b, c]
  {
    SplitAt(a, b + ['/'] + c, '/');
    SplitAt(b, c, '/');
  }

  lemma EscapedPieces(artifacts: string, kind: string, name: string, version: string, last: string, pieces: seq<string>)
    requires '/' !in artifacts && '/' !in kind && '/' !in name && '/' !in last && Split(version, '/') == pieces
    ensures Pieces([artifacts, kind, name, version, last]) == [artifacts, kind, name] + pieces + [last]
  {
    assert [artifacts, kind, name, version, last] == [artifacts, kind, name] + ([version] + [last]);
    PiecesConcat([artifacts, kind, name], [version] + [last]);
    PiecesConcat([version], [last]);
    PiecesPlain([artifacts, kind, name]);
    PiecesPlain([last]);
    assert [version][1..] == [];
  }

  lemma PlainPieces(artifacts: string, kind: string, name: string, version: string, last: string)
    requires '/' !in artifacts && '/' !in kind && '/' !in name && '/' !in version && '/' !in last
    ensures Pieces([artifacts, kind, name, version, last]) == [artifacts, kind, name, version, last]
  {
    PiecesPlain([artifacts, kind, name, version, last]);
  }

  lemma EscapedReduce(e: seq<string>, artifacts: string, kind: string, gone: string, b: string, v: string, last: string, rooted: bool)
    requires Normal(rooted, e) && Segment(artifacts) && Segment(kind) && Segment(gone) && Segment(b) && Segment(v) && Segment(last)
    ensures Reduce([artifacts, kind, gone] + ["..", b, v] + [last], rooted, e) == Reduce([artifacts, kind, b, v, last], rooted, e)
  {
    var front, back := [artifacts, kind], [b, v, last];
    assert [artifacts, kind, gone] + ["..", b, v] + [last] == front + [gone, ".."] + back;
    UpReduce(e, front, gone, back, rooted);
    assert [artifacts, kind, b, v, last] == front + back;
    NormalStays(e, front + back, rooted);
    assert e + (front + back) == e + front + back;
  }
}
