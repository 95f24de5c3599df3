/**
 Where artifacts come from and where they are kept (pkg/artifacts/manager.go, pkg/metadata/manager.go):
 the source of an artifact, the paths allocated for it, and the download that consults the cache.
 Everything outside the program, from the servers to the failures of single steps, is a parameter.
 */
module Artifacts {
  import opened Text
  import opened Paths
  import opened Semver

  type Content = seq<bv8>

  datatype ArtifactType = Chart | Binary | Unknown(name: string)

  datatype Source = Source(name: string, fileName: string, url: string, version: string, typ: ArtifactType, fromCNRegion: bool)

  type ExeName = s: string | Segment(s) witness "greptime"

  datatype Exe = Exe(name: ExeName, content: Content)

  /**
   The remote side: answers of the version services and of the servers, and the executables that bytes unpack to
   as a zip or as a gzipped tar archive, in the order of a walk over the unpacked tree, which is lexical and not
   that of the archive.
   */
  datatype World = World(
    goos: string,
    goarch: string,
    latest: (ArtifactType, string, bool) -> Result<string>,
    release: Result<string>,
    http: string -> Option<Content>,
    oci: (string, string) -> Option<Content>,
    unzip: Content -> Option<seq<Exe>>,
    untar: Content -> Option<seq<Exe>>)

  const LATEST_VERSION_TAG := "latest"
  const ETCD := "etcd"
  const GREPTIME := "greptime"
  const HTTPS := "https://"
  const OCI := "oci://"
  const CN_SERVER := HTTPS + "downloads.greptime.cn/"
  const CN_BUCKET := CN_SERVER + "releases"
  const GITHUB := HTTPS + "github.com/"
  const GREPTIME_CHARTS := GITHUB + "GreptimeTeam/helm-charts/releases/download"
  const GREPTIME_RELEASES := GITHUB + "GreptimeTeam/greptimedb/releases/download"
  const ETCD_RELEASES := GITHUB + "etcd-io/etcd/releases/download"
  const ETCD_OCI_REGISTRY := OCI + "registry-1.docker.io/bitnamicharts" + ['/'] + ETCD

  // ---- Sources ----

  function ChartFileName(name: string, version: string): string {
    name + "-" + version + ".tgz"
  }

  function ChartURL(name: string, version: string, cn: bool): string {
    if cn then CN_BUCKET + "/charts/" + name + "/" + version + "/" + ChartFileName(name, version)
    else if name == ETCD then ETCD_OCI_REGISTRY
    else GREPTIME_CHARTS + "/" + name + "-" + version + "/" + ChartFileName(name, version)
  }

  function EtcdPackage(w: World, version: string): Result<string> {
    if w.goos == "darwin" then Ok("etcd-" + version + "-" + w.goos + "-" + w.goarch + ".zip")
    else if w.goos == "linux" then Ok("etcd-" + version + "-" + w.goos + "-" + w.goarch + ".tar.gz")
    else Err("unsupported OS")
  }

  function EtcdBinaryURL(w: World, version: string, cn: bool): Result<string> {
    match EtcdPackage(w, version)
    case Err(e) => Err(e)
    case Ok(package) => Ok((if cn then CN_BUCKET + "/etcd" else ETCD_RELEASES) + "/" + version + ['/'] + package)
  }

  function GreptimePackage(w: World, version: string): Result<string> {
    match IsBreakingVersion(version)
    case Err(e) => Err(e)
    case Ok(newVersion) =>
      if newVersion then Ok("greptime-" + w.goos + "-" + w.goarch + "-" + version + ".tar.gz")
      else Ok("greptime-" + w.goos + "-" + w.goarch + ".tgz")
  }

  function GreptimeBinaryURL(w: World, version: string, cn: bool): Result<string> {
    match GreptimePackage(w, version)
    case Err(e) => Err(e)
    case Ok(package) => Ok((if cn then CN_BUCKET + "/greptimedb" else GREPTIME_RELEASES) + "/" + version + ['/'] + package)
  }

  function BinarySource(name: string, version: string, cn: bool, url: Result<string>): Result<Source> {
    match url
    case Err(e) => Err(e)
    case Ok(u) => Ok(Source(name, Base(u), u, version, Binary, cn))
  }

  /** The source of a resolved version. */
  function SourceOf(w: World, name: string, version: string, typ: ArtifactType, cn: bool): Result<Source> {
    if typ.Chart? then
      Ok(Source(name, ChartFileName(name, version), ChartURL(name, version, cn), version, typ, cn))
    else if typ.Binary? && name == ETCD then
      BinarySource(name, version, cn, EtcdBinaryURL(w, version, cn))
    else if typ.Binary? && name == GREPTIME then
      if version == LATEST_VERSION_TAG && !cn then
        match w.release
        case Err(e) => Err(e)
        case Ok(v) => BinarySource(name, version, cn, GreptimeBinaryURL(w, v, cn))
      else BinarySource(name, version, cn, GreptimeBinaryURL(w, version, cn))
    else Ok(Source(name, "", "", version, typ, cn))
  }

  function NewSource(w: World, name: string, version: string, typ: ArtifactType, cn: bool): Result<Source> {
    if version == LATEST_VERSION_TAG || version == "" then
      match w.latest(typ, name, cn)
      case Err(e) => Err(e)
      case Ok(v) => SourceOf(w, name, v, typ, cn)
    else SourceOf(w, name, version, typ, cn)
  }

  predicate IsOCI(url: string) {
    OCI <= url
  }

  predicate Pulls(src: Source) {
    IsOCI(src.url) && src.typ.Chart?
  }

  /** What the server answers for a source now; a request without a URL fails. */
  function Served(w: World, src: Source): Option<Content> {
    if Pulls(src) then w.oci(src.url, src.version)
    else if src.url == "" then None
    else w.http(src.url)
  }

  // ---- Paths ----

  const ARTIFACTS_DIR := "artifacts"
  const BASE_DIR := ".gtctl"
  const PKG := "pkg"
  const BIN := "bin"

  function WorkingDir(home: string): string {
    PathJoin([home, BASE_DIR])
  }

  function AllocateArtifactFilePath(workingDir: string, src: Source, installBinary: bool): Result<string> {
    match src.typ
    case Chart => Ok(PathJoin([workingDir, ARTIFACTS_DIR, "charts", src.name, src.version, PKG]))
    case Binary => Ok(PathJoin([workingDir, ARTIFACTS_DIR, "binaries", src.name, src.version, if installBinary then BIN else PKG]))
    case Unknown(_) => Err("unknown artifact type")
  }

  // ---- Downloading ----

  datatype Node = Directory | File(content: Content)

  type Nodes = map<string, Node>

  /** Which steps of one call fail; `torn` is what a failed write leaves in the file. */
  datatype Faults = Faults(stat: bool, mkdir: bool, create: bool, torn: Option<Content>, install: bool)

  const NO_FAULTS := Faults(false, false, false, None, false)

  datatype Options = Options(enableCache: bool, binaryInstallDir: string)

  datatype Outcome = Outcome(result: Result<string>, nodes: Nodes)

  function WithDir(nodes: Nodes, dir: string): Nodes {
    if dir in nodes then nodes else nodes[dir := Directory]
  }

  /** `os.Create` and `Write`. */
  function Written(nodes: Nodes, dir: string, file: string, content: Content, f: Faults): Outcome {
    if f.create || dir !in nodes || nodes[dir] != Directory || (file in nodes && nodes[file] == Directory)
    then Outcome(Err("create"), nodes)
    else match f.torn
      case Some(part) => Outcome(Err("write"), nodes[file := File(part)])
      case None => Outcome(Ok(file), nodes[file := File(content)])
  }

  /** Where the bytes of a download go: a pull names the file itself. */
  function Target(src: Source, destDir: string): string {
    PathJoin([destDir, if Pulls(src) then Base(src.url) + "-" + src.version + ".tgz" else src.fileName])
  }

  function Fetched(w: World, nodes: Nodes, src: Source, destDir: string, f: Faults): Outcome {
    if destDir !in nodes && f.mkdir then Outcome(Err("mkdir"), nodes)
    else match Served(w, src)
      case None => Outcome(Err("download failed"), WithDir(nodes, destDir))
      case Some(content) => Written(WithDir(nodes, destDir), destDir, Target(src, destDir), content, f)
  }

  function Placed(nodes: Nodes, dir: string, exes: seq<Exe>): Nodes
    decreases |exes|
  {
    if exes == [] then nodes
    else Placed(nodes[PathJoin([dir, exes[0].name]) := File(exes[0].content)], dir, exes[1..])
  }

  /** The content of the last executable of that name on the walk. */
  function LastOf(exes: seq<Exe>, name: ExeName): Option<Content> {
    if exes == [] then None
    else
      var later := LastOf(exes[1..], name);
      if later.Some? then later else if exes[0].name == name then Some(exes[0].content) else None
  }

  predicate Same(a: Nodes, b: Nodes, path: string) {
    (path in a <==> path in b) && (path in a ==> a[path] == b[path])
  }

  /** The file called `name` in `dir` is the last executable of that name, or what it was if there is none. */
  predicate HoldsExe(before: Nodes, after: Nodes, dir: string, exes: seq<Exe>, name: ExeName) {
    var file := PathJoin([dir, name]);
    match LastOf(exes, name)
    case Some(content) => file in after && after[file] == File(content)
    case None => Same(before, after, file)
  }

  lemma {:induction false} PlacedAt(nodes: Nodes, dir: string, exes: seq<Exe>, name: ExeName)
    requires Proper(dir)
    ensures HoldsExe(nodes, Placed(nodes, dir, exes), dir, exes, name)
    decreases |exes|
  {
    if exes != [] {
      var first := exes[0];
      OneFile(dir, first.name, name);
      hide PathJoin;
      PlacedAt(nodes[PathJoin([dir, first.name]) := File(first.content)], dir, exes[1..], name);
    }
  }

  lemma OneFile(dir: string, a: string, b: string)
    requires Proper(dir) && Segment(a) && Segment(b)
    ensures PathJoin([dir, a]) == PathJoin([dir, b]) <==> a == b
  {
    JoinOne(dir, a);
    JoinOne(dir, b);
    UnderInjective(dir, [a], [b]);
    assert [a] == [b] <==> a == b;
  }

  /** `Uncompress`: the extension decides. */
  function Unpacked(w: World, nodes: Nodes, file: string): Option<seq<Exe>> {
    if file !in nodes || nodes[file] == Directory then None
    else if Ext(file) == ".zip" then w.unzip(nodes[file].content)
    else if Ext(file) in [".tgz", ".gz", ".tar.gz"] then w.untar(nodes[file].content)
    else None
  }

  /** What a file unpacks to, by the way its name ends. */
  lemma UnpackedExactly(w: World, nodes: Nodes, file: string)
    ensures file !in nodes || nodes[file] == Directory ==> Unpacked(w, nodes, file) == None
    ensures file in nodes && nodes[file] != Directory ==>
              && (EndsWith(file, ".zip") ==> Unpacked(w, nodes, file) == w.unzip(nodes[file].content))
              && (EndsWith(file, ".tgz") || EndsWith(file, ".gz") ==> Unpacked(w, nodes, file) == w.untar(nodes[file].content))
              && (!EndsWith(file, ".zip") && !EndsWith(file, ".tgz") && !EndsWith(file, ".gz") ==> Unpacked(w, nodes, file) == None)
  {
    OneDot();
    ExtExactly(file, ".zip");
    ExtExactly(file, ".tgz");
    ExtExactly(file, ".gz");
    NoDoubleExt(file);
    assert ".zip" != ".tgz" && |".gz"| == 3;
  }

  /** The bytes unpack, as the kind of archive the name of the file says. */
  predicate Opens(w: World, file: string, bytes: Content) {
    || (EndsWith(file, ".zip") && w.unzip(bytes).Some?)
    || ((EndsWith(file, ".tgz") || EndsWith(file, ".gz")) && w.untar(bytes).Some?)
  }

  lemma OneDot()
    ensures '.' !in ".zip"[1..] && '.' !in ".tgz"[1..] && '.' !in ".gz"[1..]
    ensures '/' !in ".zip" && '/' !in ".tgz" && '/' !in ".gz"
  {
    assert ".zip"[1..] == "zip" && ".tgz"[1..] == "tgz" && ".gz"[1..] == "gz";
  }

  /** An extension has one dot, so `.tar.gz` is never one. */
  lemma NoDoubleExt(file: string)
    ensures Ext(file) != ".tar.gz"
  {
    if Ext(file) != "" {
      assert '.' !in Ext(file)[1..];
      assert ".tar.gz"[1..][3] == '.';
    }
  }

  function Installed(w: World, nodes: Nodes, file: string, installDir: string, f: Faults): Outcome {
    if f.install then Outcome(Err("install"), nodes)
    else match Unpacked(w, WithDir(nodes, installDir), file)
      case None => Outcome(Err("uncompress"), WithDir(nodes, installDir))
      case Some(exes) => Outcome(Ok(""), Placed(WithDir(nodes, installDir), installDir, exes))
  }

  /** What happens once the artifact file is there. */
  function Delivered(w: World, nodes: Nodes, src: Source, destDir: string, installDir: string, f: Faults): Outcome {
    var file := PathJoin([destDir, src.fileName]);
    if !src.typ.Binary? then Outcome(Ok(file), nodes)
    else if installDir == "" then Outcome(Err("binary install dir is empty"), nodes)
    else
      var installed := Installed(w, nodes, file, installDir, f);
      if installed.result.Err? then installed
      else Outcome(Ok(PathJoin([Dir(destDir), BIN, src.name])), installed.nodes)
  }

  function Downloaded(w: World, nodes: Nodes, src: Source, destDir: string, opts: Options, f: Faults): Outcome {
    var file := PathJoin([destDir, src.fileName]);
    if opts.enableCache && f.stat then Outcome(Err("stat"), nodes)
    else if opts.enableCache && file in nodes then Delivered(w, nodes, src, destDir, opts.binaryInstallDir, f)
    else
      var fetched := Fetched(w, nodes, src, destDir, f);
      if fetched.result.Err? then fetched
      else if Pulls(src) then Outcome(Ok(file), fetched.nodes)
      else Delivered(w, fetched.nodes, src, destDir, opts.binaryInstallDir, f)
  }

  class Disk {
    var nodes: Nodes

    constructor ()
      ensures nodes == map[]
    {
      nodes := map[];
    }

    method EnsureDir(dir: string, fault: bool) returns (ok: bool)
      modifies this
      ensures ok == (dir in old(nodes) || !fault)
      ensures nodes == if ok then WithDir(old(nodes), dir) else old(nodes)
    {
      ok := true;
      if dir !in nodes {
        if fault {
          return false;
        }
        nodes := nodes[dir := Directory];
      }
    }

    method Write(dir: string, file: string, content: Content, f: Faults) returns (r: Result<string>)
      modifies this
      ensures Outcome(r, nodes) == Written(old(nodes), dir, file, content, f)
    {
      if f.create || dir !in nodes || nodes[dir] != Directory || (file in nodes && nodes[file] == Directory) {
        return Err("create");
      }
      if f.torn.Some? {
        nodes := nodes[file := File(f.torn.value)];
        return Err("write");
      }
      nodes := nodes[file := File(content)];
      return Ok(file);
    }

    method InstallBinaries(w: World, file: string, installDir: string, f: Faults) returns (r: Result<string>)
      modifies this
      ensures Outcome(r, nodes) == Installed(w, old(nodes), file, installDir, f)
      ensures r.Ok? <==>
                && !f.install && file in old(nodes) && old(nodes)[file] != Directory
                && var bytes := old(nodes)[file].content;
                   || (EndsWith(file, ".zip") && w.unzip(bytes).Some?)
                   || ((EndsWith(file, ".tgz") || EndsWith(file, ".gz")) && w.untar(bytes).Some?)
      ensures r.Ok? && Proper(installDir) ==>
                var bytes := old(nodes)[file].content;
                var exes := if EndsWith(file, ".zip") then w.unzip(bytes) else w.untar(bytes);
                forall name :: HoldsExe(WithDir(old(nodes), installDir), nodes, installDir, exes.value, name)
    {
      hide Unpacked, EndsWith, HoldsExe, PathJoin;
      if f.install {
        return Err("install");
      }
      var _ := EnsureDir(installDir, false);
      var exes := Unpacked(w, nodes, file);
      UnpackedExactly(w, nodes, file);
      if exes == None {
        return Err("uncompress");
      }
      ghost var before := nodes;
      var k := 0;
      while k < |exes.value|
        invariant k <= |exes.value|
        invariant Placed(nodes, installDir, exes.value[k..]) == Placed(before, installDir, exes.value)
      {
        nodes := nodes[PathJoin([installDir, exes.value[k].name]) := File(exes.value[k].content)];
        k := k + 1;
      }
      if Proper(installDir) {
        forall name {
          PlacedAt(before, installDir, exes.value, name);
        }
      }
      return Ok("");
    }

    method DownloadTo(w: World, src: Source, destDir: string, opts: Options, f: Faults) returns (r: Result<string>)
      modifies this
      ensures Outcome(r, nodes) == Downloaded(w, old(nodes), src, destDir, opts, f)
      ensures r.Ok? && src.typ.Binary? ==> r.value == PathJoin([Dir(destDir), "bin", src.name])
      ensures r.Ok? && !src.typ.Binary? ==>
                && r.value == PathJoin([destDir, src.fileName])
                && if opts.enableCache && r.value in old(nodes) then nodes == old(nodes)
                   else Served(w, src).Some? && Target(src, destDir) in nodes && nodes[Target(src, destDir)] == File(Served(w, src).value)
    {
      var artifactFile := PathJoin([destDir, src.fileName]);
      var shouldDownload := true;
      if opts.enableCache {
        if f.stat {
          return Err("stat");
        }
        shouldDownload := artifactFile !in nodes;
      }
      if shouldDownload {
        var ok := EnsureDir(destDir, f.mkdir);
        if !ok {
          return Err("mkdir");
        }
        var answer := Served(w, src);
        if answer == None {
          return Err("download failed");
        }
        r := Write(destDir, Target(src, destDir), answer.value, f);
        if r.Err? {
          return r;
        }
        if Pulls(src) {
          return Ok(artifactFile);
        }
      }
      if src.typ.Binary? {
        if opts.binaryInstallDir == "" {
          return Err("binary install dir is empty");
        }
        r := InstallBinaries(w, artifactFile, opts.binaryInstallDir, f);
        if r.Err? {
          return r;
        }
        return Ok(PathJoin([Dir(destDir), BIN, src.name]));
      }
      return Ok(artifactFile);
    }
  }
}
