/**
 What a source is made of (pkg/artifacts/manager.go): the file name, which no region changes, the URL, which every
 region has its own of, and the extension, which decides how a binary is unpacked.
 */
module ArtifactSources {
  import opened Text
  import opened Paths
  import opened Semver
  import opened Artifacts
  import opened ArtifactPlaces

  // ---- File names ----

  lemma LatestDoesNotParse()
    ensures IsBreakingVersion(LATEST_VERSION_TAG).Err?
  {
    NotAVersion(LATEST_VERSION_TAG);
  }

  lemma NotAVersion(v: string)
    requires v != "" && v[0] == 'l' && '+' !in v && '-' !in v && '.' !in v
    ensures NewVersion(v) == None
  {
    assert Split(v, '.') == [v];
    assert !IsNumber(v);
  }

  /** `Base` of a download URL: what follows its last slash, whatever server it names. */
  lemma PackageFileName(name: string, version: string, cn: bool, prefix: string, package: string)
    requires |package| > 2 && package[|package| - 1] !in ['/', '.']
    ensures BinarySource(name, version, cn, Ok(prefix + ['/'] + package)).value.fileName == LastPart(package)
    ensures Segment(LastPart(package))
  {
    BaseTail(prefix, package);
  }

  lemma PackageEnds(w: World, version: string)
    ensures EtcdPackage(w, version).Ok? ==>
              var p := EtcdPackage(w, version).value; |p| > 2 && p[|p| - 1] !in ['/', '.']
    ensures GreptimePackage(w, version).Ok? ==>
              var p := GreptimePackage(w, version).value; |p| > 2 && p[|p| - 1] !in ['/', '.']
  {
  }

  lemma ChartFileSegment(name: string, version: string)
    requires Segment(name) && Segment(version)
    ensures Segment(ChartFileName(name, version))
  {
  }

  /** The file name of a source, from everything but its region. */
  function FileNameOf(w: World, name: string, version: string, typ: ArtifactType): string {
    if typ.Chart? then ChartFileName(name, version)
    else if typ.Binary? && name == ETCD && EtcdPackage(w, version).Ok? then LastPart(EtcdPackage(w, version).value)
    else if typ.Binary? && name == GREPTIME then
      var v := if version == LATEST_VERSION_TAG && w.release.Ok? then w.release.value else version;
      if GreptimePackage(w, v).Ok? then LastPart(GreptimePackage(w, v).value) else ""
    else ""
  }

  /** The region decides the URL only: not the file name, which is one proper path element if there is any. */
  lemma SourceFileName(w: World, name: string, version: string, typ: ArtifactType, cn: bool)
    requires Segment(name) && Segment(version) && SourceOf(w, name, version, typ, cn).Ok?
    ensures var src := SourceOf(w, name, version, typ, cn).value;
            && src.fileName == FileNameOf(w, name, version, typ)
            && (src.fileName != "" ==> Segment(src.fileName)) && (src.fileName == "" ==> src.url == "")
  {
    if typ.Chart? {
      ChartFileSegment(name, version);
    } else if typ.Binary? && name == ETCD {
      EtcdFileName(w, version, cn);
    } else if typ.Binary? && name == GREPTIME {
      GreptimeFileName(w, version, cn);
    }
  }

  lemma EtcdFileName(w: World, version: string, cn: bool)
    requires SourceOf(w, ETCD, version, Binary, cn).Ok?
    ensures var src := SourceOf(w, ETCD, version, Binary, cn).value;
            src.fileName == FileNameOf(w, ETCD, version, Binary) && Segment(src.fileName)
  {
    PackageEnds(w, version);
    PackageFileName(ETCD, version, cn, (if cn then CN_BUCKET + "/etcd" else ETCD_RELEASES) + "/" + version, EtcdPackage(w, version).value);
  }

  lemma GreptimeFileName(w: World, version: string, cn: bool)
    requires SourceOf(w, GREPTIME, version, Binary, cn).Ok?
    ensures var src := SourceOf(w, GREPTIME, version, Binary, cn).value;
            src.fileName == FileNameOf(w, GREPTIME, version, Binary) && Segment(src.fileName)
  {
    hide Compare, LastPart, Base, Segment;
    var v := if version == LATEST_VERSION_TAG && !cn then w.release.value else version;
    if version == LATEST_VERSION_TAG {
      LatestDoesNotParse();
      assert !cn;
    }
    GreptimePackageName(w, version, v, cn);
  }

  lemma GreptimePackageName(w: World, version: string, v: string, cn: bool)
    requires GreptimePackage(w, v).Ok?
    ensures var src := BinarySource(GREPTIME, version, cn, GreptimeBinaryURL(w, v, cn));
            && src.Ok? && src.value.fileName == LastPart(GreptimePackage(w, v).value)
            && Segment(LastPart(GreptimePackage(w, v).value))
  {
    PackageEnds(w, v);
    PackageFileName(GREPTIME, version, cn, (if cn then CN_BUCKET + "/greptimedb" else GREPTIME_RELEASES) + "/" + v, GreptimePackage(w, v).value);
  }

  /** A pull from the registry names the file as the source does, the tag pulled being the version asked for. */
  lemma PulledFile(w: World, name: string, version: string, typ: ArtifactType, cn: bool, destDir: string)
    requires SourceOf(w, name, version, typ, cn).Ok?
    ensures var src := SourceOf(w, name, version, typ, cn).value;
            Target(src, destDir) == PathJoin([destDir, src.fileName])
  {
    var src := SourceOf(w, name, version, typ, cn).value;
    if Pulls(src) {
      assert src.url[0] == OCI[0] != HTTPS[0];
      assert name == ETCD && src.url == ETCD_OCI_REGISTRY;
      BaseAt(OCI + "registry-1.docker.io/bitnamicharts", ETCD);
    }
  }

  /** No version is the latest one, which the version service names; any other version is taken as it is. */
  lemma VersionResolved(w: World, name: string, version: string, typ: ArtifactType, cn: bool)
    ensures NewSource(w, name, "", typ, cn) == NewSource(w, name, "latest", typ, cn)
    ensures var src := NewSource(w, name, version, typ, cn);
            && (version in ["", "latest"] && w.latest(typ, name, cn).Err? ==> src.Err?)
            && (src.Ok? && version in ["", "latest"] ==> src.value.version == w.latest(typ, name, cn).value)
            && (src.Ok? && version !in ["", "latest"] ==> src.value.version == version)
  {
    hide EtcdBinaryURL, GreptimeBinaryURL, ChartURL, ChartFileName, Base;
  }

  // ---- URLs ----

  /** The chart of a region: the mirror's own layout, the registry for etcd, a GitHub release for the rest. */
  lemma ChartSource(w: World, name: string, version: string, cn: bool)
    ensures SourceOf(w, name, version, Chart, cn).Ok?
    ensures var src := SourceOf(w, name, version, Chart, cn).value;
            && src.fileName == name + "-" + version + ".tgz"
            && (cn ==> src.url == CN_BUCKET + "/charts/" + name + "/" + version + "/" + src.fileName)
            && (!cn && name == "etcd" ==> src.url == OCI + "registry-1.docker.io/bitnamicharts/etcd")
            && (!cn && name != "etcd" ==> src.url == GREPTIME_CHARTS + "/" + name + "-" + version + "/" + src.fileName)
  {
    assert "registry-1.docker.io/bitnamicharts/etcd" == "registry-1.docker.io/bitnamicharts" + ['/'] + "etcd";
  }

  /** The etcd binary: a zip archive for macOS, a gzipped tar archive for Linux, and nothing for another system. */
  lemma EtcdSource(w: World, version: string, cn: bool)
    ensures SourceOf(w, "etcd", version, Binary, cn).Ok? <==> w.goos in ["darwin", "linux"]
    ensures w.goos in ["darwin", "linux"] ==>
              var src := SourceOf(w, "etcd", version, Binary, cn).value;
              var package := "etcd-" + version + "-" + w.goos + "-" + w.goarch + (if w.goos == "darwin" then ".zip" else ".tar.gz");
              && src.url == (if cn then CN_BUCKET + "/etcd" else ETCD_RELEASES) + "/" + version + ['/'] + package
              && src.fileName == LastPart(package)
              && (w.goos == "darwin" ==> EndsWith(src.fileName, ".zip"))
              && (w.goos == "linux" ==> EndsWith(src.fileName, ".gz"))
  {
    if w.goos in ["darwin", "linux"] {
      PackageEnds(w, version);
      PackageFileName(ETCD, version, cn, (if cn then CN_BUCKET + "/etcd" else ETCD_RELEASES) + "/" + version, EtcdPackage(w, version).value);
      EtcdEnds(w, version);
    }
  }

  lemma EtcdEnds(w: World, version: string)
    requires EtcdPackage(w, version).Ok?
    ensures var file := LastPart(EtcdPackage(w, version).value);
            && (w.goos == "darwin" ==> EndsWith(file, ".zip")) && (w.goos == "linux" ==> EndsWith(file, ".gz"))
  {
    var p := EtcdPackage(w, version).value;
    OneDot();
    if w.goos == "darwin" {
      LastPartEnds(p, ".zip");
    } else {
      assert EndsWith(p, ".tar.gz");
      TarGzEnds(p);
      LastPartEnds(p, ".gz");
    }
  }

  lemma TarGzEnds(p: string)
    ensures EndsWith(p, ".tar.gz") ==> EndsWith(p, ".gz")
  {
    assert EndsWith(".tar.gz", ".gz") by {
      assert ".tar.gz"[4..] == ".gz";
    }
    if EndsWith(p, ".tar.gz") {
      EndsTransitive(p, ".tar.gz", ".gz");
    }
  }

  /** The version a greptime binary is looked up by: `latest` is asked for at GitHub, and only there. */
  function GreptimeVersion(w: World, version: string, cn: bool): Result<string> {
    if version == "latest" && !cn then w.release else Ok(version)
  }

  /** The greptime binary: the new package name carries the version, the old one does not. */
  lemma GreptimeSource(w: World, version: string, cn: bool)
    ensures SourceOf(w, "greptime", version, Binary, cn).Ok?
       <==> GreptimeVersion(w, version, cn).Ok? && IsBreakingVersion(GreptimeVersion(w, version, cn).value).Ok?
    ensures SourceOf(w, "greptime", version, Binary, cn).Ok? ==>
              var src, v := SourceOf(w, "greptime", version, Binary, cn).value, GreptimeVersion(w, version, cn).value;
              var package := if IsBreakingVersion(v).value then "greptime-" + w.goos + "-" + w.goarch + "-" + v + ".tar.gz"
                             else "greptime-" + w.goos + "-" + w.goarch + ".tgz";
              && src.url == (if cn then CN_BUCKET + "/greptimedb" else GREPTIME_RELEASES) + "/" + v + ['/'] + package
              && src.fileName == LastPart(package)
              && (IsBreakingVersion(v).value ==> EndsWith(src.fileName, ".gz"))
              && (!IsBreakingVersion(v).value ==> EndsWith(src.fileName, ".tgz"))
  {
    hide IsBreakingVersion, LastPart, Base, EndsWith;
    assert GREPTIME != ETCD;
    if SourceOf(w, GREPTIME, version, Binary, cn).Ok? {
      var v := GreptimeVersion(w, version, cn).value;
      GreptimePackageName(w, version, v, cn);
      GreptimeEnds(w, v);
    }
  }

  lemma GreptimeEnds(w: World, v: string)
    requires IsBreakingVersion(v).Ok?
    ensures var file := LastPart(GreptimePackage(w, v).value);
            && (IsBreakingVersion(v).value ==> EndsWith(file, ".gz")) && (!IsBreakingVersion(v).value ==> EndsWith(file, ".tgz"))
  {
    hide IsBreakingVersion;
    var p := GreptimePackage(w, v).value;
    OneDot();
    if IsBreakingVersion(v).value {
      assert EndsWith(p, ".tar.gz");
      TarGzEnds(p);
      LastPartEnds(p, ".gz");
    } else {
      LastPartEnds(p, ".tgz");
    }
  }

  /** The mirror, GitHub and the registry have no URL in common. */
  lemma Elsewhere(url: string)
    ensures !(GITHUB <= url && CN_SERVER <= url)
    ensures OCI <= url ==> !(GITHUB <= url) && !(CN_SERVER <= url)
  {
    assert GITHUB[8] == "github.com/"[0] && CN_SERVER[8] == "downloads.greptime.cn/"[0];
    assert GITHUB[0] == 'h' && CN_SERVER[0] == 'h' && OCI[0] == 'o';
  }

  lemma ChartServer(name: string, version: string, cn: bool)
    ensures cn ==> CN_SERVER <= ChartURL(name, version, cn)
    ensures !cn && name != ETCD ==> GITHUB <= ChartURL(name, version, cn)
    ensures !cn && name == ETCD ==> OCI <= ChartURL(name, version, cn)
  {
  }

  lemma BinaryServer(w: World, version: string, cn: bool)
    ensures EtcdBinaryURL(w, version, cn).Ok? ==> (if cn then CN_SERVER else GITHUB) <= EtcdBinaryURL(w, version, cn).value
    ensures GreptimeBinaryURL(w, version, cn).Ok? ==> (if cn then CN_SERVER else GITHUB) <= GreptimeBinaryURL(w, version, cn).value
  {
    hide IsBreakingVersion;
  }

  lemma ServerOf(w: World, name: string, version: string, typ: ArtifactType, cn: bool)
    requires SourceOf(w, name, version, typ, cn).Ok? && SourceOf(w, name, version, typ, cn).value.url != ""
    ensures var src := SourceOf(w, name, version, typ, cn).value;
            (if cn then CN_SERVER else if typ.Chart? && name == ETCD then OCI else GITHUB) <= src.url && src.typ == typ
  {
    hide ChartURL, EtcdBinaryURL, GreptimeBinaryURL, ChartFileName, Base;
    ChartServer(name, version, cn);
    BinaryServer(w, if typ.Binary? && name == GREPTIME && version == LATEST_VERSION_TAG && !cn && w.release.Ok? then w.release.value else version, cn);
  }

  /** Every URL of the mirror is a URL of the region, and only a chart of etcd from elsewhere is pulled. */
  lemma RegionOfURL(w: World, name: string, version: string, typ: ArtifactType, cn: bool)
    requires SourceOf(w, name, version, typ, cn).Ok? && SourceOf(w, name, version, typ, cn).value.url != ""
    ensures var src := SourceOf(w, name, version, typ, cn).value;
            && (CN_SERVER <= src.url <==> cn)
            && (Pulls(src) <==> typ.Chart? && name == "etcd" && !cn)
            && (!cn && !Pulls(src) ==> GITHUB <= src.url)
  {
    hide SourceOf;
    Elsewhere(SourceOf(w, name, version, typ, cn).value.url);
    ServerOf(w, name, version, typ, cn);
  }
}
