/**
 The arguments every component is launched with (pkg/components/metasrv.go, datanode.go, frontend.go)
 and the ports a whole launch occupies: replica `i` shifts each configured address by `i`.
 */
module LaunchPlan {
  import opened Text
  import opened Decimal
  import opened Address

  datatype MetaSrvConfig = MetaSrvConfig(
    storeAddr: string, serverAddr: string, bindAddr: string, httpAddr: string,
    replicas: nat, config: string, logLevel: string)

  datatype DatanodeConfig = DatanodeConfig(
    rpcAddr: string, httpAddr: string, replicas: nat, config: string, logLevel: string)

  datatype FrontendConfig = FrontendConfig(
    grpcAddr: string, httpAddr: string, postgresAddr: string, mysqlAddr: string, opentsdbAddr: string,
    replicas: nat, config: string, logLevel: string, userProvider: string)

  datatype ClusterConfig = ClusterConfig(meta: MetaSrvConfig, datanode: DatanodeConfig, frontend: FrontendConfig)

  const DEFAULT_LOG_LEVEL := "info"
  const DEFAULT_BIND_ADDR := Render("127.0.0.1", 3002)

  /** One address flag of one component: replica `i` listens on `addr` shifted by `i`. */
  datatype Slot = Slot(flag: string, addr: string, replicas: nat)

  function BindAddr(c: MetaSrvConfig): string {
    if |c.bindAddr| > 0 then c.bindAddr else DEFAULT_BIND_ADDR
  }

  function MetaSrvSlots(c: MetaSrvConfig): seq<Slot> {
    [Slot("--http-addr", c.httpAddr, c.replicas), Slot("--bind-addr", BindAddr(c), c.replicas)]
  }

  function DatanodeSlots(c: DatanodeConfig): seq<Slot> {
    [Slot("--http-addr", c.httpAddr, c.replicas), Slot("--rpc-addr", c.rpcAddr, c.replicas)]
  }

  function FrontendSlots(c: FrontendConfig): seq<Slot> {
    [Slot("--http-addr", c.httpAddr, c.replicas), Slot("--rpc-addr", c.grpcAddr, c.replicas),
     Slot("--mysql-addr", c.mysqlAddr, c.replicas), Slot("--postgres-addr", c.postgresAddr, c.replicas),
     Slot("--opentsdb-addr", c.opentsdbAddr, c.replicas)]
  }

  function Slots(c: ClusterConfig): seq<Slot> {
    MetaSrvSlots(c.meta) + DatanodeSlots(c.datanode) + FrontendSlots(c.frontend)
  }

  // ---- Arguments ----

  function Flagged(flag: string, value: string): string {
    flag + ['='] + value
  }

  /** A word, or a flag with the value it is given, if any. */
  datatype Piece = Word(text: string) | Flag(flag: string, values: seq<string>)

  function PieceArgs(p: Piece): seq<string> {
    match p
    case Word(text) => [text]
    case Flag(flag, values) => if values == [] then [] else [Flagged(flag, values[0])]
  }

  function Rendered(pieces: seq<Piece>): seq<string> {
    if pieces == [] then [] else PieceArgs(pieces[0]) + Rendered(pieces[1..])
  }

  /** One address, of the same host and with the port shifted by the node id; none for an empty address. */
  function Shifted(addr: string, nodeId: int): seq<string> {
    if addr == "" then [] else [JoinHostPort(HostOf(addr), Itoa(Add64(PortOf(addr), nodeId)))]
  }

  function IfSet(value: string): seq<string> {
    if value == "" then [] else [value]
  }

  function LogLevel(level: string): string {
    if level == "" then DEFAULT_LOG_LEVEL else level
  }

  function MetaSrvPieces(c: MetaSrvConfig, nodeId: int): seq<Piece> {
    [Flag("--log-level", [LogLevel(c.logLevel)]), Word("metasrv"), Word("start"),
     Flag("--store-addr", [c.storeAddr]), Flag("--server-addr", [c.serverAddr]),
     Flag("--http-addr", Shifted(c.httpAddr, nodeId)), Flag("--bind-addr", Shifted(BindAddr(c), nodeId)),
     Flag("-c", IfSet(c.config))]
  }

  function DatanodePieces(c: DatanodeConfig, metaSrvAddr: string, nodeId: int, homeDir: string): seq<Piece> {
    [Flag("--log-level", [LogLevel(c.logLevel)]), Word("datanode"), Word("start"),
     Flag("--node-id", [Itoa(nodeId)]), Flag("--metasrv-addr", [metaSrvAddr]), Flag("--data-home", [homeDir]),
     Flag("--http-addr", Shifted(c.httpAddr, nodeId)), Flag("--rpc-addr", Shifted(c.rpcAddr, nodeId)),
     Flag("-c", IfSet(c.config))]
  }

  function FrontendPieces(c: FrontendConfig, metaSrvAddr: string, nodeId: int): seq<Piece> {
    [Flag("--log-level", [LogLevel(c.logLevel)]), Word("frontend"), Word("start"), Flag("--metasrv-addr", [metaSrvAddr]),
     Flag("--http-addr", Shifted(c.httpAddr, nodeId)), Flag("--rpc-addr", Shifted(c.grpcAddr, nodeId)),
     Flag("--mysql-addr", Shifted(c.mysqlAddr, nodeId)), Flag("--postgres-addr", Shifted(c.postgresAddr, nodeId)),
     Flag("--opentsdb-addr", Shifted(c.opentsdbAddr, nodeId)),
     Flag("-c", IfSet(c.config)), Flag("--user-provider", IfSet(c.userProvider))]
  }

  lemma GenerateOne(flag: string, addr: string, nodeId: int, args: seq<string>)
    ensures GenerateAddrArg(flag, addr, nodeId, args) == args + PieceArgs(Flag(flag, Shifted(addr, nodeId)))
  {
    if addr != "" {
      FormatShifts(addr, nodeId);
    }
  }

  lemma {:induction false} RenderedConcat(xs: seq<Piece>, ys: seq<Piece>)
    ensures Rendered(xs + ys) == Rendered(xs) + Rendered(ys)
  {
    hide PieceArgs;
    if xs == [] {
      assert xs + ys == ys;
    } else {
      assert (xs + ys)[0] == xs[0] && (xs + ys)[1..] == xs[1..] + ys;
      RenderedConcat(xs[1..], ys);
    }
  }

  lemma RenderedSnoc(pieces: seq<Piece>, k: nat)
    requires k < |pieces|
    ensures Rendered(pieces[..k + 1]) == Rendered(pieces[..k]) + PieceArgs(pieces[k])
  {
    hide PieceArgs;
    assert pieces[..k + 1] == pieces[..k] + [pieces[k]];
    RenderedConcat(pieces[..k], [pieces[k]]);
    assert [pieces[k]][1..] == [];
  }

  // ---- What the arguments say ----

  /** The values given to a flag. */
  function Values(args: seq<string>, flag: string): seq<string> {
    if args == [] then []
    else (if flag + ['='] <= args[0] then [args[0][|flag| + 1..]] else []) + Values(args[1..], flag)
  }

  lemma {:induction false} ValuesConcat(xs: seq<string>, ys: seq<string>, flag: string)
    ensures Values(xs + ys, flag) == Values(xs, flag) + Values(ys, flag)
  {
    if xs == [] {
      assert xs + ys == ys;
    } else {
      assert (xs + ys)[0] == xs[0] && (xs + ys)[1..] == xs[1..] + ys;
      ValuesConcat(xs[1..], ys, flag);
    }
  }

  /** An argument starts with a flag only if it is given to that flag. */
  lemma FlagOf(flag: string, other: string, value: string)
    requires '=' !in flag && '=' !in other
    ensures flag + ['='] <= Flagged(other, value) <==> flag == other
    ensures Flagged(other, value)[|other| + 1..] == value
  {
    var arg := Flagged(other, value);
    if flag + ['='] <= arg {
      var rest := arg[|flag| + 1..];
      assert arg == flag + ['='] + rest;
      IndexOfAt(flag, '=', rest);
      IndexOfAt(other, '=', value);
      assert arg[..|flag|] == flag && arg[..|other|] == other;
    }
  }

  predicate Legible(p: Piece) {
    match p
    case Word(text) => '=' !in text
    case Flag(flag, values) => '=' !in flag && |values| <= 1
  }

  ghost predicate AllLegible(pieces: seq<Piece>) {
    forall k | 0 <= k < |pieces| :: Legible(pieces[k])
  }

  function SaidBy(p: Piece, asked: string): seq<string> {
    if p.Flag? && p.flag == asked then p.values else []
  }

  /** What the pieces give to a flag. */
  function Said(pieces: seq<Piece>, asked: string): seq<string> {
    if pieces == [] then [] else SaidBy(pieces[0], asked) + Said(pieces[1..], asked)
  }

  lemma PrefixHas(flag: string, arg: string)
    ensures flag + ['='] <= arg ==> '=' in arg
  {
    if flag + ['='] <= arg {
      assert arg[|flag|] == '=';
    }
  }

  lemma OnePiece(p: Piece, asked: string)
    requires Legible(p) && '=' !in asked
    ensures Values(PieceArgs(p), asked) == SaidBy(p, asked)
  {
    var args := PieceArgs(p);
    if p.Word? {
      PrefixHas(asked, p.text);
    } else if p.values != [] {
      FlagOf(asked, p.flag, p.values[0]);
    }
    assert args != [] ==> args[1..] == [];
  }

  /** Looking up a flag among the rendered pieces finds what its pieces give it, and nothing else. */
  lemma {:induction false} GivenExactly(pieces: seq<Piece>, asked: string)
    requires AllLegible(pieces) && '=' !in asked
    ensures Values(Rendered(pieces), asked) == Said(pieces, asked)
  {
    hide PieceArgs, Values, SaidBy, Legible;
    if pieces == [] {
      assert Values([], asked) == [] by {
        NoArgs(asked);
      }
    } else {
      assert forall k | 0 <= k < |pieces[1..]| :: pieces[1..][k] == pieces[k + 1];
      ValuesConcat(PieceArgs(pieces[0]), Rendered(pieces[1..]), asked);
      OnePiece(pieces[0], asked);
      GivenExactly(pieces[1..], asked);
    }
  }

  lemma NoArgs(asked: string)
    ensures Values([], asked) == []
  {
  }

  ghost predicate FlagsDiffer(pieces: seq<Piece>) {
    forall j, k | 0 <= j < k < |pieces| && pieces[j].Flag? && pieces[k].Flag? :: pieces[j].flag != pieces[k].flag
  }

  lemma {:induction false} SaidNothing(pieces: seq<Piece>, asked: string)
    requires forall k | 0 <= k < |pieces| && pieces[k].Flag? :: pieces[k].flag != asked
    ensures Said(pieces, asked) == []
  {
    if pieces != [] {
      SaidNothing(pieces[1..], asked);
    }
  }

  lemma {:induction false} SaidOnce(pieces: seq<Piece>, k: nat)
    requires k < |pieces| && pieces[k].Flag? && FlagsDiffer(pieces)
    ensures Said(pieces, pieces[k].flag) == pieces[k].values
    decreases k
  {
    if k == 0 {
      SaidNothing(pieces[1..], pieces[0].flag);
    } else {
      assert pieces[1..][k - 1] == pieces[k];
      SaidOnce(pieces[1..], k - 1);
    }
  }

  /** With flags that all differ, each is given the values of its own piece. */
  lemma ValuesAt(pieces: seq<Piece>, k: nat)
    requires AllLegible(pieces) && FlagsDiffer(pieces) && k < |pieces| && pieces[k].Flag?
    ensures Values(Rendered(pieces), pieces[k].flag) == pieces[k].values
  {
    GivenExactly(pieces, pieces[k].flag);
    SaidOnce(pieces, k);
  }

  /** Length and third letter tell the flags of a component apart. */
  predicate MarkedBy(p: Piece, mark: (nat, char)) {
    p.Flag? ==> |p.flag| == mark.0 && (mark.0 > 2 ==> p.flag[2] == mark.1)
  }

  lemma DifferByMarks(pieces: seq<Piece>, marks: seq<(nat, char)>)
    requires |marks| == |pieces| && forall k | 0 <= k < |pieces| :: MarkedBy(pieces[k], marks[k])
    requires forall j, k | 0 <= j < k < |marks| :: marks[j].0 != marks[k].0 || (marks[k].0 > 2 && marks[j].1 != marks[k].1)
    ensures FlagsDiffer(pieces)
  {
  }

  predicate Marked(flag: string, n: nat, c: char) {
    '=' !in flag && |flag| == n && (n > 2 ==> flag[2] == c)
  }

  lemma CommonMarks()
    ensures Marked("--log-level", 11, 'l') && Marked("--http-addr", 11, 'h') && Marked("-c", 2, 'c')
    ensures '=' !in "start"
  {
  }

  lemma MetaSrvMarks()
    ensures Marked("--store-addr", 12, 's') && Marked("--server-addr", 13, 's') && Marked("--bind-addr", 11, 'b')
    ensures '=' !in "metasrv"
  {
  }

  lemma DatanodeMarks()
    ensures Marked("--node-id", 9, 'n') && Marked("--metasrv-addr", 14, 'm') && Marked("--data-home", 11, 'd')
    ensures Marked("--rpc-addr", 10, 'r') && '=' !in "datanode"
  {
  }

  lemma FrontendMarks()
    ensures Marked("--mysql-addr", 12, 'm') && Marked("--postgres-addr", 15, 'p') && Marked("--opentsdb-addr", 15, 'o')
    ensures Marked("--user-provider", 15, 'u') && '=' !in "frontend"
  {
  }

  lemma MetaSrvLegible(c: MetaSrvConfig, nodeId: int)
    ensures AllLegible(MetaSrvPieces(c, nodeId)) && FlagsDiffer(MetaSrvPieces(c, nodeId))
  {
    CommonMarks();
    MetaSrvMarks();
    hide FlagsDiffer, LogLevel, BindAddr, HostOf, PortOf, JoinHostPort, Itoa;
    DifferByMarks(MetaSrvPieces(c, nodeId),
      [(11, 'l'), (0, 'w'), (1, 'w'), (12, 's'), (13, 's'), (11, 'h'), (11, 'b'), (2, 'c')]);
  }

  lemma DatanodeLegible(c: DatanodeConfig, metaSrvAddr: string, nodeId: int, homeDir: string)
    ensures AllLegible(DatanodePieces(c, metaSrvAddr, nodeId, homeDir)) && FlagsDiffer(DatanodePieces(c, metaSrvAddr, nodeId, homeDir))
  {
    CommonMarks();
    DatanodeMarks();
    hide FlagsDiffer, LogLevel, HostOf, PortOf, JoinHostPort, Itoa;
    DifferByMarks(DatanodePieces(c, metaSrvAddr, nodeId, homeDir),
      [(11, 'l'), (0, 'w'), (1, 'w'), (9, 'n'), (14, 'm'), (11, 'd'), (11, 'h'), (10, 'r'), (2, 'c')]);
  }

  lemma FrontendLegible(c: FrontendConfig, metaSrvAddr: string, nodeId: int)
    ensures AllLegible(FrontendPieces(c, metaSrvAddr, nodeId)) && FlagsDiffer(FrontendPieces(c, metaSrvAddr, nodeId))
  {
    CommonMarks();
    DatanodeMarks();
    FrontendMarks();
    hide FlagsDiffer, LogLevel, HostOf, PortOf, JoinHostPort, Itoa;
    FrontendFlags(FrontendPieces(c, metaSrvAddr, nodeId));
  }

  lemma FrontendFlags(pieces: seq<Piece>)
    requires |pieces| == 11 && !pieces[1].Flag? && !pieces[2].Flag?
    requires forall k | 3 <= k < 11 :: pieces[k].Flag?
    requires pieces[0].Flag? && pieces[0].flag == "--log-level" && pieces[3].flag == "--metasrv-addr" && pieces[4].flag == "--http-addr"
    requires pieces[5].flag == "--rpc-addr" && pieces[6].flag == "--mysql-addr" && pieces[7].flag == "--postgres-addr"
    requires pieces[8].flag == "--opentsdb-addr" && pieces[9].flag == "-c" && pieces[10].flag == "--user-provider"
    ensures FlagsDiffer(pieces)
  {
    CommonMarks();
    DatanodeMarks();
    FrontendMarks();
    FrontendDiffer(pieces);
  }

  lemma FrontendDiffer(pieces: seq<Piece>)
    requires |pieces| == 11 && !pieces[1].Flag? && !pieces[2].Flag?
    requires MarkedBy(pieces[0], (11, 'l')) && MarkedBy(pieces[3], (14, 'm')) && MarkedBy(pieces[4], (11, 'h'))
    requires MarkedBy(pieces[5], (10, 'r')) && MarkedBy(pieces[6], (12, 'm')) && MarkedBy(pieces[7], (15, 'p'))
    requires MarkedBy(pieces[8], (15, 'o')) && MarkedBy(pieces[9], (2, 'c')) && MarkedBy(pieces[10], (15, 'u'))
    ensures FlagsDiffer(pieces)
  {
    hide FlagsDiffer;
    DifferByMarks(pieces,
      [(11, 'l'), (0, 'w'), (1, 'w'), (14, 'm'), (11, 'h'), (10, 'r'), (12, 'm'), (15, 'p'), (15, 'o'), (2, 'c'), (15, 'u')]);
  }

  // ---- BuildArgs ----

  lemma DefaultBind()
    ensures DEFAULT_BIND_ADDR == "127.0.0.1:3002"
  {
  }

  /** What a metasrv is told: its addresses shifted by the node id, everything else as configured. */
  ghost predicate MetaSrvTold(args: seq<string>, c: MetaSrvConfig, nodeId: int) {
    && Values(args, "--log-level") == [if c.logLevel == "" then "info" else c.logLevel]
    && Values(args, "--store-addr") == [c.storeAddr] && Values(args, "--server-addr") == [c.serverAddr]
    && Values(args, "--http-addr") == Shifted(c.httpAddr, nodeId)
    && Values(args, "--bind-addr") == Shifted(if c.bindAddr == "" then "127.0.0.1:3002" else c.bindAddr, nodeId)
    && Values(args, "-c") == IfSet(c.config)
  }

  lemma MetaSrvTells(c: MetaSrvConfig, nodeId: int)
    ensures MetaSrvTold(Rendered(MetaSrvPieces(c, nodeId)), c, nodeId)
  {
    var pieces := MetaSrvPieces(c, nodeId);
    DefaultBind();
    MetaSrvLegible(c, nodeId);
    hide AllLegible, FlagsDiffer, Values, Rendered, Shifted, Render;
    forall k | 0 <= k < |pieces| && pieces[k].Flag? ensures Values(Rendered(pieces), pieces[k].flag) == pieces[k].values {
      ValuesAt(pieces, k);
    }
    assert pieces[0].flag == "--log-level" && pieces[3].flag == "--store-addr" && pieces[4].flag == "--server-addr";
    assert pieces[5].flag == "--http-addr" && pieces[6].flag == "--bind-addr" && pieces[7].flag == "-c";
  }

  method BuildMetaSrvArgs(c: MetaSrvConfig, nodeId: int) returns (args: seq<string>)
    ensures args == Rendered(MetaSrvPieces(c, nodeId)) && MetaSrvTold(args, c, nodeId)
  {
    MetaSrvTells(c, nodeId);
    hide MetaSrvTold, Rendered, GenerateAddrArg, Shifted, BindAddr, LogLevel, Flagged;
    ghost var pieces := MetaSrvPieces(c, nodeId);
    RenderedStart(pieces, 5);
    args := [Flagged("--log-level", LogLevel(c.logLevel)), "metasrv", "start",
             Flagged("--store-addr", c.storeAddr), Flagged("--server-addr", c.serverAddr)];
    RenderedSnoc(pieces, 5);
    GenerateOne("--http-addr", c.httpAddr, nodeId, args);
    args := GenerateAddrArg("--http-addr", c.httpAddr, nodeId, args);
    RenderedSnoc(pieces, 6);
    GenerateOne("--bind-addr", BindAddr(c), nodeId, args);
    args := GenerateAddrArg("--bind-addr", BindAddr(c), nodeId, args);
    RenderedSnoc(pieces, 7);
    if |c.config| > 0 {
      args := args + [Flagged("-c", c.config)];
    }
    assert pieces[..8] == pieces;
  }

  /** The first pieces, each of which is one argument. */
  lemma {:induction false} RenderedStart(pieces: seq<Piece>, n: nat)
    requires n <= |pieces| && forall k | 0 <= k < n :: |PieceArgs(pieces[k])| == 1
    ensures Rendered(pieces[..n]) == seq(n, k requires 0 <= k < n => PieceArgs(pieces[k])[0])
  {
    if n > 0 {
      RenderedStart(pieces, n - 1);
      RenderedSnoc(pieces, n - 1);
    } else {
      assert pieces[..0] == [];
    }
  }

  /** What a datanode is told. */
  ghost predicate DatanodeTold(args: seq<string>, c: DatanodeConfig, metaSrvAddr: string, nodeId: int, homeDir: string) {
    && Values(args, "--log-level") == [if c.logLevel == "" then "info" else c.logLevel]
    && Values(args, "--node-id") == [Itoa(nodeId)] && Values(args, "--metasrv-addr") == [metaSrvAddr]
    && Values(args, "--data-home") == [homeDir]
    && Values(args, "--http-addr") == Shifted(c.httpAddr, nodeId) && Values(args, "--rpc-addr") == Shifted(c.rpcAddr, nodeId)
    && Values(args, "-c") == IfSet(c.config)
  }

  lemma DatanodeTells(c: DatanodeConfig, metaSrvAddr: string, nodeId: int, homeDir: string)
    ensures DatanodeTold(Rendered(DatanodePieces(c, metaSrvAddr, nodeId, homeDir)), c, metaSrvAddr, nodeId, homeDir)
  {
    var pieces := DatanodePieces(c, metaSrvAddr, nodeId, homeDir);
    DatanodeLegible(c, metaSrvAddr, nodeId, homeDir);
    hide AllLegible, FlagsDiffer, Values, Rendered, Shifted, Itoa;
    forall k | 0 <= k < |pieces| && pieces[k].Flag? ensures Values(Rendered(pieces), pieces[k].flag) == pieces[k].values {
      ValuesAt(pieces, k);
    }
    assert pieces[0].flag == "--log-level" && pieces[3].flag == "--node-id" && pieces[4].flag == "--metasrv-addr";
    assert pieces[5].flag == "--data-home" && pieces[6].flag == "--http-addr" && pieces[7].flag == "--rpc-addr";
    assert pieces[8].flag == "-c";
  }

  method BuildDatanodeArgs(c: DatanodeConfig, metaSrvAddr: string, nodeId: int, homeDir: string) returns (args: seq<string>)
    ensures args == Rendered(DatanodePieces(c, metaSrvAddr, nodeId, homeDir)) && DatanodeTold(args, c, metaSrvAddr, nodeId, homeDir)
  {
    DatanodeTells(c, metaSrvAddr, nodeId, homeDir);
    hide DatanodeTold, Rendered, GenerateAddrArg, Shifted, LogLevel, Flagged, Itoa;
    ghost var pieces := DatanodePieces(c, metaSrvAddr, nodeId, homeDir);
    RenderedStart(pieces, 6);
    args := [Flagged("--log-level", LogLevel(c.logLevel)), "datanode", "start", Flagged("--node-id", Itoa(nodeId)),
             Flagged("--metasrv-addr", metaSrvAddr), Flagged("--data-home", homeDir)];
    RenderedSnoc(pieces, 6);
    GenerateOne("--http-addr", c.httpAddr, nodeId, args);
    args := GenerateAddrArg("--http-addr", c.httpAddr, nodeId, args);
    RenderedSnoc(pieces, 7);
    GenerateOne("--rpc-addr", c.rpcAddr, nodeId, args);
    args := GenerateAddrArg("--rpc-addr", c.rpcAddr, nodeId, args);
    RenderedSnoc(pieces, 8);
    if |c.config| > 0 {
      args := args + [Flagged("-c", c.config)];
    }
    assert pieces[..9] == pieces;
  }

  /** What a frontend is told. */
  ghost predicate FrontendTold(args: seq<string>, c: FrontendConfig, metaSrvAddr: string, nodeId: int) {
    && Values(args, "--log-level") == [if c.logLevel == "" then "info" else c.logLevel]
    && Values(args, "--metasrv-addr") == [metaSrvAddr]
    && Values(args, "--http-addr") == Shifted(c.httpAddr, nodeId) && Values(args, "--rpc-addr") == Shifted(c.grpcAddr, nodeId)
    && Values(args, "--mysql-addr") == Shifted(c.mysqlAddr, nodeId)
    && Values(args, "--postgres-addr") == Shifted(c.postgresAddr, nodeId)
    && Values(args, "--opentsdb-addr") == Shifted(c.opentsdbAddr, nodeId)
    && Values(args, "-c") == IfSet(c.config) && Values(args, "--user-provider") == IfSet(c.userProvider)
  }

  lemma FrontendTells(c: FrontendConfig, metaSrvAddr: string, nodeId: int)
    ensures FrontendTold(Rendered(FrontendPieces(c, metaSrvAddr, nodeId)), c, metaSrvAddr, nodeId)
  {
    var pieces := FrontendPieces(c, metaSrvAddr, nodeId);
    FrontendLegible(c, metaSrvAddr, nodeId);
    hide AllLegible, FlagsDiffer, Values, Rendered, Shifted;
    forall k | 0 <= k < |pieces| && pieces[k].Flag? ensures Values(Rendered(pieces), pieces[k].flag) == pieces[k].values {
      ValuesAt(pieces, k);
    }
    assert pieces[0].flag == "--log-level" && pieces[3].flag == "--metasrv-addr" && pieces[4].flag == "--http-addr";
    assert pieces[5].flag == "--rpc-addr" && pieces[6].flag == "--mysql-addr" && pieces[7].flag == "--postgres-addr";
    assert pieces[8].flag == "--opentsdb-addr" && pieces[9].flag == "-c" && pieces[10].flag == "--user-provider";
  }

  method AddFrontendAddrs(c: FrontendConfig, metaSrvAddr: string, nodeId: int, head: seq<string>) returns (args: seq<string>)
    requires head == Rendered(FrontendPieces(c, metaSrvAddr, nodeId)[..4])
    ensures args == Rendered(FrontendPieces(c, metaSrvAddr, nodeId)[..9])
  {
    hide Rendered, GenerateAddrArg, Shifted, LogLevel, PieceArgs;
    ghost var pieces := FrontendPieces(c, metaSrvAddr, nodeId);
    args := head;
    RenderedSnoc(pieces, 4);
    GenerateOne("--http-addr", c.httpAddr, nodeId, args);
    args := GenerateAddrArg("--http-addr", c.httpAddr, nodeId, args);
    RenderedSnoc(pieces, 5);
    GenerateOne("--rpc-addr", c.grpcAddr, nodeId, args);
    args := GenerateAddrArg("--rpc-addr", c.grpcAddr, nodeId, args);
    RenderedSnoc(pieces, 6);
    GenerateOne("--mysql-addr", c.mysqlAddr, nodeId, args);
    args := GenerateAddrArg("--mysql-addr", c.mysqlAddr, nodeId, args);
    RenderedSnoc(pieces, 7);
    GenerateOne("--postgres-addr", c.postgresAddr, nodeId, args);
    args := GenerateAddrArg("--postgres-addr", c.postgresAddr, nodeId, args);
    RenderedSnoc(pieces, 8);
    GenerateOne("--opentsdb-addr", c.opentsdbAddr, nodeId, args);
    args := GenerateAddrArg("--opentsdb-addr", c.opentsdbAddr, nodeId, args);
  }

  method BuildFrontendArgs(c: FrontendConfig, metaSrvAddr: string, nodeId: int) returns (args: seq<string>)
    ensures args == Rendered(FrontendPieces(c, metaSrvAddr, nodeId)) && FrontendTold(args, c, metaSrvAddr, nodeId)
  {
    FrontendTells(c, metaSrvAddr, nodeId);
    hide FrontendTold, Rendered, Shifted, LogLevel, Flagged;
    ghost var pieces := FrontendPieces(c, metaSrvAddr, nodeId);
    RenderedStart(pieces, 4);
    args := [Flagged("--log-level", LogLevel(c.logLevel)), "frontend", "start", Flagged("--metasrv-addr", metaSrvAddr)];
    args := AddFrontendAddrs(c, metaSrvAddr, nodeId, args);
    RenderedSnoc(pieces, 9);
    if |c.config| > 0 {
      args := args + [Flagged("-c", c.config)];
    }
    RenderedSnoc(pieces, 10);
    if |c.userProvider| > 0 {
      args := args + [Flagged("--user-provider", c.userProvider)];
    }
    assert pieces[..11] == pieces;
  }

  // ---- Ports ----

  /** The port replica `i` of a slot is told to listen on. */
  function SlotPort(slot: Slot, i: int): int {
    PortOf(FormatAddrArg(slot.addr, i))
  }

  /** What validation leaves: a port between 1 and 65535, and replica counts that fit a 64-bit int. */
  predicate Validated(slots: seq<Slot>) {
    forall s | 0 <= s < |slots| && slots[s].addr != "" ::
      1 <= PortOf(slots[s].addr) <= 65535 && PortOf(slots[s].addr) + slots[s].replicas <= TWO63
  }

  /** Replica `i` of slot `s` is launched with an address. */
  predicate Listens(slots: seq<Slot>, s: int, i: int) {
    0 <= s < |slots| && slots[s].addr != "" && 0 <= i < slots[s].replicas
  }

  ghost predicate PortsDistinct(slots: seq<Slot>) {
    forall s, i, t, j | Listens(slots, s, i) && Listens(slots, t, j) && (s != t || i != j) ::
      SlotPort(slots[s], i) != SlotPort(slots[t], j)
  }

  /** The ports of a slot are [base, base + replicas). */
  predicate Apart(x: Slot, y: Slot) {
    || x.addr == "" || y.addr == "" || x.replicas == 0 || y.replicas == 0
    || PortOf(x.addr) + x.replicas <= PortOf(y.addr)
    || PortOf(y.addr) + y.replicas <= PortOf(x.addr)
  }

  ghost predicate IntervalsApart(slots: seq<Slot>) {
    forall s, t | 0 <= s < t < |slots| :: Apart(slots[s], slots[t])
  }

  lemma PortIsShifted(slots: seq<Slot>, s: int, i: int)
    requires Validated(slots) && Listens(slots, s, i)
    ensures SlotPort(slots[s], i) == PortOf(slots[s].addr) + i
  {
    FormatShifts(slots[s].addr, i);
  }

  /** Two intervals that overlap share a port. */
  lemma OverlapCollides(slots: seq<Slot>, s: nat, t: nat)
    requires Validated(slots) && s < t < |slots| && !Apart(slots[s], slots[t])
    ensures !PortsDistinct(slots)
  {
    var a, b := PortOf(slots[s].addr), PortOf(slots[t].addr);
    var i, j := if a >= b then 0 else b - a, if a >= b then a - b else 0;
    PortIsShifted(slots, s, i);
    PortIsShifted(slots, t, j);
    assert Listens(slots, s, i) && Listens(slots, t, j);
  }

  /** A whole launch is free of port collisions exactly when the slots' port intervals are pairwise disjoint. */
  lemma CollisionFree(slots: seq<Slot>)
    requires Validated(slots)
    ensures PortsDistinct(slots) <==> IntervalsApart(slots)
  {
    if !IntervalsApart(slots) {
      var s, t :| 0 <= s < t < |slots| && !Apart(slots[s], slots[t]);
      OverlapCollides(slots, s, t);
    } else {
      forall s, i, t, j | Listens(slots, s, i) && Listens(slots, t, j) && (s != t || i != j)
        ensures SlotPort(slots[s], i) != SlotPort(slots[t], j)
      {
        PortIsShifted(slots, s, i);
        PortIsShifted(slots, t, j);
        if s != t {
          assert Apart(slots[if s < t then s else t], slots[if s < t then t else s]);
        }
      }
    }
  }

  /** Every port of the launch is a TCP port exactly when each slot's last one is. */
  lemma PortsInRange(slots: seq<Slot>)
    requires Validated(slots)
    ensures (forall s, i | Listens(slots, s, i) :: 1 <= SlotPort(slots[s], i) <= 65535)
       <==> (forall s | 0 <= s < |slots| && slots[s].addr != "" && slots[s].replicas > 0 ::
               PortOf(slots[s].addr) + slots[s].replicas - 1 <= 65535)
  {
    forall s, i | Listens(slots, s, i) ensures SlotPort(slots[s], i) == PortOf(slots[s].addr) + i {
      PortIsShifted(slots, s, i);
    }
    if forall s, i | Listens(slots, s, i) :: 1 <= SlotPort(slots[s], i) <= 65535 {
      forall s | 0 <= s < |slots| && slots[s].addr != "" && slots[s].replicas > 0
        ensures PortOf(slots[s].addr) + slots[s].replicas - 1 <= 65535
      {
        assert Listens(slots, s, slots[s].replicas - 1);
      }
    }
  }

  // ---- The ports a launch names ----

  /** The arguments of replica `i` of the component that slot `s` of the launch belongs to. */
  function ArgsOf(c: ClusterConfig, homes: nat -> string, s: nat, i: nat): seq<string> {
    Rendered(
      if s < 2 then MetaSrvPieces(c.meta, i)
      else if s < 4 then DatanodePieces(c.datanode, c.meta.serverAddr, i, homes(i))
      else FrontendPieces(c.frontend, c.meta.serverAddr, i))
  }

  lemma SlotGiven(c: ClusterConfig, homes: nat -> string, s: nat, i: nat)
    requires s < |Slots(c)|
    ensures Values(ArgsOf(c, homes, s, i), Slots(c)[s].flag) == Shifted(Slots(c)[s].addr, i)
  {
    hide Values, Shifted, Rendered, AllLegible, FlagsDiffer, BindAddr, LogLevel, Itoa;
    if s < 2 {
      MetaSrvLegible(c.meta, i);
      ValuesAt(MetaSrvPieces(c.meta, i), 5 + s);
    } else if s < 4 {
      DatanodeLegible(c.datanode, c.meta.serverAddr, i, homes(i));
      ValuesAt(DatanodePieces(c.datanode, c.meta.serverAddr, i, homes(i)), 4 + s);
    } else {
      FrontendLegible(c.frontend, c.meta.serverAddr, i);
      ValuesAt(FrontendPieces(c.frontend, c.meta.serverAddr, i), s);
    }
  }

  /** The addresses that the arguments of replica `i` name for slot `s`. */
  function Named(c: ClusterConfig, homes: nat -> string, s: nat, i: nat): seq<string>
    requires s < |Slots(c)|
  {
    Values(ArgsOf(c, homes, s, i), Slots(c)[s].flag)
  }

  ghost predicate NamedPortsDistinct(c: ClusterConfig, homes: nat -> string) {
    forall s: nat, i: nat, t: nat, j: nat ::
      s < |Slots(c)| && i < Slots(c)[s].replicas && t < |Slots(c)| && j < Slots(c)[t].replicas && (s != t || i != j)
      && Named(c, homes, s, i) != [] && Named(c, homes, t, j) != [] ==>
        PortOf(Named(c, homes, s, i)[0]) != PortOf(Named(c, homes, t, j)[0])
  }

  lemma NamedPort(c: ClusterConfig, homes: nat -> string, s: nat, i: nat)
    requires s < |Slots(c)|
    ensures |Named(c, homes, s, i)| <= 1
    ensures Named(c, homes, s, i) != [] <==> Slots(c)[s].addr != ""
    ensures Slots(c)[s].addr != "" ==> PortOf(Named(c, homes, s, i)[0]) == SlotPort(Slots(c)[s], i)
  {
    SlotGiven(c, homes, s, i);
    ShiftedPort(Slots(c)[s], i);
  }

  lemma ShiftedPort(slot: Slot, i: int)
    ensures |Shifted(slot.addr, i)| <= 1 && (Shifted(slot.addr, i) != [] <==> slot.addr != "")
    ensures slot.addr != "" ==> PortOf(Shifted(slot.addr, i)[0]) == SlotPort(slot, i)
  {
  }

  /** The arguments of all replicas of a launch name pairwise different ports exactly when the port intervals are disjoint. */
  lemma LaunchCollisionFree(c: ClusterConfig, homes: nat -> string)
    requires Validated(Slots(c))
    ensures NamedPortsDistinct(c, homes) <==> IntervalsApart(Slots(c))
  {
    hide Named, SlotPort, Validated, IntervalsApart, Slots;
    var slots := Slots(c);
    CollisionFree(slots);
    forall s: nat, i: nat | s < |slots| {
      NamedPort(c, homes, s, i);
    }
    if PortsDistinct(slots) {
      forall s: nat, i: nat, t: nat, j: nat |
        s < |slots| && i < slots[s].replicas && t < |slots| && j < slots[t].replicas && (s != t || i != j)
        && Named(c, homes, s, i) != [] && Named(c, homes, t, j) != []
        ensures PortOf(Named(c, homes, s, i)[0]) != PortOf(Named(c, homes, t, j)[0])
      {
        assert Listens(slots, s, i) && Listens(slots, t, j);
      }
    }
    if NamedPortsDistinct(c, homes) {
      forall s, i, t, j | Listens(slots, s, i) && Listens(slots, t, j) && (s != t || i != j)
        ensures SlotPort(slots[s], i) != SlotPort(slots[t], j)
      {
        assert Named(c, homes, s, i) != [] && Named(c, homes, t, j) != [];
      }
    }
  }

  // ---- The default configuration ----

  /** An address on every interface, such as `0.0.0.0:4000`. */
  function AnyAddr(port: nat): string {
    Render("0.0.0.0", port)
  }

  function DefaultConfig(metaSrvs: nat, datanodes: nat, frontends: nat): ClusterConfig {
    ClusterConfig(
      MetaSrvConfig(Render("127.0.0.1", 2379), AnyAddr(3002), "", AnyAddr(14001), metaSrvs, "", ""),
      DatanodeConfig(AnyAddr(14100), AnyAddr(14300), datanodes, "", ""),
      FrontendConfig(AnyAddr(4001), AnyAddr(4000), AnyAddr(4003), AnyAddr(4002), AnyAddr(4242), frontends, "", "", ""))
  }

  /** Base port and replica count of each default slot. */
  function DefaultBases(): seq<nat> {
    [14001, 3002, 14300, 14100, 4000, 4001, 4002, 4003, 4242]
  }

  function DefaultReplicas(m: nat, d: nat, f: nat): seq<nat> {
    [m, m, d, d, f, f, f, f, f]
  }

  predicate SlotIs(slot: Slot, base: nat, replicas: nat) {
    slot.addr != "" && PortOf(slot.addr) == base && slot.replicas == replicas
  }

  function DefaultAddr(s: nat, port: nat): string {
    if s == 1 then DEFAULT_BIND_ADDR else AnyAddr(port)
  }

  lemma AnyPort(port: nat)
    requires port <= 65535
    ensures AnyAddr(port) != "" && PortOf(AnyAddr(port)) == port
  {
    RenderPort("0.0.0.0", port);
  }

  lemma BindPort()
    ensures DEFAULT_BIND_ADDR != "" && PortOf(DEFAULT_BIND_ADDR) == 3002
  {
    RenderPort("127.0.0.1", 3002);
  }

  lemma DefaultAddrPort(s: nat, port: nat)
    requires port <= 65535 && (s == 1 ==> port == 3002)
    ensures DefaultAddr(s, port) != "" && PortOf(DefaultAddr(s, port)) == port
  {
    if s == 1 {
      BindPort();
    } else {
      AnyPort(port);
    }
  }

  lemma DefaultSlots(m: nat, d: nat, f: nat)
    ensures var slots := Slots(DefaultConfig(m, d, f));
            && |slots| == 9
            && forall s: nat | s < 9 ::
                 slots[s].replicas == DefaultReplicas(m, d, f)[s] && slots[s].addr == DefaultAddr(s, DefaultBases()[s])
  {
    hide Render;
  }

  lemma SlotsMatch(slots: seq<Slot>, bases: seq<nat>, replicas: seq<nat>)
    requires |slots| == |bases| == |replicas|
    requires forall s: nat | s < |slots| :: slots[s].replicas == replicas[s] && slots[s].addr == DefaultAddr(s, bases[s])
    requires forall s: nat | s < |slots| :: bases[s] <= 65535 && (s == 1 ==> bases[s] == 3002)
    ensures forall s | 0 <= s < |slots| :: SlotIs(slots[s], bases[s], replicas[s])
  {
    forall s: nat | s < |slots| ensures SlotIs(slots[s], bases[s], replicas[s]) {
      DefaultAddrPort(s, bases[s]);
    }
  }

  ghost predicate BasesApart(bases: seq<nat>, replicas: seq<nat>)
    requires |bases| == |replicas|
  {
    forall s, t | 0 <= s < t < |bases| :: bases[s] + replicas[s] <= bases[t] || bases[t] + replicas[t] <= bases[s]
  }

  lemma BasesScale(m: nat, d: nat, f: nat)
    requires m > 0 && d > 0 && f > 0
    ensures BasesApart(DefaultBases(), DefaultReplicas(m, d, f)) <==> m <= 99 && d <= 200 && f == 1
  {
    var b, r := DefaultBases(), DefaultReplicas(m, d, f);
    assert b[0] == 14001 && b[2] == 14300 && b[3] == 14100 && b[4] == 4000 && b[5] == 4001;
    assert r[0] == m && r[2] == r[3] == d && r[4] == r[5] == f;
  }

  /**
   How far the default addresses scale: collision-free exactly up to 99 metasrvs, 200 datanodes and a
   single frontend. The shipped default (1, 3, 1) is well inside.
   */
  lemma DefaultScales(metaSrvs: nat, datanodes: nat, frontends: nat)
    requires 0 < metaSrvs < TWO63 - 65535 && 0 < datanodes < TWO63 - 65535 && 0 < frontends < TWO63 - 65535
    ensures Validated(Slots(DefaultConfig(metaSrvs, datanodes, frontends)))
    ensures PortsDistinct(Slots(DefaultConfig(metaSrvs, datanodes, frontends)))
       <==> metaSrvs <= 99 && datanodes <= 200 && frontends == 1
  {
    var slots := Slots(DefaultConfig(metaSrvs, datanodes, frontends));
    DefaultSlots(metaSrvs, datanodes, frontends);
    DefaultBasesValid(metaSrvs, datanodes, frontends);
    SlotsScale(slots, DefaultBases(), DefaultReplicas(metaSrvs, datanodes, frontends));
    BasesScale(metaSrvs, datanodes, frontends);
  }

  lemma DefaultBasesValid(m: nat, d: nat, f: nat)
    requires 0 < m < TWO63 - 65535 && 0 < d < TWO63 - 65535 && 0 < f < TWO63 - 65535
    ensures |DefaultBases()| == |DefaultReplicas(m, d, f)| == 9 && DefaultBases()[1] == 3002
    ensures forall s | 0 <= s < 9 :: 1 <= DefaultBases()[s] <= 65535 && 0 < DefaultReplicas(m, d, f)[s] < TWO63 - 65535
  {
  }

  lemma SlotsScale(slots: seq<Slot>, bases: seq<nat>, replicas: seq<nat>)
    requires |slots| == |bases| == |replicas| && (|bases| > 1 ==> bases[1] == 3002)
    requires forall s: nat | s < |slots| :: slots[s].replicas == replicas[s] && slots[s].addr == DefaultAddr(s, bases[s])
    requires forall s | 0 <= s < |slots| :: 1 <= bases[s] <= 65535 && 0 < replicas[s] < TWO63 - 65535
    ensures Validated(slots)
    ensures PortsDistinct(slots) <==> BasesApart(bases, replicas)
  {
    SlotsMatch(slots, bases, replicas);
    ApartByBases(slots, bases, replicas);
    CollisionFree(slots);
  }

  lemma ApartByBases(slots: seq<Slot>, bases: seq<nat>, replicas: seq<nat>)
    requires |slots| == |bases| == |replicas|
    requires forall s | 0 <= s < |slots| :: SlotIs(slots[s], bases[s], replicas[s])
    requires forall s | 0 <= s < |slots| :: 1 <= bases[s] <= 65535 && 0 < replicas[s] < TWO63 - 65535
    ensures Validated(slots)
    ensures IntervalsApart(slots) <==> BasesApart(bases, replicas)
  {
    forall s, t | 0 <= s < t < |slots|
      ensures Apart(slots[s], slots[t]) <==> bases[s] + replicas[s] <= bases[t] || bases[t] + replicas[t] <= bases[s]
    {
      assert SlotIs(slots[s], bases[s], replicas[s]) && SlotIs(slots[t], bases[t], replicas[t]);
    }
  }
}
