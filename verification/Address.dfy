/**
 Socket addresses (pkg/components/utils.go). `net.SplitHostPort` and `net.JoinHostPort` follow Go's
 net package: a host with a colon is bracketed, as an IPv6 literal is in section 3.2.2 of RFC 3986.
 */
module Address {
  import opened Text
  import opened Decimal

  datatype HostPort = HostPort(host: string, port: string)

  /** Splits at the last colon `i`, the host being a bracketed literal. */
  function SplitLiteral(s: string, i: nat): Result<HostPort>
    requires i < |s| && s[0] == '['
  {
    if ']' !in s then Err("missing ']' in address")
    else
      var end := IndexOf(s, ']');
      if end + 1 == |s| then Err("missing port in address")
      else if end + 1 != i then Err(if s[end + 1] == ':' then "too many colons in address" else "missing port in address")
      else if '[' in s[1..] then Err("unexpected '[' in address")
      else if ']' in s[end + 1..] then Err("unexpected ']' in address")
      else Ok(HostPort(s[1..end], s[i + 1..]))
  }

  function SplitName(s: string, i: nat): Result<HostPort>
    requires i < |s|
  {
    if ':' in s[..i] then Err("too many colons in address")
    else if '[' in s then Err("unexpected '[' in address")
    else if ']' in s then Err("unexpected ']' in address")
    else Ok(HostPort(s[..i], s[i + 1..]))
  }

  function SplitHostPort(s: string): Result<HostPort> {
    if ':' !in s then Err("missing port in address")
    else if s[0] == '[' then SplitLiteral(s, LastIndexOf(s, ':'))
    else SplitName(s, LastIndexOf(s, ':'))
  }

  function JoinHostPort(host: string, port: string): string {
    if ':' in host then ['['] + host + [']', ':'] + port else host + [':'] + port
  }

  /** The parts as `FormatAddrArg` sees them: a malformed address counts as an empty host and port. */
  function Parts(addr: string): HostPort {
    match SplitHostPort(addr)
    case Ok(hp) => hp
    case Err(_) => HostPort("", "")
  }

  function HostOf(addr: string): string {
    Parts(addr).host
  }

  function PortOf(addr: string): (p: int)
    ensures IsInt64(p)
  {
    Atoi(Parts(addr).port)
  }

  function FormatAddrArg(addr: string, nodeId: int): string {
    if |addr| == 0 then addr
    else Render(HostOf(addr), Add64(PortOf(addr), nodeId))
  }

  function Render(host: string, port: int): string {
    JoinHostPort(host, Itoa(port))
  }

  /** Pushes `config=addr` onto the arguments, unless the address is empty. */
  function GenerateAddrArg(config: string, addr: string, nodeId: int, args: seq<string>): seq<string> {
    var socketAddr := FormatAddrArg(addr, nodeId);
    if |socketAddr| == 0 then args else args + [config + ['='] + socketAddr]
  }

  // ---- Splitting undoes joining ----

  predicate NoBrackets(s: string) {
    '[' !in s && ']' !in s
  }

  lemma HostPlain(addr: string)
    ensures NoBrackets(HostOf(addr))
  {
    if SplitHostPort(addr).Ok? {
      var i := LastIndexOf(addr, ':');
      if addr[0] == '[' {
        var end := IndexOf(addr, ']');
        assert forall c | c in addr[1..end] :: c in addr[1..] && c in addr[..end];
      } else {
        assert forall c | c in addr[..i] :: c in addr;
      }
    }
  }

  function Bracketed(host: string, port: string): (s: string)
    ensures |s| == |host| + 3 + |port|
    ensures s[0] == '[' && s[|host| + 1] == ']' && s[|host| + 2] == ':'
    ensures s[1..|host| + 1] == host && s[|host| + 3..] == port
  {
    ['['] + host + [']', ':'] + port
  }

  lemma BracketedMarks(host: string, port: string)
    requires NoBrackets(host) && NoBrackets(port) && ':' !in port
    ensures var s := Bracketed(host, port);
            && ':' in s && LastIndexOf(s, ':') == |host| + 2
            && ']' in s && IndexOf(s, ']') == |host| + 1
  {
    var s := Bracketed(host, port);
    assert s == (['['] + host + [']']) + [':'] + port;
    assert s == (['['] + host) + [']'] + ([':'] + port);
    LastIndexOfAt(['['] + host + [']'], ':', port);
    IndexOfAt(['['] + host, ']', [':'] + port);
  }

  lemma BracketedRest(host: string, port: string)
    requires NoBrackets(host) && NoBrackets(port)
    ensures '[' !in Bracketed(host, port)[1..] && ']' !in Bracketed(host, port)[|host| + 2..]
  {
    assert Bracketed(host, port)[1..] == host + [']', ':'] + port;
    assert Bracketed(host, port)[|host| + 2..] == [':'] + port;
  }

  lemma SplitBracketed(s: string, host: string, port: string)
    requires NoBrackets(host) && NoBrackets(port) && ':' !in port && s == Bracketed(host, port)
    ensures SplitHostPort(s) == Ok(HostPort(host, port))
  {
    BracketedMarks(host, port);
    BracketedRest(host, port);
    assert SplitHostPort(s) == SplitLiteral(s, |host| + 2);
  }

  lemma SplitSimple(host: string, port: string)
    requires NoBrackets(host) && NoBrackets(port) && ':' !in port && ':' !in host
    ensures SplitHostPort(host + [':'] + port) == Ok(HostPort(host, port))
  {
    var s := host + [':'] + port;
    LastIndexOfAt(host, ':', port);
    assert s[|host|] == ':' && s[..|host|] == host && s[|host| + 1..] == port;
    assert s[0] == if host == "" then ':' else host[0];
  }

  lemma SplitJoined(host: string, port: string)
    requires NoBrackets(host) && NoBrackets(port) && ':' !in port
    ensures SplitHostPort(JoinHostPort(host, port)) == Ok(HostPort(host, port))
  {
    if ':' in host {
      SplitBracketed(JoinHostPort(host, port), host, port);
    } else {
      SplitSimple(host, port);
    }
  }

  /** The two ways to write a host and a port; a host with a colon has only the second. */
  predicate Spells(s: string, host: string, port: string) {
    && NoBrackets(host) && NoBrackets(port) && ':' !in port
    && ((':' !in host && s == host + ":" + port) || s == "[" + host + "]:" + port)
  }

  lemma SpellsLiteral(s: string, i: nat)
    requires i < |s| && s[0] == '[' && s[i] == ':' && ':' !in s[i + 1..] && SplitLiteral(s, i).Ok?
    ensures Spells(s, SplitLiteral(s, i).value.host, SplitLiteral(s, i).value.port)
  {
    var end := IndexOf(s, ']');
    var host, port := s[1..end], s[i + 1..];
    assert s == "[" + host + "]:" + port;
    assert forall c | c in host :: c in s[1..] && c in s[..end];
    assert forall c | c in port :: c in s[1..] && c in s[end + 1..];
  }

  lemma SpellsName(s: string, i: nat)
    requires i < |s| && s[i] == ':' && ':' !in s[i + 1..] && SplitName(s, i).Ok?
    ensures Spells(s, SplitName(s, i).value.host, SplitName(s, i).value.port)
  {
    assert s == s[..i] + ":" + s[i + 1..];
    assert forall c | c in s[..i] || c in s[i + 1..] :: c in s;
  }

  /** An address is split exactly if it is written in one of the two ways, and then into what was written. */
  lemma SplitExactly(s: string, host: string, port: string)
    ensures SplitHostPort(s) == Ok(HostPort(host, port)) <==> Spells(s, host, port)
  {
    if Spells(s, host, port) {
      if s == "[" + host + "]:" + port {
        SplitBracketed(s, host, port);
      } else {
        SplitSimple(host, port);
      }
    }
    if SplitHostPort(s) == Ok(HostPort(host, port)) {
      hide Spells;
      var i := LastIndexOf(s, ':');
      if s[0] == '[' {
        SpellsLiteral(s, i);
      } else {
        SpellsName(s, i);
      }
    }
  }

  /** A rendered address has the port it was rendered with. */
  lemma RenderPort(host: string, port: int)
    requires NoBrackets(host) && IsInt64(port)
    ensures Render(host, port) != ""
    ensures SplitHostPort(Render(host, port)) == Ok(HostPort(host, Itoa(port)))
    ensures HostOf(Render(host, port)) == host && PortOf(Render(host, port)) == port
  {
    ItoaChars(port);
    SplitJoined(host, Itoa(port));
    AtoiItoa(port);
  }

  // ---- FormatAddrArg is an exact shift ----

  /** Whatever the address, the result has the same host, and its port is the shifted one in decimal. */
  lemma FormatShifts(addr: string, nodeId: int)
    requires addr != ""
    ensures FormatAddrArg(addr, nodeId) != ""
    ensures SplitHostPort(FormatAddrArg(addr, nodeId)) == Ok(HostPort(HostOf(addr), Itoa(Add64(PortOf(addr), nodeId))))
    ensures HostOf(FormatAddrArg(addr, nodeId)) == HostOf(addr)
    ensures PortOf(FormatAddrArg(addr, nodeId)) == Add64(PortOf(addr), nodeId)
  {
    HostPlain(addr);
    RenderPort(HostOf(addr), Add64(PortOf(addr), nodeId));
  }

  /**
   The text: a host without a colon is written plainly, one with a colon in brackets, and an address that is
   written in neither way loses everything but the shift.
   */
  lemma FormatText(addr: string, nodeId: int)
    ensures FormatAddrArg("", nodeId) == ""
    ensures forall host, port | addr != "" && Spells(addr, host, port) ::
              FormatAddrArg(addr, nodeId) ==
                (if ':' in host then "[" + host + "]:" else host + ":") + Itoa(Add64(Atoi(port), nodeId))
    ensures addr != "" && !(exists host, port :: Spells(addr, host, port)) ==>
              FormatAddrArg(addr, nodeId) == ":" + Itoa(Add64(0, nodeId))
  {
    forall host, port | addr != "" && Spells(addr, host, port)
      ensures FormatAddrArg(addr, nodeId)
           == (if ':' in host then "[" + host + "]:" else host + ":") + Itoa(Add64(Atoi(port), nodeId))
    {
      SplitExactly(addr, host, port);
    }
    if SplitHostPort(addr).Ok? {
      SplitExactly(addr, HostOf(addr), Parts(addr).port);
    } else {
      assert "" + [':'] + Itoa(Add64(0, nodeId)) == ":" + Itoa(Add64(0, nodeId));
    }
  }

  /** Shifting twice is shifting by the sum, for every address and every pair of shifts. */
  lemma FormatAdds(addr: string, i: int, j: int)
    ensures FormatAddrArg(FormatAddrArg(addr, i), j) == FormatAddrArg(addr, i + j)
  {
    if addr != "" {
      var once := FormatAddrArg(addr, i);
      assert HostOf(once) == HostOf(addr) && PortOf(once) == Add64(PortOf(addr), i) && once != "" by {
        FormatShifts(addr, i);
      }
      AddAssociative(PortOf(addr), i, j);
    }
  }

  /** Different node ids never share an address, so replicas of one component never collide. */
  lemma FormatInjective(addr: string, i: int, j: int)
    requires addr != "" && IsInt64(i) && IsInt64(j)
    requires FormatAddrArg(addr, i) == FormatAddrArg(addr, j)
    ensures i == j
  {
    assert Add64(PortOf(addr), i) == Add64(PortOf(addr), j) by {
      FormatShifts(addr, i);
      FormatShifts(addr, j);
    }
    AddInjective(PortOf(addr), i, j);
  }
}
