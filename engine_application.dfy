/** The start-up of the Java engine (`EngineApplication.main`): the HTTP
    port taken from the `JAVA_ENGINE_ADDR` environment value into the
    `server.port` system property, and the gRPC port chosen from
    `JAVA_GRPC_PORT`, the HTTP port plus one, or 9192. Environment values
    and the property's value before start-up are parameters; `None` is
    Java's `null`. */
module EngineApplication {
  import opened Wrappers
  import opened Text

  const DefaultGrpcPort: int := 9192

  /** `String.isBlank`: empty or only `Character.isWhitespace` characters. */
  predicate Blank(s: string) {
    AllSpace(s, IsJavaSpace)
  }

  /** `Integer.parseInt`, with `None` for the `NumberFormatException` it
      throws on `null`, on text that is not a decimal and on values
      outside 32 bits. */
  function ParseJavaInt(s: Option<string>): (r: Option<int>)
    ensures r.Some? ==> s.Some? && I32Min <= r.value <= I32Max
  {
    if s.None? then None else ParseDecimal(s.value, true, I32Min, I32Max)
  }

  /** Java's `int` addition: the exact sum taken back into 32 bits. */
  function AddI32(a: int, b: int): (r: int)
    requires I32Min <= a <= I32Max && I32Min <= b <= I32Max
    ensures I32Min <= r <= I32Max
    ensures I32Min <= a + b <= I32Max ==> r == a + b
    ensures a + b > I32Max ==> r == a + b - 0x1_0000_0000
    ensures a + b < I32Min ==> r == a + b + 0x1_0000_0000
  {
    if a + b > I32Max then a + b - 0x1_0000_0000
    else if a + b < I32Min then a + b + 0x1_0000_0000
    else a + b
  }

  /** The text read as the port: what follows the last ':' when there is
      a colon that is not the final character, the whole value otherwise. */
  function PortText(addr: string): (r: string)
    ensures r == addr || (':' !in r && |r| >= 1 && OccursAt(addr, ":" + r, |addr| - |r| - 1))
  {
    match LastIndexOf(addr, ":")
    case Some(colon) =>
      if colon < |addr| - 1 then
        var r := addr[colon + 1..];
        assert addr[colon..] == ":" + r;
        forall k | 0 <= k < |r| ensures r[k] != ':' {
          if r[k] == ':' {
            assert OccursAt(addr, ":", colon + 1 + k);
          }
        }
        r
      else addr
    case None => addr
  }

  /** The `server.port` property after the first block of `main`: set to
      the parsed port, printed back in decimal, when the address is
      present, not blank and its port text is a 32-bit integer; left as
      it was otherwise. */
  function ServerPortProperty(addr: Option<string>, prior: Option<string>): (r: Option<string>)
    ensures r != prior ==> addr.Some? && !Blank(addr.value)
    ensures r != prior ==> exists p | I32Min <= p <= I32Max :: r == Some(IntToString(p))
  {
    if addr.Some? && !Blank(addr.value) then
      match ParseJavaInt(Some(PortText(addr.value)))
      case Some(p) => Some(IntToString(p))
      case None => prior
    else prior
  }

  /** The gRPC port: an explicit non-blank `JAVA_GRPC_PORT` decides (9192
      when it is not an integer, whatever the HTTP port); otherwise the
      HTTP port plus one in `int` arithmetic when that port is positive,
      and 9192 when it is missing, not an integer, zero or negative. */
  function GrpcPort(grpcEnv: Option<string>, serverPort: Option<string>): (r: int)
    ensures I32Min <= r <= I32Max
  {
    if grpcEnv.Some? && !Blank(grpcEnv.value) then
      ParseJavaInt(grpcEnv).GetOr(DefaultGrpcPort)
    else
      var httpPort := ParseJavaInt(serverPort).GetOr(0);
      if httpPort > 0 then AddI32(httpPort, 1) else DefaultGrpcPort
  }

  datatype Ports = Ports(serverPort: Option<string>, grpcPort: int)

  /** Both steps of `main` before the servers start. */
  function StartupPorts(addr: Option<string>, grpcEnv: Option<string>, prior: Option<string>): (r: Ports)
    ensures r.serverPort == ServerPortProperty(addr, prior)
    ensures r.grpcPort == GrpcPort(grpcEnv, r.serverPort)
  {
    var serverPort := ServerPortProperty(addr, prior);
    Ports(serverPort, GrpcPort(grpcEnv, serverPort))
  }

  // ---------------------------------------------------------------------
  // Properties

  lemma NoColonInIntToString(i: int)
    ensures ':' !in IntToString(i) && |IntToString(i)| >= 1
    ensures !IsJavaSpace(IntToString(i)[0])
  {
    var s := IntToString(i);
    if i < 0 {
      var d := NatToString(-i);
      assert s == "-" + d;
      forall k | 0 <= k < |s| ensures s[k] != ':' {
        if k > 0 {
          assert s[k] == d[k - 1] && IsAsciiDigit(d[k - 1]);
        }
      }
    } else {
      forall k | 0 <= k < |s| ensures s[k] != ':' {
        assert IsAsciiDigit(s[k]);
      }
      assert IsAsciiDigit(s[0]);
    }
  }

  /** A printed integer is never blank. */
  lemma IntToStringNotBlank(i: int)
    ensures !Blank(IntToString(i))
  {
    NoColonInIntToString(i);
  }

  /** A missing or blank address leaves `server.port` as it was. */
  lemma BlankAddrKeepsProperty(addr: Option<string>, prior: Option<string>)
    requires addr.None? || Blank(addr.value)
    ensures ServerPortProperty(addr, prior) == prior
  {
  }

  /** The port text of "host:port" is the port part, whatever the host. */
  lemma PortTextAfterLastColon(host: string, port: string)
    requires ':' !in port && |port| >= 1
    ensures PortText(host + ":" + port) == port
  {
    var s := ":" + port;
    var addr := host + ":" + port;
    assert addr == host + s;
    forall j | 0 < j ensures !OccursAt(s, ":", j) {
      if j < |s| {
        assert s[j] == port[j - 1] && port[j - 1] in port;
      }
    }
    LastIndexAfterPrefix(host, s, ":");
    assert addr[|host| + 1..] == port;
  }

  /** "host:port", with any host text, sets `server.port` to the port. */
  lemma {:induction false} AddrRoundTrip(host: string, port: int, prior: Option<string>)
    requires I32Min <= port <= I32Max
    ensures ServerPortProperty(Some(host + ":" + IntToString(port)), prior) == Some(IntToString(port))
  {
    var p := IntToString(port);
    var addr := host + ":" + p;
    NoColonInIntToString(port);
    PortTextAfterLastColon(host, p);
    assert !Blank(addr) by {
      assert addr[|host|] == ':';
    }
    ParseDecimalRoundTrip(port, I32Min, I32Max);
  }

  /** A bare port sets `server.port` to it. */
  lemma {:induction false} BarePortRoundTrip(port: int, prior: Option<string>)
    requires I32Min <= port <= I32Max
    ensures ServerPortProperty(Some(IntToString(port)), prior) == Some(IntToString(port))
  {
    var p := IntToString(port);
    NoColonInIntToString(port);
    assert !Contains(p, ":") by {
      forall i | 0 <= i < |p| ensures !OccursAt(p, ":", i) {
        assert p[i] in p;
      }
    }
    assert PortText(p) == p;
    IntToStringNotBlank(port);
    ParseDecimalRoundTrip(port, I32Min, I32Max);
  }

  /** With the colon as the last character the whole value is read as the
      port, which fails, so `server.port` is left as it was. */
  lemma {:induction false} TrailingColonKeepsProperty(host: string, prior: Option<string>)
    ensures ServerPortProperty(Some(host + ":"), prior) == prior
  {
    var addr := host + ":";
    var text := PortText(addr);
    if text != addr {
      assert false;
    }
    var body := if addr[0] == '+' || addr[0] == '-' then addr[1..] else addr;
    assert body[|body| - 1] == ':';
    assert DigitsOf(body).None?;
  }

  /** A non-blank `JAVA_GRPC_PORT` that is an integer is the gRPC port,
      whatever the HTTP port. */
  lemma {:induction false} ExplicitGrpcPortWins(grpc: int, serverPort: Option<string>)
    requires I32Min <= grpc <= I32Max
    ensures GrpcPort(Some(IntToString(grpc)), serverPort) == grpc
  {
    IntToStringNotBlank(grpc);
    ParseDecimalRoundTrip(grpc, I32Min, I32Max);
  }

  /** A non-blank `JAVA_GRPC_PORT` that is not an integer gives 9192,
      whatever the HTTP port: it never falls back to the HTTP port plus
      one. */
  lemma {:induction false} ExplicitGrpcUnparseable(grpc: string, serverPort: Option<string>)
    requires !Blank(grpc) && ParseJavaInt(Some(grpc)).None?
    ensures GrpcPort(Some(grpc), serverPort) == DefaultGrpcPort
  {
  }

  /** Without `JAVA_GRPC_PORT`, a positive HTTP port below the 32-bit
      maximum gives the next port up, and no usable HTTP port (missing,
      not an integer, zero or negative) gives 9192. */
  lemma {:induction false} GrpcFollowsHttp(grpcEnv: Option<string>, http: int, serverPort: Option<string>)
    requires grpcEnv.None? || Blank(grpcEnv.value)
    requires I32Min <= http <= I32Max
    ensures 0 < http < I32Max ==> GrpcPort(grpcEnv, Some(IntToString(http))) == http + 1
    ensures http <= 0 ==> GrpcPort(grpcEnv, Some(IntToString(http))) == DefaultGrpcPort
    ensures GrpcPort(grpcEnv, None) == DefaultGrpcPort
    ensures ParseJavaInt(serverPort).None? ==> GrpcPort(grpcEnv, serverPort) == DefaultGrpcPort
  {
    ParseDecimalRoundTrip(http, I32Min, I32Max);
  }

  /** `httpPort + 1` is `int` arithmetic: an HTTP port of 2147483647 makes
      the gRPC port -2147483648. */
  lemma {:induction false} GrpcPortWraps(grpcEnv: Option<string>)
    requires grpcEnv.None? || Blank(grpcEnv.value)
    ensures GrpcPort(grpcEnv, Some(IntToString(I32Max))) == I32Min
  {
    ParseDecimalRoundTrip(I32Max, I32Min, I32Max);
  }

  /** End to end: with "host:port" in `JAVA_ENGINE_ADDR` and no
      `JAVA_GRPC_PORT`, the HTTP server gets the port and gRPC the next
      one; with neither variable and no property set, gRPC gets 9192. */
  lemma {:induction false} StartupFromAddr(host: string, port: int, prior: Option<string>)
    requires 0 < port < I32Max
    ensures StartupPorts(Some(host + ":" + IntToString(port)), None, prior) ==
              Ports(Some(IntToString(port)), port + 1)
    ensures StartupPorts(None, None, None) == Ports(None, DefaultGrpcPort)
  {
    AddrRoundTrip(host, port, prior);
    GrpcFollowsHttp(None, port, None);
  }
}
