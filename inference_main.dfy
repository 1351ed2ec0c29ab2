/** The entry point of the inference service (`main.py`): reading the
    listening address from the `PY_INFERENCE_ADDR` environment value and
    choosing between it and the command-line host and port. The
    environment and the parsed command line are parameters. */
module InferenceMain {
  import opened Wrappers
  import opened Text

  datatype Addr = Addr(host: string, port: int)

  const DefaultHost := "127.0.0.1"

  /** `_parse_addr_env`: split once at the last ':' (`rsplit(":", 1)`).
      Without a colon the value is a port when it reads as an integer and
      a host otherwise; with one, the part before it is the host (the
      default when empty) and the part after it the port (0 when it does
      not read as an integer). */
  function ParseAddrEnv(envValue: string): (r: Addr)
    ensures r.host != ""
  {
    if envValue == "" then Addr(DefaultHost, 0)
    else match LastIndexOf(envValue, ":")
      case None =>
        (match ParsePyInt(envValue)
         case Some(n) => Addr(DefaultHost, n)
         case None => Addr(envValue, 0))
      case Some(i) =>
        var hostPart := envValue[..i];
        var portPart := envValue[i + 1..];
        Addr(if hostPart == "" then DefaultHost else hostPart, ParsePyInt(portPart).GetOr(0))
  }

  /** Only the last colon separates: any host text, colons included,
      followed by ':' and a part without colons, gives that host (or the
      default for an empty one) and the part read as an integer, 0 when
      it is not one. */
  lemma ParseAddrSplit(hostPart: string, portPart: string)
    requires ':' !in portPart
    ensures ParseAddrEnv(hostPart + ":" + portPart) ==
              Addr(if hostPart == "" then DefaultHost else hostPart, ParsePyInt(portPart).GetOr(0))
  {
    var s := ":" + portPart;
    var v := hostPart + ":" + portPart;
    assert v == hostPart + s;
    forall j | 0 < j ensures !OccursAt(s, ":", j) {
      if j < |s| {
        assert s[j] == portPart[j - 1] && portPart[j - 1] in portPart;
      }
    }
    LastIndexAfterPrefix(hostPart, s, ":");
    assert v[..|hostPart|] == hostPart;
    assert v[|hostPart| + 1..] == portPart;
  }

  /** Formatting a host and a port and parsing the result gives them back. */
  lemma ParseAddrRoundTrip(host: string, port: nat)
    requires host != ""
    ensures ParseAddrEnv(host + ":" + NatToString(port)) == Addr(host, port)
  {
    ParseAddrSplit(host, NatToString(port));
    ParsePyIntOfDigits(port);
  }

  /** A bare port number keeps the default host. */
  lemma ParseAddrPortOnly(port: nat)
    ensures ParseAddrEnv(NatToString(port)) == Addr(DefaultHost, port)
  {
    var s := NatToString(port);
    assert !Contains(s, ":") by {
      forall i | 0 <= i < |s| ensures !OccursAt(s, ":", i) {
        assert IsAsciiDigit(s[i]);
      }
    }
    ParsePyIntOfDigits(port);
  }

  /** A value without a colon that starts with a letter is a host name,
      with port 0. */
  lemma ParseAddrNameOnly(name: string)
    requires |name| >= 1 && ':' !in name
    requires 'a' <= name[0] <= 'z' || 'A' <= name[0] <= 'Z'
    ensures ParseAddrEnv(name) == Addr(name, 0)
  {
    assert !Contains(name, ":") by {
      forall i | 0 <= i < |name| ensures !OccursAt(name, ":", i) {
        assert name[i] in name;
      }
    }
    assert !IsPySpace(name[0]);
    var t := TrimEnd(name, IsPySpace);
    TrimKeepsStart(name, IsPySpace);
    assert PyIntBody(t) == t && !PyDigitGroups(t);
    assert ParsePyInt(name).None?;
  }

  /** The host and port `main` passes to the server: the environment's
      host unless there is none or it is the container name
      "inference-py", and the environment's port only when positive;
      the command-line values otherwise. */
  function SelectHostPort(envAddr: Option<string>, argHost: string, argPort: int): Addr {
    var env := if envAddr.Some? && envAddr.value != "" then Some(ParseAddrEnv(envAddr.value)) else None;
    Addr(
      if env.Some? && env.value.host != "" && env.value.host != "inference-py" then env.value.host else argHost,
      if env.Some? && env.value.port > 0 then env.value.port else argPort)
  }

  /** Without an address in the environment the command line decides. */
  lemma SelectWithoutEnv(argHost: string, argPort: int)
    ensures SelectHostPort(None, argHost, argPort) == Addr(argHost, argPort)
    ensures SelectHostPort(Some(""), argHost, argPort) == Addr(argHost, argPort)
  {
  }

  /** An address with a usable host and a positive port replaces both
      command-line values. */
  lemma SelectFromEnv(host: string, port: nat, argHost: string, argPort: int)
    requires host != "" && host != "inference-py" && port > 0
    ensures SelectHostPort(Some(host + ":" + NatToString(port)), argHost, argPort) == Addr(host, port)
  {
    ParseAddrRoundTrip(host, port);
  }

  /** The container name gives way to the command-line host, the port is
      still taken. */
  lemma SelectContainerName(port: nat, argHost: string, argPort: int)
    requires port > 0
    ensures SelectHostPort(Some("inference-py" + ":" + NatToString(port)), argHost, argPort) == Addr(argHost, port)
  {
    ParseAddrRoundTrip("inference-py", port);
  }

  /** A port of 0 gives way to the command-line port, the host is still
      taken. */
  lemma SelectPortZero(host: string, argHost: string, argPort: int)
    requires host != "" && host != "inference-py"
    ensures SelectHostPort(Some(host + ":" + NatToString(0)), argHost, argPort) == Addr(host, argPort)
  {
    ParseAddrRoundTrip(host, 0);
  }
}
