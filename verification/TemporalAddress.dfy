/** The `host:port` parser of the Temporal supervisor: exactly which texts it accepts, and as what. */
module TemporalAddress {
  import opened Wrappers
  import opened Strings
  import opened Loopback

  datatype HostPort = HostPort(host: string, port: string)

  /** One to five digits worth 1 to 65535. */
  predicate IsNumericPort(port: string) { 1 <= |port| <= 5 && AllDigits(port) && 1 <= DecimalOf(port) <= 65535 }

  function ParseHostPort(address: string): Option<HostPort> {
    var a := Trim(address);
    if "[" <= a then
      var close := IndexOfAny(a, "]");
      if close == |a| || close == |a| - 1 || a[close + 1] != ':' then None
      else Accepted(a[1..close], a[close + 2..])
    else
      var after := AfterLast(a, ':');
      if after <= 1 then None else Accepted(a[..after - 1], a[after..])
  }

  function Accepted(host: string, port: string): Option<HostPort> {
    if host != "" && IsNumericPort(port) then Some(HostPort(ToLower(host), port)) else None
  }

  /** An address as written: `[host]:port`, or `host:port` when the host does not begin with a bracket. */
  function Written(bracketed: bool, host: string, port: string): string {
    if bracketed then "[" + host + "]:" + port else host + ":" + port
  }

  predicate IsWritten(bracketed: bool, host: string, port: string) {
    host != "" && IsNumericPort(port) && if bracketed then ']' !in host else host[0] != '['
  }

  lemma BracketedReadsBack(host: string, port: string, a: string)
    requires IsWritten(true, host, port) && a == Written(true, host, port) && Trim(a) == a
    ensures ParseHostPort(a) == Some(HostPort(ToLower(host), port))
  {
    assert a == ("[" + host) + ("]:" + port);
    FirstOf("[" + host, "]:" + port, "]");
    assert a[1..|host| + 1] == host && a[|host| + 3..] == port;
  }

  lemma PlainReadsBack(host: string, port: string, a: string)
    requires IsWritten(false, host, port) && a == Written(false, host, port) && Trim(a) == a
    ensures ParseHostPort(a) == Some(HostPort(ToLower(host), port))
  {
    assert a[0] == host[0];
    assert ':' !in port;
    LastOf(host, port, ':');
    assert a == host + [':'] + port;
    assert a[..|host|] == host && a[|host| + 1..] == port;
  }

  /** What is accepted was written in one of the two forms. */
  lemma AcceptedWasWritten(a: string) returns (bracketed: bool, host: string)
    requires Trim(a) == a && ParseHostPort(a).Some?
    ensures IsWritten(bracketed, host, ParseHostPort(a).value.port)
    ensures a == Written(bracketed, host, ParseHostPort(a).value.port)
  {
    bracketed := "[" <= a;
    if bracketed {
      var close := IndexOfAny(a, "]");
      host := a[1..close];
      assert forall k :: 0 <= k < |host| ==> host[k] == a[k + 1];
      assert a == "[" + host + "]:" + a[close + 2..];
    } else {
      var after := AfterLast(a, ':');
      host := a[..after - 1];
      assert a == host + ":" + a[after..];
      assert host[0] == a[0];
    }
  }

  /** `address` reads, trimmed, as `host` and `port` in one of the two forms. */
  predicate Spells(address: string, bracketed: bool, host: string, port: string) {
    IsWritten(bracketed, host, port) && Trim(address) == Written(bracketed, host, port)
  }

  lemma ParsedIsSpelled(address: string) returns (bracketed: bool, host: string)
    requires ParseHostPort(address).Some?
    ensures Spells(address, bracketed, host, ParseHostPort(address).value.port)
    ensures ParseHostPort(address).value.host == ToLower(host)
  {
    TrimTwice(address);
    bracketed, host := AcceptedWasWritten(Trim(address));
    ReadsBack(bracketed, host, ParseHostPort(address).value.port, Trim(address));
  }

  lemma SpelledIsParsed(address: string, bracketed: bool, host: string, port: string)
    requires Spells(address, bracketed, host, port)
    ensures ParseHostPort(address) == Some(HostPort(ToLower(host), port))
  {
    TrimTwice(address);
    ReadsBack(bracketed, host, port, Trim(address));
  }

  /** The parser accepts exactly the written addresses, and reads back the host, lower-cased, and the port. */
  lemma ParsesExactlyTheWritten(address: string, parsed: HostPort)
    ensures ParseHostPort(address) == Some(parsed) <==>
      exists bracketed, host :: Spells(address, bracketed, host, parsed.port) && parsed.host == ToLower(host)
  {
    if ParseHostPort(address) == Some(parsed) {
      var bracketed, host := ParsedIsSpelled(address);
    }
    if bracketed, host :| Spells(address, bracketed, host, parsed.port) && parsed.host == ToLower(host) {
      SpelledIsParsed(address, bracketed, host, parsed.port);
    }
  }

  lemma ReadsBack(bracketed: bool, host: string, port: string, a: string)
    requires IsWritten(bracketed, host, port) && a == Written(bracketed, host, port) && Trim(a) == a
    ensures ParseHostPort(a) == Some(HostPort(ToLower(host), port))
  {
    if bracketed { BracketedReadsBack(host, port, a); } else { PlainReadsBack(host, port, a); }
  }

  /** The gate `start()` passes before it spawns anything. */
  predicate IsLoopbackAddress(address: string) {
    ParseHostPort(address).Some? && IsLoopbackHost(ParseHostPort(address).value.host)
  }

  /** The gate opens exactly for a written address whose host is this machine. */
  lemma GateOpensExactly(address: string)
    ensures IsLoopbackAddress(address) <==>
      exists bracketed, host, port :: Spells(address, bracketed, host, port) && IsLoopbackHost(ToLower(host))
  {
    if IsLoopbackAddress(address) {
      var bracketed, host := ParsedIsSpelled(address);
    }
    if bracketed, host, port :| Spells(address, bracketed, host, port) && IsLoopbackHost(ToLower(host)) {
      SpelledIsParsed(address, bracketed, host, port);
    }
  }
}
