/** The PLC4X driver address a connection is opened with:
    `protocol://host:port[/resourcePath]`, built from the adapter configuration. */
module Plc4xAddress {
  import opened Common

  /** The part of the adapter configuration the connection reads. Java's nullable
      `String` host and resource path are options; the port is a Java `int`. */
  datatype AdapterConfig = AdapterConfig(host: Option<string>, port: int, resourcePath: Option<string>)

  /** `validConfiguration`: resource path and host are present and the port lies strictly
      between 0 and the 16-bit maximum, which is a parameter here. */
  predicate ValidConfiguration(config: AdapterConfig, maxUint16: int)
  {
    config.resourcePath.Some? && config.host.Some? && 0 < config.port < maxUint16
  }

  // ---------------------------------------------------------------------------
  // String.trim()

  /** The characters Java's `String.trim()` strips: every code point up to U+0020. */
  predicate IsTrimmable(c: char)
  {
    c <= ' '
  }

  /** A string that `trim()` turns into "" (empty or whitespace only). */
  predicate IsBlank(s: string)
  {
    forall i :: 0 <= i < |s| ==> IsTrimmable(s[i])
  }

  function TrimStart(s: string): (r: string)
    ensures |r| <= |s| && r == s[|s| - |r|..]
    ensures r == [] || !IsTrimmable(r[0])
    ensures IsBlank(s[..|s| - |r|])
  {
    if s != [] && IsTrimmable(s[0]) then TrimStart(s[1..]) else s
  }

  function TrimEnd(s: string): (r: string)
    ensures |r| <= |s| && r == s[..|r|]
    ensures r == [] || !IsTrimmable(r[|r| - 1])
    ensures IsBlank(s[|r|..])
  {
    if s != [] && IsTrimmable(s[|s| - 1]) then TrimEnd(s[..|s| - 1]) else s
  }

  /** Trimming is empty exactly when every character is trimmable. */
  lemma TrimEmptyIffBlank(s: string)
    ensures TrimEnd(TrimStart(s)) == [] <==> IsBlank(s)
  {
    var t := TrimStart(s);
    var k := |s| - |t|;
    if TrimEnd(t) == [] {
      assert t[0..] == t;
      assert s[..k] == s;
    } else {
      assert s[k] == t[0];
    }
  }

  lemma SliceOfSuffix(s: string, a: nat, k: nat)
    requires a + k <= |s|
    ensures s[a..][..k] == s[a..a + k] && s[a..][k..] == s[a + k..]
  {
  }

  /** `r` is the part of `s` between a blank prefix and a blank suffix. */
  predicate BetweenBlanks(r: string, s: string)
  {
    exists a, b :: 0 <= a <= b <= |s| && r == s[a..b] && IsBlank(s[..a]) && IsBlank(s[b..])
  }

  lemma InfixWitness(s: string, r: string, a: nat, b: nat)
    requires a <= b <= |s| && r == s[a..b] && IsBlank(s[..a]) && IsBlank(s[b..])
    ensures BetweenBlanks(r, s)
  {
  }

  /** What trimming keeps is the part of `s` between a blank prefix and a blank suffix. */
  lemma TrimIsInfix(s: string)
    ensures BetweenBlanks(TrimEnd(TrimStart(s)), s)
  {
    var t := TrimStart(s);
    var r := TrimEnd(t);
    SliceOfSuffix(s, |s| - |t|, |r|);
    InfixWitness(s, r, |s| - |t|, |s| - |t| + |r|);
  }

  /** What trimming keeps neither starts nor ends with a trimmable character. */
  lemma TrimEnds(s: string)
    ensures var r := TrimEnd(TrimStart(s));
      r == [] || (!IsTrimmable(r[0]) && !IsTrimmable(r[|r| - 1]))
  {
    var t := TrimStart(s);
    var r := TrimEnd(t);
    assert r == [] || r[0] == t[0];
  }

  /** Java's `String.trim()`: `s` without its leading and trailing characters up to U+0020. */
  function Trim(s: string): (r: string)
    ensures BetweenBlanks(r, s)
    ensures r == [] || (!IsTrimmable(r[0]) && !IsTrimmable(r[|r| - 1]))
    ensures r == [] <==> IsBlank(s)
  {
    TrimIsInfix(s);
    TrimEnds(s);
    TrimEmptyIffBlank(s);
    TrimEnd(TrimStart(s))
  }

  // ---------------------------------------------------------------------------
  // Integer.toString, as `String.format("%s", port)` writes the port

  predicate IsDigit(c: char)
  {
    '0' <= c <= '9'
  }

  predicate AllDigits(s: string)
  {
    forall i :: 0 <= i < |s| ==> IsDigit(s[i])
  }

  function DigitChar(d: nat): (c: char)
    requires d < 10
    ensures IsDigit(c)
  {
    ('0' as int + d) as char
  }

  function DigitValue(c: char): nat
    requires IsDigit(c)
  {
    c as int - '0' as int
  }

  /** The decimal digits of `n`, without leading zeros. */
  function NatToDecimal(n: nat): (s: string)
    ensures |s| >= 1 && AllDigits(s)
  {
    if n < 10 then [DigitChar(n)] else NatToDecimal(n / 10) + [DigitChar(n % 10)]
  }

  /** The digits carry no leading zero: zero is written "0", and any other number starts
      with a non-zero digit, as `Integer.toString` writes it. */
  lemma {:induction false} NatToDecimalCanonical(n: nat)
    ensures n == 0 ==> NatToDecimal(n) == [DigitChar(0)]
    ensures n > 0 ==> NatToDecimal(n)[0] != DigitChar(0)
  {
    if n >= 10 {
      NatToDecimalCanonical(n / 10);
      assert NatToDecimal(n)[0] == NatToDecimal(n / 10)[0];
    }
  }

  /** `Integer.toString(n)`: a minus sign before the digits of a negative number. */
  function IntToDecimal(n: int): string
  {
    if n < 0 then "-" + NatToDecimal(-n) else NatToDecimal(n)
  }

  /** The number a string of decimal digits denotes. */
  function DigitsValue(s: string): nat
    requires AllDigits(s)
  {
    if s == [] then 0 else DigitsValue(s[..|s| - 1]) * 10 + DigitValue(s[|s| - 1])
  }

  /** Reads back what `IntToDecimal` writes; anything else is not a port. */
  function ParseInt(s: string): Option<int>
  {
    if |s| >= 2 && s[0] == '-' && AllDigits(s[1..]) then Some(-(DigitsValue(s[1..]) as int))
    else if |s| >= 1 && AllDigits(s) then Some(DigitsValue(s))
    else None
  }

  lemma {:induction false} NatToDecimalValue(n: nat)
    ensures DigitsValue(NatToDecimal(n)) == n
  {
    if n >= 10 {
      var s := NatToDecimal(n);
      assert s[..|s| - 1] == NatToDecimal(n / 10);
      NatToDecimalValue(n / 10);
    }
  }

  lemma ParseSignedDigits(t: string)
    requires |t| >= 1 && AllDigits(t)
    ensures ParseInt("-" + t) == Some(-(DigitsValue(t) as int))
  {
    assert ("-" + t)[1..] == t;
  }

  lemma ParseUnsignedDigits(t: string)
    requires |t| >= 1 && AllDigits(t)
    ensures ParseInt(t) == Some(DigitsValue(t))
  {
    assert t[0] != '-';
  }

  /** The port text in an address reads back as the port. */
  lemma IntToDecimalRoundTrip(n: int)
    ensures ParseInt(IntToDecimal(n)) == Some(n)
  {
    if n < 0 {
      NatToDecimalValue(-n);
      ParseSignedDigits(NatToDecimal(-n));
    } else {
      NatToDecimalValue(n);
      ParseUnsignedDigits(NatToDecimal(n));
    }
  }


  // ---------------------------------------------------------------------------
  // createConnectionString and its inverse

  /** `createConnectionString`: the trimmed protocol, `://`, the trimmed host, `:` and the
      port, then `/` and the trimmed resource path unless that path is null or blank.
      The host must be present: the only caller builds the address after
      `validConfiguration` has accepted the configuration. */
  function ConnectionString(protocol: string, config: AdapterConfig): string
    requires config.host.Some?
  {
    if config.resourcePath.Some? && Trim(config.resourcePath.value) != "" then
      Trim(protocol) + "://" + Trim(config.host.value) + ":" + IntToDecimal(config.port)
        + "/" + Trim(config.resourcePath.value)
    else
      Trim(protocol) + "://" + Trim(config.host.value) + ":" + IntToDecimal(config.port)
  }

  /** The parts of a driver address. */
  datatype Address = Address(protocol: string, host: string, port: int, resourcePath: Option<string>)

  /** The separator between the protocol and the rest of an address. */
  const SchemeSeparator := "://"

  /** `s` has `://` at index `i`. */
  predicate SeparatorAt(s: string, i: nat)
    requires i + 3 <= |s|
  {
    s[i] == ':' && s[i + 1] == '/' && s[i + 2] == '/'
  }

  /** `s` holds no `://`. PLC4X protocols may hold a `:` themselves (`opcua:tcp`). */
  predicate NoSchemeSeparator(s: string)
  {
    forall i: nat :: i + 3 <= |s| ==> !SeparatorAt(s, i)
  }

  /** The text before and after the first `://` in `s`, if `s` has one. */
  function SplitScheme(s: string): (r: Option<(string, string)>)
    ensures r.Some? ==> NoSchemeSeparator(r.value.0) && s == r.value.0 + SchemeSeparator + r.value.1
  {
    if |s| < 3 then None
    else if SeparatorAt(s, 0) then
      assert s == [] + SchemeSeparator + s[3..];
      Some(([], s[3..]))
    else match SplitScheme(s[1..])
      case None => None
      case Some((a, b)) =>
        var c := [s[0]] + a;
        assert NoSchemeSeparator(c) by {
          forall i: nat | i + 3 <= |c|
            ensures !SeparatorAt(c, i)
          {
            if i == 0 {
              assert c[..3] == s[..3];
            } else {
              assert SeparatorAt(c, i) == SeparatorAt(a, i - 1);
            }
          }
        }
        Some((c, b))
  }

  lemma {:induction false} SplitSchemeAt(a: string, b: string)
    requires NoSchemeSeparator(a)
    ensures SplitScheme(a + SchemeSeparator + b) == Some((a, b))
  {
    var s := a + SchemeSeparator + b;
    if a == [] {
      assert SeparatorAt(s, 0) && s[3..] == b;
    } else {
      assert !SeparatorAt(s, 0) by {
        if |a| >= 3 {
          assert !SeparatorAt(a, 0);
          assert s[..3] == a[..3];
        } else if |a| == 1 {
          assert s[1] == ':';
        } else {
          assert s[2] == ':';
        }
      }
      assert s[1..] == a[1..] + SchemeSeparator + b;
      assert NoSchemeSeparator(a[1..]) by {
        forall i: nat | i + 3 <= |a[1..]|
          ensures !SeparatorAt(a[1..], i)
        {
          assert SeparatorAt(a[1..], i) == SeparatorAt(a, i + 1);
        }
      }
      SplitSchemeAt(a[1..], b);
      assert [a[0]] + a[1..] == a;
    }
  }

  /** The text before and after the last `sep` in `s`, if `s` has one. */
  function SplitLast(s: string, sep: char): (r: Option<(string, string)>)
    ensures r.None? <==> sep !in s
    ensures r.Some? ==> sep !in r.value.1 && s == r.value.0 + [sep] + r.value.1
  {
    if s == [] then None
    else if s[|s| - 1] == sep then Some((s[..|s| - 1], []))
    else match SplitLast(s[..|s| - 1], sep)
      case None =>
        assert s == s[..|s| - 1] + [s[|s| - 1]];
        None
      case Some((a, b)) => Some((a, b + [s[|s| - 1]]))
  }

  lemma {:induction false} SplitLastAt(a: string, sep: char, b: string)
    requires sep !in b
    ensures SplitLast(a + [sep] + b, sep) == Some((a, b))
    decreases |b|
  {
    var s := a + [sep] + b;
    if b == [] {
      assert s[..|s| - 1] == a;
    } else {
      var init := b[..|b| - 1];
      assert s[|s| - 1] == b[|b| - 1] != sep;
      assert s[..|s| - 1] == a + [sep] + init;
      SplitLastAt(a, sep, init);
      assert init + [b[|b| - 1]] == b;
    }
  }

  /** The text before and after the first `sep` in `s`, if `s` has one. */
  function SplitFirst(s: string, sep: char): (r: Option<(string, string)>)
    ensures r.None? <==> sep !in s
    ensures r.Some? ==> sep !in r.value.0 && s == r.value.0 + [sep] + r.value.1
  {
    if s == [] then None
    else if s[0] == sep then Some(([], s[1..]))
    else match SplitFirst(s[1..], sep)
      case None => None
      case Some((a, b)) => Some(([s[0]] + a, b))
  }

  lemma {:induction false} SplitFirstAt(a: string, sep: char, b: string)
    requires sep !in a
    ensures SplitFirst(a + [sep] + b, sep) == Some((a, b))
  {
    var s := a + [sep] + b;
    if a == [] {
      assert s[0] == sep && s[1..] == b;
    } else {
      assert s[0] == a[0] != sep;
      assert s[1..] == a[1..] + [sep] + b;
      SplitFirstAt(a[1..], sep, b);
      assert [a[0]] + a[1..] == a;
    }
  }

  /** Splits `protocol://host:port[/path]`: the protocol runs up to the first `://`; the
      path starts after the first `/` that follows; the port is the text after the last
      `:` before that, so a host may hold `:` (an IPv6 literal). */
  function ParseAddress(s: string): Option<Address>
  {
    match SplitScheme(s)
    case None => None
    case Some((protocol, rest)) => ParseAuthority(protocol, rest)
  }

  function ParseAuthority(protocol: string, s: string): Option<Address>
  {
    match SplitFirst(s, '/')
    case None => ParseHostPort(protocol, s, None)
    case Some((hostPort, path)) => ParseHostPort(protocol, hostPort, Some(path))
  }

  function ParseHostPort(protocol: string, s: string, path: Option<string>): Option<Address>
  {
    match SplitLast(s, ':')
    case None => None
    case Some((host, portText)) =>
      match ParseInt(portText)
      case None => None
      case Some(port) => Some(Address(protocol, host, port, path))
  }

  /** The port text holds neither separator it sits between. */
  lemma PortTextHasNoSeparator(n: int)
    ensures '/' !in IntToDecimal(n) && ':' !in IntToDecimal(n)
  {
    var s := IntToDecimal(n);
    if n < 0 {
      var t := NatToDecimal(-n);
      assert s == "-" + t;
      assert forall i :: 1 <= i < |s| ==> s[i] == t[i - 1];
    }
    assert forall i :: 0 <= i < |s| ==> s[i] != '/' && s[i] != ':';
  }

  /** The text after the host: `:`, the port and, when there is one, `/` and the path. */
  function PortAndPath(port: int, path: Option<string>): string
  {
    ":" + IntToDecimal(port) + (if path.Some? then "/" + path.value else "")
  }

  lemma ParseHostPortOf(protocol: string, host: string, port: int, path: Option<string>)
    ensures ParseHostPort(protocol, host + ":" + IntToDecimal(port), path)
      == Some(Address(protocol, host, port, path))
  {
    var d := IntToDecimal(port);
    PortTextHasNoSeparator(port);
    IntToDecimalRoundTrip(port);
    assert host + ":" + d == host + [':'] + d;
    SplitLastAt(host, ':', d);
  }

  lemma AuthorityConcat(host: string, d: string, path: Option<string>)
    ensures host + (":" + d + (if path.Some? then "/" + path.value else ""))
      == if path.Some? then (host + ":" + d) + ['/'] + path.value else host + ":" + d
  {
  }

  lemma SlashFreeHostPort(host: string, d: string)
    requires '/' !in host && '/' !in d
    ensures '/' !in host + ":" + d
  {
  }

  lemma ParseAuthorityOf(protocol: string, host: string, port: int, path: Option<string>)
    requires '/' !in host
    ensures ParseAuthority(protocol, host + PortAndPath(port, path))
      == Some(Address(protocol, host, port, path))
  {
    var d := IntToDecimal(port);
    var hostPort := host + ":" + d;
    PortTextHasNoSeparator(port);
    SlashFreeHostPort(host, d);
    ParseHostPortOf(protocol, host, port, path);
    AuthorityConcat(host, d, path);
    if path.Some? {
      SplitFirstAt(hostPort, '/', path.value);
    }
  }

  lemma SchemeConcat(protocol: string, host: string, tail: string)
    ensures protocol + SchemeSeparator + host + tail == protocol + SchemeSeparator + (host + tail)
  {
  }

  lemma ParseAddressOf(protocol: string, host: string, port: int, path: Option<string>)
    requires NoSchemeSeparator(protocol) && '/' !in host
    ensures ParseAddress(protocol + SchemeSeparator + host + PortAndPath(port, path))
      == Some(Address(protocol, host, port, path))
  {
    var rest := host + PortAndPath(port, path);
    SchemeConcat(protocol, host, PortAndPath(port, path));
    SplitSchemeAt(protocol, rest);
    ParseAuthorityOf(protocol, host, port, path);
  }

  /** The path segment an address carries: the trimmed resource path, unless it is null
      or blank. */
  function AddressPath(resourcePath: Option<string>): Option<string>
  {
    if resourcePath.Some? && !IsBlank(resourcePath.value) then Some(Trim(resourcePath.value)) else None
  }

  lemma AddressConcat(p: string, h: string, d: string, path: Option<string>)
    ensures (if path.Some? then p + "://" + h + ":" + d + "/" + path.value else p + "://" + h + ":" + d)
      == p + SchemeSeparator + h + (":" + d + (if path.Some? then "/" + path.value else ""))
  {
  }

  lemma ConnectionStringParts(protocol: string, config: AdapterConfig)
    requires config.host.Some?
    ensures ConnectionString(protocol, config) ==
      Trim(protocol) + SchemeSeparator + Trim(config.host.value) + PortAndPath(config.port, AddressPath(config.resourcePath))
  {
    var path := AddressPath(config.resourcePath);
    assert path.Some? <==> config.resourcePath.Some? && Trim(config.resourcePath.value) != "";
    AddressConcat(Trim(protocol), Trim(config.host.value), IntToDecimal(config.port), path);
  }

  /** The address names exactly the trimmed protocol, the trimmed host and the port, and
      carries the trimmed resource path iff the path is present and not blank: a null or
      whitespace-only path gives `protocol://host:port` with no trailing segment. The
      protocol may hold `:` (`opcua:tcp`) and the host may hold `:` (an IPv6 literal); the
      protocol must not hold `://` and the host must not hold `/`, the separators that
      follow them. */
  lemma {:induction false} ConnectionStringRoundTrip(protocol: string, config: AdapterConfig)
    requires config.host.Some?
    requires NoSchemeSeparator(Trim(protocol)) && '/' !in Trim(config.host.value)
    ensures ParseAddress(ConnectionString(protocol, config)) ==
      Some(Address(Trim(protocol), Trim(config.host.value), config.port, AddressPath(config.resourcePath)))
  {
    var path := AddressPath(config.resourcePath);
    ConnectionStringParts(protocol, config);
    ParseAddressOf(Trim(protocol), Trim(config.host.value), config.port, path);
  }

  /** A string with no character up to U+0020 at either end is its own trim. */
  lemma TrimOfTrimmed(s: string)
    requires s != [] && !IsTrimmable(s[0]) && !IsTrimmable(s[|s| - 1])
    ensures Trim(s) == s
  {
    assert TrimStart(s) == s;
  }

  lemma SlashFreeHasNoSeparator(s: string)
    requires forall i :: 0 <= i < |s| ==> s[i] != '/'
    ensures NoSchemeSeparator(s)
  {
  }

  lemma SlashFreeJoin(driver: string, transport: string)
    requires forall i :: 0 <= i < |driver| ==> driver[i] != '/'
    requires forall i :: 0 <= i < |transport| ==> transport[i] != '/'
    ensures forall i :: 0 <= i < |driver + ":" + transport| ==> (driver + ":" + transport)[i] != '/'
  {
  }

  /** `driver:transport` with neither part holding `/` or blank at its outer end is its
      own trim and holds no `://`. */
  lemma TransportProtocolShape(driver: string, transport: string)
    requires driver != [] && transport != [] && !IsTrimmable(driver[0]) && !IsTrimmable(transport[|transport| - 1])
    requires forall i :: 0 <= i < |driver| ==> driver[i] != '/'
    requires forall i :: 0 <= i < |transport| ==> transport[i] != '/'
    ensures Trim(driver + ":" + transport) == driver + ":" + transport
    ensures NoSchemeSeparator(driver + ":" + transport)
  {
    var protocol := driver + ":" + transport;
    assert protocol[0] == driver[0] && protocol[|protocol| - 1] == transport[|transport| - 1];
    TrimOfTrimmed(protocol);
    SlashFreeJoin(driver, transport);
    SlashFreeHasNoSeparator(protocol);
  }

  /** A protocol naming a driver and its transport after a `:`, as `opcua:tcp` does,
      reads back whole. */
  lemma TransportProtocolRoundTrip(driver: string, transport: string, config: AdapterConfig)
    requires driver != [] && transport != [] && !IsTrimmable(driver[0]) && !IsTrimmable(transport[|transport| - 1])
    requires forall i :: 0 <= i < |driver| ==> driver[i] != '/'
    requires forall i :: 0 <= i < |transport| ==> transport[i] != '/'
    requires config.host.Some? && '/' !in Trim(config.host.value)
    ensures ParseAddress(ConnectionString(driver + ":" + transport, config)) ==
      Some(Address(driver + ":" + transport, Trim(config.host.value), config.port, AddressPath(config.resourcePath)))
  {
    TransportProtocolShape(driver, transport);
    ConnectionStringRoundTrip(driver + ":" + transport, config);
  }
}
