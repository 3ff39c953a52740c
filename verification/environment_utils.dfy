/** The string encoders of the edge environment utilities: `toHex` (the UTF-8 bytes of a
    string as one unsigned big-endian number in lowercase hex, at least 40 digits wide)
    and the MAC address of the first network interface that has one, as uppercase hex
    pairs joined with '-'. The network interface enumeration is an input. */
module EnvironmentUtils {
  import opened Common

  // ---------------------------------------------------------------------------
  // UTF-8, as RFC 3629 defines it (`String.getBytes(StandardCharsets.UTF_8)`)

  /** The unsigned byte values RFC 3629 writes for one code point. */
  function EncodeCodePoint(cp: nat): (u: seq<nat>)
    requires cp <= 0x10FFFF
    ensures 1 <= |u| <= 4
    ensures forall i :: 0 <= i < |u| ==> u[i] < 256
  {
    if cp < 0x80 then [cp]
    else if cp < 0x800 then [0xC0 + cp / 64, 0x80 + cp % 64]
    else if cp < 0x10000 then [0xE0 + cp / 4096, 0x80 + (cp / 64) % 64, 0x80 + cp % 64]
    else [0xF0 + cp / 262144, 0x80 + (cp / 4096) % 64, 0x80 + (cp / 64) % 64, 0x80 + cp % 64]
  }

  /** The UTF-8 bytes of one character, as Java stores them (signed). */
  function Utf8Char(c: char): (b: Bytes)
    ensures 1 <= |b| <= 4
  {
    var u := EncodeCodePoint(c as int);
    seq(|u|, i requires 0 <= i < |u| => FromUnsigned(u[i]))
  }

  /** The UTF-8 bytes of a string. Dafny strings hold Unicode scalar values, so the
      unpaired surrogates a Java string may hold do not arise. */
  function Utf8Encode(s: string): (b: Bytes)
    ensures |s| <= |b| <= 4 * |s|
  {
    if s == [] then [] else Utf8Char(s[0]) + Utf8Encode(s[1..])
  }

  /** The length of the sequence a lead byte starts, or 0 if it cannot start one. */
  function SequenceLength(lead: nat): nat
  {
    if lead < 0x80 then 1
    else if lead < 0xC2 then 0
    else if lead < 0xE0 then 2
    else if lead < 0xF0 then 3
    else if lead < 0xF5 then 4
    else 0
  }

  predicate IsContinuation(b: JavaByte)
  {
    0x80 <= Unsigned(b) < 0xC0
  }

  /** The range RFC 3629 allows for the byte after a lead byte. It is narrower after E0,
      ED, F0 and F4, which rules out overlong forms, surrogates and values past U+10FFFF. */
  predicate SecondByteInRange(lead: nat, second: nat)
  {
    if lead == 0xE0 then 0xA0 <= second < 0xC0
    else if lead == 0xED then 0x80 <= second < 0xA0
    else if lead == 0xF0 then 0x90 <= second < 0xC0
    else if lead == 0xF4 then 0x80 <= second < 0x90
    else 0x80 <= second < 0xC0
  }

  /** The code point of one well-formed sequence. */
  function DecodeSequence(b: Bytes): int
    requires 1 <= |b| <= 4
  {
    if |b| == 1 then Unsigned(b[0])
    else if |b| == 2 then (Unsigned(b[0]) - 0xC0) * 64 + (Unsigned(b[1]) - 0x80)
    else if |b| == 3 then
      (Unsigned(b[0]) - 0xE0) * 4096 + (Unsigned(b[1]) - 0x80) * 64 + (Unsigned(b[2]) - 0x80)
    else
      (Unsigned(b[0]) - 0xF0) * 262144 + (Unsigned(b[1]) - 0x80) * 4096
        + (Unsigned(b[2]) - 0x80) * 64 + (Unsigned(b[3]) - 0x80)
  }

  /** Decodes UTF-8 into code points; None on a bad lead byte, a missing or bad
      continuation byte, or a second byte outside the range its lead byte allows. */
  function Utf8Decode(b: Bytes): Option<seq<int>>
    decreases |b|
  {
    if b == [] then Some([])
    else
      var n := SequenceLength(Unsigned(b[0]));
      if n == 0 || n > |b| || !(forall i :: 1 <= i < n ==> IsContinuation(b[i]))
         || (n >= 2 && !SecondByteInRange(Unsigned(b[0]), Unsigned(b[1]))) then None
      else match Utf8Decode(b[n..])
        case None => None
        case Some(rest) => Some([DecodeSequence(b[..n])] + rest)
  }

  /** The code points of a string. */
  function CodePoints(s: string): (cps: seq<int>)
    ensures |cps| == |s|
  {
    seq(|s|, i requires 0 <= i < |s| => s[i] as int)
  }

  lemma Utf8CharDecodes(c: char)
    ensures var b := Utf8Char(c);
      && SequenceLength(Unsigned(b[0])) == |b|
      && (forall i :: 1 <= i < |b| ==> IsContinuation(b[i]))
      && DecodeSequence(b) == c as int
  {
    var cp := c as int;
    var b := Utf8Char(c);
    var u := EncodeCodePoint(cp);
    assert forall i :: 0 <= i < |b| ==> Unsigned(b[i]) == u[i];
    var q := cp / 64;
    assert cp == q * 64 + cp % 64;
    if cp >= 0x800 {
      assert q == (q / 64) * 64 + q % 64;
      assert cp / 4096 == q / 64;
      if cp >= 0x10000 {
        var q2 := q / 64;
        assert q2 == (q2 / 64) * 64 + q2 % 64;
        assert cp / 262144 == q2 / 64;
        assert cp <= 0x10FFFF;
      }
    }
  }

  /** The encoder writes the shortest form: its second byte lies in the range the lead
      byte allows. */
  lemma Utf8CharSecondByte(c: char)
    ensures var b := Utf8Char(c);
      |b| >= 2 ==> SecondByteInRange(Unsigned(b[0]), Unsigned(b[1]))
  {
    var cp := c as int;
    var b := Utf8Char(c);
    var u := EncodeCodePoint(cp);
    assert forall i :: 0 <= i < |b| ==> Unsigned(b[i]) == u[i];
    if 0x800 <= cp < 0x10000 {
      assert cp < 0xD800 || cp >= 0xE000;
      if cp < 0x1000 {
        assert cp / 64 >= 32 && (cp / 64) % 64 == cp / 64;
      } else if 0xD000 <= cp < 0xD800 {
        assert cp / 4096 == 13 && cp / 64 < 0x360 && (cp / 64) % 64 == cp / 64 - 832;
      } else {
        assert u[0] != 0xE0 && u[0] != 0xED;
      }
    } else if cp >= 0x10000 {
      if cp < 0x40000 {
        assert cp / 4096 >= 16 && (cp / 4096) % 64 == cp / 4096;
      } else if cp >= 0x100000 {
        assert cp / 4096 <= 271 && (cp / 4096) % 64 == cp / 4096 - 256;
      } else {
        assert u[0] != 0xF0 && u[0] != 0xF4;
      }
    }
  }

  /** A well-formed sequence in front of bytes that decode puts its code point in front. */
  lemma DecodeStep(head: Bytes, rest: Bytes, cps: seq<int>)
    requires 1 <= |head| <= 4 && SequenceLength(Unsigned(head[0])) == |head|
    requires forall i :: 1 <= i < |head| ==> IsContinuation(head[i])
    requires |head| >= 2 ==> SecondByteInRange(Unsigned(head[0]), Unsigned(head[1]))
    requires Utf8Decode(rest) == Some(cps)
    ensures Utf8Decode(head + rest) == Some([DecodeSequence(head)] + cps)
  {
    var b := head + rest;
    assert b[0] == head[0];
    assert forall i :: 1 <= i < |head| ==> b[i] == head[i];
    assert b[..|head|] == head && b[|head|..] == rest;
  }

  lemma CodePointsCons(s: string)
    requires s != []
    ensures CodePoints(s) == [s[0] as int] + CodePoints(s[1..])
  {
  }

  /** Decoding the UTF-8 bytes of a string gives back its code points. */
  lemma {:induction false} Utf8RoundTrip(s: string)
    ensures Utf8Decode(Utf8Encode(s)) == Some(CodePoints(s))
  {
    if s != [] {
      Utf8CharDecodes(s[0]);
      Utf8CharSecondByte(s[0]);
      Utf8RoundTrip(s[1..]);
      DecodeStep(Utf8Char(s[0]), Utf8Encode(s[1..]), CodePoints(s[1..]));
      CodePointsCons(s);
    }
  }

  /** ASCII text is its own encoding, one byte per character. */
  lemma {:induction false} Utf8Ascii(s: string)
    requires forall i :: 0 <= i < |s| ==> s[i] as int < 0x80
    ensures |Utf8Encode(s)| == |s|
    ensures forall i :: 0 <= i < |s| ==> Unsigned(Utf8Encode(s)[i]) == s[i] as int
  {
    if s != [] {
      Utf8Ascii(s[1..]);
      assert Utf8Encode(s) == Utf8Char(s[0]) + Utf8Encode(s[1..]);
    }
  }

  /** An overlong form, such as E0 81 81 for 'A', is not UTF-8. */
  lemma OverlongFormRejected()
    ensures Utf8Decode([FromUnsigned(0xE0), FromUnsigned(0x81), FromUnsigned(0x81)]) == None
  {
    var b := [FromUnsigned(0xE0), FromUnsigned(0x81), FromUnsigned(0x81)];
    assert SequenceLength(Unsigned(b[0])) == 3 && !SecondByteInRange(Unsigned(b[0]), Unsigned(b[1]));
  }

  // ---------------------------------------------------------------------------
  // Hex digits

  predicate IsLowerHexDigit(c: char)
  {
    '0' <= c <= '9' || 'a' <= c <= 'f'
  }

  predicate IsUpperHexDigit(c: char)
  {
    '0' <= c <= '9' || 'A' <= c <= 'F'
  }

  predicate IsHexDigit(c: char)
  {
    IsLowerHexDigit(c) || IsUpperHexDigit(c)
  }

  predicate AllHex(s: string)
  {
    forall i :: 0 <= i < |s| ==> IsHexDigit(s[i])
  }

  function HexDigitValue(c: char): nat
    requires IsHexDigit(c)
  {
    if c <= '9' then c as int - '0' as int
    else if c <= 'F' then c as int - 'A' as int + 10
    else c as int - 'a' as int + 10
  }

  function LowerHexDigit(d: nat): (c: char)
    requires d < 16
    ensures IsLowerHexDigit(c) && HexDigitValue(c) == d
  {
    if d < 10 then ('0' as int + d) as char else ('a' as int + d - 10) as char
  }

  function UpperHexDigit(d: nat): (c: char)
    requires d < 16
    ensures IsUpperHexDigit(c) && HexDigitValue(c) == d
  {
    if d < 10 then ('0' as int + d) as char else ('A' as int + d - 10) as char
  }

  /** The number a string of hex digits denotes, most significant first. */
  function HexValue(s: string): nat
    requires AllHex(s)
  {
    if s == [] then 0 else HexValue(s[..|s| - 1]) * 16 + HexDigitValue(s[|s| - 1])
  }

  /** `BigInteger.toString(16)` of a non-negative number: lowercase digits, no leading
      zero ("0" for zero). */
  function HexDigits(n: nat): (s: string)
    ensures |s| >= 1
    ensures forall i :: 0 <= i < |s| ==> IsLowerHexDigit(s[i])
    ensures HexValue(s) == n
    ensures n > 0 ==> s[0] != '0'
  {
    if n < 16 then [LowerHexDigit(n)]
    else
      var s := HexDigits(n / 16) + [LowerHexDigit(n % 16)];
      assert s[..|s| - 1] == HexDigits(n / 16);
      s
  }

  function Zeros(k: nat): (z: string)
    ensures |z| == k && forall i :: 0 <= i < k ==> z[i] == '0'
  {
    seq(k, _ => '0')
  }

  lemma {:induction false} LeadingZerosValue(k: nat, s: string)
    requires AllHex(s)
    ensures AllHex(Zeros(k) + s) && HexValue(Zeros(k) + s) == HexValue(s)
    decreases |s|
  {
    var t := Zeros(k) + s;
    assert AllHex(t);
    if s == [] {
      assert t == Zeros(k);
      ZerosValue(k);
    } else {
      assert t[..|t| - 1] == Zeros(k) + s[..|s| - 1];
      LeadingZerosValue(k, s[..|s| - 1]);
    }
  }

  lemma {:induction false} ZerosValue(k: nat)
    ensures AllHex(Zeros(k)) && HexValue(Zeros(k)) == 0
  {
    if k > 0 {
      assert Zeros(k)[..k - 1] == Zeros(k - 1);
      ZerosValue(k - 1);
    }
  }

  // ---------------------------------------------------------------------------
  // toHex

  /** `new BigInteger(1, bytes)`: the bytes as one unsigned big-endian number. */
  function BigEndianValue(bytes: Bytes): (v: nat)
    ensures v < Pow(256, |bytes|)
  {
    if bytes == [] then 0
    else
      var init := bytes[..|bytes| - 1];
      var v, p := BigEndianValue(init), Pow(256, |init|);
      assert v + 1 <= p;
      assert v * 256 + 256 <= p * 256;
      v * 256 + Unsigned(bytes[|bytes| - 1])
  }

  lemma Regroup(u: nat, p: nat, x: nat, last: nat)
    ensures (u * p + x) * 256 + last == u * (256 * p) + (x * 256 + last)
  {
  }

  /** The first byte is the most significant: it weighs 256 to the power of the number
      of bytes after it. */
  lemma {:induction false} BigEndianLeadingByte(bytes: Bytes)
    requires bytes != []
    ensures BigEndianValue(bytes) == Unsigned(bytes[0]) * Pow(256, |bytes| - 1) + BigEndianValue(bytes[1..])
    decreases |bytes|
  {
    if |bytes| > 1 {
      var init, tail := bytes[..|bytes| - 1], bytes[1..];
      BigEndianLeadingByte(init);
      assert init[0] == bytes[0];
      assert tail[..|tail| - 1] == init[1..] && tail[|tail| - 1] == bytes[|bytes| - 1];
      assert BigEndianValue(tail) == BigEndianValue(init[1..]) * 256 + Unsigned(bytes[|bytes| - 1]);
      assert Pow(256, |bytes| - 1) == 256 * Pow(256, |init| - 1);
      Regroup(Unsigned(bytes[0]), Pow(256, |init| - 1), BigEndianValue(init[1..]), Unsigned(bytes[|bytes| - 1]));
    } else {
      assert bytes[1..] == [] && bytes[..0] == [];
    }
  }

  /** `String.format("%040x", new BigInteger(1, bytes))`: the number in lowercase hex,
      left-padded with '0' to at least 40 digits. */
  function ToHex(bytes: Bytes): (r: string)
    ensures var digits := HexDigits(BigEndianValue(bytes));
      |r| == if |digits| < 40 then 40 else |digits|
    ensures forall i :: 0 <= i < |r| ==> IsLowerHexDigit(r[i])
    ensures AllHex(r) && HexValue(r) == BigEndianValue(bytes)
  {
    var digits := HexDigits(BigEndianValue(bytes));
    if |digits| < 40 then
      LeadingZerosValue(40 - |digits|, digits);
      Zeros(40 - |digits|) + digits
    else digits
  }

  /** `toHex(str)`: the hex of the UTF-8 bytes of `str`. */
  function StringToHex(str: string): (r: string)
    ensures |r| >= 40
    ensures forall i :: 0 <= i < |r| ==> IsLowerHexDigit(r[i])
    ensures AllHex(r) && HexValue(r) == BigEndianValue(Utf8Encode(str))
  {
    ToHex(Utf8Encode(str))
  }

  lemma {:induction false} LeadingZeroByteValue(bytes: Bytes)
    ensures BigEndianValue([0 as JavaByte] + bytes) == BigEndianValue(bytes)
    decreases |bytes|
  {
    var b := [0 as JavaByte] + bytes;
    if bytes != [] {
      assert b[..|b| - 1] == [0 as JavaByte] + bytes[..|bytes| - 1];
      LeadingZeroByteValue(bytes[..|bytes| - 1]);
    }
  }

  function ZeroBytes(k: nat): (z: Bytes)
    ensures |z| == k && forall i :: 0 <= i < k ==> z[i] == 0
  {
    if k == 0 then [] else [0 as JavaByte] + ZeroBytes(k - 1)
  }

  lemma {:induction false} ZeroBytesValue(k: nat, bytes: Bytes)
    ensures BigEndianValue(ZeroBytes(k) + bytes) == BigEndianValue(bytes)
  {
    if k == 0 {
      assert ZeroBytes(k) + bytes == bytes;
    } else {
      var rest := ZeroBytes(k - 1) + bytes;
      assert ZeroBytes(k) + bytes == [0 as JavaByte] + rest;
      LeadingZeroByteValue(rest);
      ZeroBytesValue(k - 1, bytes);
    }
  }

  /** Leading zero bytes do not change the output: only the number matters. */
  lemma ToHexIgnoresLeadingZeroBytes(k: nat, bytes: Bytes)
    ensures ToHex(ZeroBytes(k) + bytes) == ToHex(bytes)
  {
    ZeroBytesValue(k, bytes);
  }

  /** The empty string gives forty '0's. */
  lemma ToHexOfEmpty()
    ensures StringToHex("") == Zeros(40)
  {
    assert HexDigits(0) == "0";
    assert Zeros(39) + "0" == Zeros(40);
  }

  function Pow(base: nat, k: nat): nat
  {
    if k == 0 then 1 else base * Pow(base, k - 1)
  }

  lemma {:induction false} PowSquare(k: nat)
    ensures Pow(256, k) == Pow(16, 2 * k)
  {
    if k > 0 {
      PowSquare(k - 1);
      assert Pow(16, 2 * k) == 16 * (16 * Pow(16, 2 * k - 2));
    }
  }

  lemma PowStep(base: nat, k: nat)
    requires 1 <= base && 1 <= k
    ensures Pow(base, k - 1) <= Pow(base, k)
  {
    assert Pow(base, k) == base * Pow(base, k - 1);
  }

  lemma {:induction false} PowMonotone(base: nat, j: nat, k: nat)
    requires 1 <= base && j <= k
    ensures Pow(base, j) <= Pow(base, k)
    decreases k
  {
    if j < k {
      PowMonotone(base, j, k - 1);
      PowStep(base, k);
    }
  }

  lemma {:induction false} HexDigitsFit(n: nat, k: nat)
    requires 1 <= k && n < Pow(16, k)
    ensures |HexDigits(n)| <= k
    decreases k
  {
    if n >= 16 {
      assert n / 16 < Pow(16, k - 1);
      HexDigitsFit(n / 16, k - 1);
    }
  }

  /** Up to 20 bytes (a SHA-1 digest, say) always give exactly 40 digits. */
  lemma ToHexWidth(bytes: Bytes)
    requires |bytes| <= 20
    ensures |ToHex(bytes)| == 40
  {
    PowMonotone(256, |bytes|, 20);
    PowSquare(20);
    HexDigitsFit(BigEndianValue(bytes), 40);
  }

  // ---------------------------------------------------------------------------
  // MAC address formatting

  /** `String.format("%02X", b)` of a Java byte: two uppercase hex digits of its
      unsigned value. */
  function HexPair(b: JavaByte): (s: string)
    ensures |s| == 2 && IsUpperHexDigit(s[0]) && IsUpperHexDigit(s[1])
    ensures AllHex(s) && HexValue(s) == Unsigned(b)
  {
    var u := Unsigned(b);
    var s := [UpperHexDigit(u / 16), UpperHexDigit(u % 16)];
    assert s[..1] == [s[0]] && s[..1][..0] == [];
    assert HexValue(s[..1]) == u / 16;
    assert HexValue(s) == (u / 16) * 16 + u % 16;
    s
  }

  /** What one pass of the formatting loop appends: the pair for byte `i`, then '-'
      unless it is the last byte. */
  function MacGroup(mac: Bytes, i: nat): string
    requires i < |mac|
  {
    HexPair(mac[i]) + (if i < |mac| - 1 then "-" else "")
  }

  /** The text after the first `k` passes of the loop. */
  function MacPrefix(mac: Bytes, k: nat): string
    requires k <= |mac|
  {
    if k == 0 then "" else MacPrefix(mac, k - 1) + MacGroup(mac, k - 1)
  }

  /** The formatted hardware address. */
  function MacString(mac: Bytes): string
  {
    MacPrefix(mac, |mac|)
  }

  lemma {:induction false} MacPrefixLength(mac: Bytes, k: nat)
    requires k <= |mac|
    ensures |MacPrefix(mac, k)| == if k < |mac| || k == 0 then 3 * k else 3 * k - 1
  {
    if k > 0 {
      MacPrefixLength(mac, k - 1);
    }
  }

  lemma {:induction false} MacPrefixExtends(mac: Bytes, i: nat, j: nat)
    requires i <= j <= |mac|
    ensures |MacPrefix(mac, i)| <= |MacPrefix(mac, j)|
    ensures MacPrefix(mac, j)[..|MacPrefix(mac, i)|] == MacPrefix(mac, i)
    decreases j
  {
    if i < j {
      MacPrefixExtends(mac, i, j - 1);
    }
  }

  /** n >= 1 bytes give 3n - 1 characters, no bytes give "". */
  lemma MacStringLength(mac: Bytes)
    ensures |MacString(mac)| == if mac == [] then 0 else 3 * |mac| - 1
  {
    MacPrefixLength(mac, |mac|);
  }

  /** Byte i sits at 3i as two uppercase hex digits of its unsigned value, followed by
      '-' unless it is the last byte. */
  lemma MacStringAt(mac: Bytes, i: nat)
    requires i < |mac|
    ensures |MacString(mac)| >= 3 * i + 2
    ensures MacString(mac)[3 * i .. 3 * i + 2] == HexPair(mac[i])
    ensures HexValue(MacString(mac)[3 * i .. 3 * i + 2]) == Unsigned(mac[i])
    ensures i < |mac| - 1 ==> |MacString(mac)| > 3 * i + 2 && MacString(mac)[3 * i + 2] == '-'
  {
    MacPrefixLength(mac, i);
    MacPrefixLength(mac, |mac|);
    MacPrefixExtends(mac, i + 1, |mac|);
    var p := MacPrefix(mac, i + 1);
    assert p == MacPrefix(mac, i) + MacGroup(mac, i);
    assert p[3 * i .. 3 * i + 2] == HexPair(mac[i]);
    assert MacString(mac)[..|p|] == p;
    assert MacString(mac)[3 * i .. 3 * i + 2] == p[3 * i .. 3 * i + 2];
    if i < |mac| - 1 {
      assert p[3 * i + 2] == '-';
      assert MacString(mac)[3 * i + 2] == p[3 * i + 2];
    }
  }

  /** The `for` loop of `getLocalhostMacAddress` over one hardware address. */
  method FormatMac(mac: Bytes) returns (s: string)
    ensures s == MacString(mac)
  {
    s := "";
    for i := 0 to |mac|
      invariant s == MacPrefix(mac, i)
    {
      s := s + HexPair(mac[i]) + (if i < |mac| - 1 then "-" else "");
    }
  }

  // ---------------------------------------------------------------------------
  // getLocalhostMacAddress

  /** What `getHardwareAddress()` does for one interface: returns null, returns an
      address, or throws. */
  datatype NetworkInterface = NoHardwareAddress | HardwareAddress(mac: Bytes) | AddressLookupFails

  const UnknownAddress := "<unknown>"

  /** The result for the interfaces from this one on. */
  function FirstMacAddress(interfaces: seq<NetworkInterface>): string
  {
    if interfaces == [] then UnknownAddress
    else match interfaces[0]
      case NoHardwareAddress => FirstMacAddress(interfaces[1..])
      case AddressLookupFails => UnknownAddress
      case HardwareAddress(mac) => MacString(mac)
  }

  /** `getLocalhostMacAddress()`, where None stands for an enumeration that throws. */
  function LocalhostMacAddress(interfaces: Option<seq<NetworkInterface>>): string
  {
    if interfaces.None? then UnknownAddress else FirstMacAddress(interfaces.value)
  }

  /** The first interface with a hardware address decides the result, even when that
      address has no bytes. */
  lemma {:induction false} FirstHardwareAddressWins(interfaces: seq<NetworkInterface>, i: nat)
    requires i < |interfaces| && interfaces[i].HardwareAddress?
    requires forall j :: 0 <= j < i ==> interfaces[j].NoHardwareAddress?
    ensures FirstMacAddress(interfaces) == MacString(interfaces[i].mac)
    ensures interfaces[i].mac == [] ==> FirstMacAddress(interfaces) == ""
  {
    if i > 0 {
      FirstHardwareAddressWins(interfaces[1..], i - 1);
    }
  }

  /** With no hardware address before the end (or before a lookup that throws), the
      result is "<unknown>". */
  lemma {:induction false} NoHardwareAddressIsUnknown(interfaces: seq<NetworkInterface>, i: nat)
    requires i <= |interfaces|
    requires i < |interfaces| ==> interfaces[i].AddressLookupFails?
    requires forall j :: 0 <= j < i ==> interfaces[j].NoHardwareAddress?
    ensures FirstMacAddress(interfaces) == UnknownAddress
  {
    if i > 0 {
      NoHardwareAddressIsUnknown(interfaces[1..], i - 1);
    }
  }

  /** `getLocalhostMacAddress`: walks the interfaces and formats the first hardware
      address found; an exception anywhere gives "<unknown>". */
  method GetLocalhostMacAddress(interfaces: Option<seq<NetworkInterface>>) returns (address: string)
    ensures address == LocalhostMacAddress(interfaces)
  {
    if interfaces.None? {
      return UnknownAddress;
    }
    var all := interfaces.value;
    var i := 0;
    while i < |all|
      invariant 0 <= i <= |all|
      invariant FirstMacAddress(all) == FirstMacAddress(all[i..])
    {
      assert all[i..][1..] == all[i + 1..];
      match all[i]
      case AddressLookupFails =>
        return UnknownAddress;
      case HardwareAddress(mac) =>
        address := FormatMac(mac);
        return;
      case NoHardwareAddress =>
        i := i + 1;
    }
    address := UnknownAddress;
  }

  /** `generateInstallationToken`: the localhost MAC address. */
  method GenerateInstallationToken(interfaces: Option<seq<NetworkInterface>>) returns (token: string)
    ensures token == LocalhostMacAddress(interfaces)
  {
    token := GetLocalhostMacAddress(interfaces);
  }
}
