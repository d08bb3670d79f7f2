/**
  Fixed-width integers, IP addresses and the decimal text that the rest of the
  model formats and parses (Rust's `u16`, `u32`, `i32`, `std::net::IpAddr`,
  `format!("{}", n)` and `str::parse::<u16>`).
 */
module Net {
  import opened Wrappers

  type u8 = x: int | 0 <= x < 0x100
  type u16 = x: int | 0 <= x < 0x1_0000
  type i32 = x: int | -0x8000_0000 <= x < 0x8000_0000
  type u32 = x: int | 0 <= x < 0x1_0000_0000
  type u128 = x: int | 0 <= x < 0x1_0000_0000_0000_0000_0000_0000_0000_0000

  const U32_MAX: u32 := 0xFFFF_FFFF

  /**
    `std::net::IpAddr`. Rust stores an IPv4 address as a 32-bit and an IPv6
    address as a 128-bit integer; the variant is the address-family tag that the
    firewall backends branch on.
   */
  datatype IpAddr = V4(bits4: u32) | V6(bits6: u128)

  /** `IpAddr::is_ipv4`. */
  predicate IsIpv4(ip: IpAddr) { ip.V4? }

  // ---------------------------------------------------------------------------
  // Decimal text

  predicate IsDigit(c: char) { '0' <= c <= '9' }

  predicate AllDigits(s: string) { forall i :: 0 <= i < |s| ==> IsDigit(s[i]) }

  function DigitChar(d: nat): (c: char)
    requires d < 10
    ensures IsDigit(c) && c as int - '0' as int == d
  {
    (48 + d) as char
  }

  /** The value of a run of decimal digits (leading zeros allowed). */
  function DigitsValue(s: string): nat
    requires AllDigits(s)
  {
    if s == [] then 0 else DigitsValue(s[..|s| - 1]) * 10 + (s[|s| - 1] as int - '0' as int)
  }

  /** `format!("{}", n)` for an unsigned integer: decimal digits, no leading zero. */
  function Decimal(n: nat): (s: string)
    ensures |s| >= 1 && AllDigits(s)
    ensures s[0] == '0' <==> n == 0
    ensures n == 0 ==> s == "0"
  {
    if n < 10 then [DigitChar(n)] else Decimal(n / 10) + [DigitChar(n % 10)]
  }

  /** Formatting a number and reading the digits back gives the number. */
  lemma {:induction false} DecimalRoundTrip(n: nat)
    ensures DigitsValue(Decimal(n)) == n
  {
    if n >= 10 {
      var s := Decimal(n);
      assert s[..|s| - 1] == Decimal(n / 10);
      DecimalRoundTrip(n / 10);
    }
  }

  /** Two numbers with the same decimal text are the same number. */
  lemma DecimalInjective(m: nat, n: nat)
    requires Decimal(m) == Decimal(n)
    ensures m == n
  {
    DecimalRoundTrip(m);
    DecimalRoundTrip(n);
  }

  /**
    `str::parse::<u16>`: an optional `+`, then at least one ASCII digit, and a
    value that fits 16 bits. A `-` sign, an empty string, a lone `+`, any other
    character and an overflow are all errors (`ParseIntError`).
   */
  function ParseU16(s: string): (r: Option<u16>)
    ensures r.Some? ==> |s| >= 1
  {
    var digits := if |s| > 0 && s[0] == '+' then s[1..] else s;
    if |digits| == 0 || !AllDigits(digits) then None
    else if DigitsValue(digits) < 0x1_0000 then Some(DigitsValue(digits))
    else None
  }

  /** Parsing the decimal text of a port gives the port back. */
  lemma ParseU16Decimal(p: u16)
    ensures ParseU16(Decimal(p)) == Some(p)
  {
    DecimalRoundTrip(p);
  }

  // ---------------------------------------------------------------------------
  // Display of addresses

  /** The four octets of an IPv4 address, most significant first. */
  function Ipv4Octets(a: u32): (o: seq<u8>)
    ensures |o| == 4
  {
    [a / 0x100_0000, (a / 0x1_0000) % 0x100, (a / 0x100) % 0x100, a % 0x100]
  }

  /** `Ipv4Addr::new(a, b, c, d)`. */
  function Ipv4FromOctets(a: u8, b: u8, c: u8, d: u8): u32
  {
    a * 0x100_0000 + b * 0x1_0000 + c * 0x100 + d
  }

  /** Splitting `q * 256 + r` back into its quotient and remainder. */
  lemma ByteSplit(q: nat, r: nat)
    requires r < 0x100
    ensures (q * 0x100 + r) / 0x100 == q && (q * 0x100 + r) % 0x100 == r
  {
  }

  lemma Ipv4OctetsRoundTrip(a: u8, b: u8, c: u8, d: u8)
    ensures Ipv4Octets(Ipv4FromOctets(a, b, c, d)) == [a, b, c, d]
  {
    var ab := a * 0x100 + b;
    var abc := ab * 0x100 + c;
    var n := abc * 0x100 + d;
    assert Ipv4FromOctets(a, b, c, d) == n;
    ByteSplit(abc, d);
    ByteSplit(ab, c);
    ByteSplit(a, b);
    assert n / 0x1_0000 == abc / 0x100 by {
      assert n / 0x1_0000 == (n / 0x100) / 0x100;
    }
    assert n / 0x100_0000 == ab / 0x100 by {
      assert n / 0x100_0000 == ((n / 0x100) / 0x100) / 0x100;
    }
  }

  function HexChar(d: nat): char
    requires d < 16
  {
    if d < 10 then DigitChar(d) else (87 + d) as char
  }

  /** Lower-case hexadecimal text, no leading zero (`format!("{:x}", n)`). */
  function Hex(n: nat): (s: string)
    ensures |s| >= 1
  {
    if n < 16 then [HexChar(n)] else Hex(n / 16) + [HexChar(n % 16)]
  }

  /** The last `count` 16-bit groups of `a`, most significant first. */
  function Groups(a: nat, count: nat): (g: seq<u16>)
    ensures |g| == count
  {
    if count == 0 then [] else Groups(a / 0x1_0000, count - 1) + [a % 0x1_0000]
  }

  function JoinHexGroups(g: seq<u16>): string
  {
    if |g| == 0 then ""
    else if |g| == 1 then Hex(g[0])
    else Hex(g[0]) + ":" + JoinHexGroups(g[1..])
  }

  /** `IpAddr::to_string` (IPv6 without zero-run compression). */
  function IpToString(ip: IpAddr): (s: string)
    ensures |s| >= 1
  {
    match ip
    case V4(a) =>
      var o := Ipv4Octets(a);
      Decimal(o[0]) + "." + Decimal(o[1]) + "." + Decimal(o[2]) + "." + Decimal(o[3])
    case V6(a) => JoinHexGroups(Groups(a, 8))
  }

  // ---------------------------------------------------------------------------
  // Order

  /** The integer that Rust's derived `Ord` on `IpAddr` compares: every IPv4
      address sorts before every IPv6 address, each family numerically. */
  function OrderKey(ip: IpAddr): nat
  {
    match ip
    case V4(a) => a
    case V6(a) => 0x1_0000_0000 + a
  }

  predicate IpLe(a: IpAddr, b: IpAddr) { OrderKey(a) <= OrderKey(b) }

  predicate IpLt(a: IpAddr, b: IpAddr) { OrderKey(a) < OrderKey(b) }

  /** The order is antisymmetric: distinct addresses have distinct keys. */
  lemma OrderKeyInjective(a: IpAddr, b: IpAddr)
    requires OrderKey(a) == OrderKey(b)
    ensures a == b
  {
  }
}
