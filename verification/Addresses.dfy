/** IP addresses and the C library parsers the program relies on
    (src/share/network-util.c, src/share/parse-util.c). */
module Addresses {
  import opened Wrappers

  type Octet = x: int | 0 <= x < 256

  type Uint32 = x: int | 0 <= x < 0x1_0000_0000

  /** The `IPAddress` structure: a family, its bytes and a prefix length (0 when not given). */
  datatype IPAddress =
    | V4(a: Octet, b: Octet, c: Octet, d: Octet, prefix: int)
    | V6(bytes: seq<Octet>, prefix: int)

  /** The parsers the program takes from the C library, as parameters:
      `ip` is parse_ip_from_str, `number` is parse_int, `mtu` is parse_mtu and
      `ether` is ether_aton. A None is a parse failure. */
  datatype Libc = Libc(
    ip: string -> Option<IPAddress>,
    number: string -> Option<int>,
    mtu: string -> Option<Uint32>,
    ether: string -> bool)

  /** What `g_str_hash` and `g_str_equal` see of an address used as a string key: the four
      bytes of its `in` member (zero for IPv6) up to the first zero byte. */
  function StringKey(ip: IPAddress): seq<Octet> {
    match ip
    case V6(_, _) => []
    case V4(a, b, c, d, _) =>
      if a == 0 then []
      else if b == 0 then [a]
      else if c == 0 then [a, b]
      else if d == 0 then [a, b, c]
      else [a, b, c, d]
  }

  // ---------------------------------------------------- netmask to prefix

  /** `__builtin_ctz`. */
  function TrailingZeros(n: nat): (z: nat)
    requires n > 0
  {
    if n % 2 == 1 then 0 else 1 + TrailingZeros(n / 2)
  }

  /** A number whose binary digits are `k` ones followed by `z` zeros. */
  function Mask(k: nat, z: nat): nat {
    if z > 0 then 2 * Mask(k, z - 1)
    else if k > 0 then 2 * Mask(k - 1, 0) + 1
    else 0
  }

  /** The `in` member in host byte order; it stays zero for an IPv6 address. */
  function HostOrder(ip: IPAddress): nat {
    match ip
    case V4(a, b, c, d, _) => ((a * 256 + b) * 256 + c) * 256 + d
    case V6(_, _) => 0
  }

  /** `ipv4_netmask_to_prefixlen`; counting the trailing zeros of zero is undefined. */
  function NetmaskToPrefixLen(mask: IPAddress): Option<int> {
    if HostOrder(mask) == 0 then None else Some(32 - TrailingZeros(HostOrder(mask)))
  }

  lemma {:induction false} MaskZeros(k: nat, z: nat)
    requires k > 0
    ensures Mask(k, z) > 0 && TrailingZeros(Mask(k, z)) == z
  {
    if z > 0 {
      MaskZeros(k, z - 1);
      assert Mask(k, z) / 2 == Mask(k, z - 1);
    }
  }

  /** A mask of `k` ones followed by `z` zeros, 32 bits in all, has prefix length `k`. */
  lemma {:induction false} ContiguousMask(mask: IPAddress, k: nat, z: nat)
    requires k >= 1 && k + z == 32
    requires HostOrder(mask) == Mask(k, z)
    ensures NetmaskToPrefixLen(mask) == Some(k)
  {
    MaskZeros(k, z);
  }
}
