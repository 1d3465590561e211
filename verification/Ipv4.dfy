/** IPv4 addresses and networks, as the routing code uses them: an address is a
    32-bit number, a network is an address (host bits included) with a prefix length. */

module Options {
  datatype Option<+T> = None | Some(value: T)
}

module Ipv4 {
  type Addr = a: nat | a < 0x1_0000_0000

  type Prefix = p: nat | p <= 32

  const UNSPECIFIED: Addr := 0

  predicate IsLoopback(a: Addr) {
    a / 0x100_0000 == 127
  }

  /** The address with its k lowest bits cleared. */
  function ClearLow(a: nat, k: nat): (r: nat)
    ensures r <= a
  {
    if k == 0 then a else 2 * ClearLow(a / 2, k - 1)
  }

  /** The address without its k lowest bits: what a prefix of 32 - k bits keeps. */
  function HighBits(a: nat, k: nat): nat {
    if k == 0 then a else HighBits(a / 2, k - 1)
  }

  function Pow2(k: nat): (r: nat)
    ensures r > 0
  {
    if k == 0 then 1 else 2 * Pow2(k - 1)
  }

  datatype Ipv4Network = Net(ip: Addr, prefix: Prefix) {
    function Network(): Addr {
      ClearLow(ip, 32 - prefix)
    }

    function Masked(): Ipv4Network {
      Net(Network(), prefix)
    }

    predicate IsMasked() {
      ip == Network()
    }

    predicate Contains(a: Addr) {
      ClearLow(a, 32 - prefix) == Network()
    }
  }

  lemma {:induction false} ClearLowIdempotent(a: nat, k: nat)
    ensures ClearLow(ClearLow(a, k), k) == ClearLow(a, k)
  {
    if k > 0 {
      ClearLowIdempotent(a / 2, k - 1);
    }
  }

  lemma {:induction false} ClearLowDecidesHighBits(a: nat, b: nat, k: nat)
    ensures ClearLow(a, k) == ClearLow(b, k) <==> HighBits(a, k) == HighBits(b, k)
  {
    if k > 0 {
      ClearLowDecidesHighBits(a / 2, b / 2, k - 1);
    }
  }

  /** The addresses that agree with a above bit k are one aligned block of 2^k addresses. */
  lemma {:induction false} ClearLowIsBlock(a: nat, b: nat, k: nat)
    ensures ClearLow(b, k) == ClearLow(a, k) <==> ClearLow(a, k) <= b < ClearLow(a, k) + Pow2(k)
  {
    if k > 0 {
      ClearLowIsBlock(a / 2, b / 2, k - 1);
    }
  }

  /** Masking is idempotent and keeps the member addresses. */
  lemma MaskingIsCanonical(n: Ipv4Network)
    ensures n.Masked().IsMasked()
    ensures n.Masked().Masked() == n.Masked()
    ensures forall a: Addr :: n.Masked().Contains(a) <==> n.Contains(a)
  {
    ClearLowIdempotent(n.ip, 32 - n.prefix);
  }

  /** Two networks have one canonical form exactly when prefix length and prefix bits agree. */
  lemma MaskedAgreeIff(n: Ipv4Network, m: Ipv4Network)
    ensures n.Masked() == m.Masked()
      <==> n.prefix == m.prefix && HighBits(n.ip, 32 - n.prefix) == HighBits(m.ip, 32 - m.prefix)
  {
    ClearLowDecidesHighBits(n.ip, m.ip, 32 - n.prefix);
  }

  /** A network contains exactly the aligned block of addresses that starts at its network address. */
  lemma ContainsIsBlock(n: Ipv4Network, a: Addr)
    ensures n.Contains(a) <==> n.Network() <= a < n.Network() + Pow2(32 - n.prefix)
  {
    ClearLowIsBlock(n.ip, a, 32 - n.prefix);
  }
}
