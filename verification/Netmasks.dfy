/** Netmask arithmetic, for the 32-bit and the 128-bit addresses alike. */
module Netmasks {
  import opened Wrappers
  import opened IPv6Text

  function Pow2(n: nat): (p: nat)
    ensures p > 0
  {
    if n == 0 then 1 else 2 * Pow2(n - 1)
  }

  // v & (1 << k), for a non-negative integer of any size
  predicate Bit(v: nat, k: nat) {
    v % Pow2(k + 1) >= Pow2(k)
  }

  // cidr_to_netmask: ((1 << bits) - 1) << (w - bits)
  function Netmask(bits: nat, w: nat): int
    requires bits <= w
  {
    (Pow2(bits) - 1) * Pow2(w - bits)
  }

  lemma {:induction false} Pow2Sum(a: nat, b: nat)
    ensures Pow2(a + b) == Pow2(a) * Pow2(b)
  {
    if a > 0 {
      Pow2Sum(a - 1, b);
    }
  }

  lemma NetmaskIs(bits: nat, w: nat)
    requires bits <= w
    ensures Netmask(bits, w) == Pow2(w) - Pow2(w - bits)
  {
    Pow2Sum(bits, w - bits);
  }

  // Shifting a netmask left within its width drops its first bit.
  lemma NetmaskShift(bits: nat, w: nat)
    requires 0 < bits <= w
    ensures 2 * Netmask(bits, w) - Pow2(w) == Netmask(bits - 1, w)
    ensures Netmask(bits, w) >= Pow2(w - 1)
  {
    NetmaskIs(bits, w);
    NetmaskIs(bits - 1, w);
    Pow2Grows(w - bits, w - 1);
  }

  lemma {:induction false} Pow2Grows(a: nat, b: nat)
    requires a <= b
    ensures Pow2(a) <= Pow2(b)
  {
    if a < b {
      Pow2Grows(a, b - 1);
    }
  }

  lemma {:induction false} ModAdd(q: nat, m: nat, r: nat)
    requires r < m
    ensures (q * m + r) % m == r && (q * m + r) / m == q
  {
    var x := q * m + r;
    assert x == (x / m) * m + x % m;
    TimesAtLeast(x / m - q, m);
  }

  lemma TimesAtLeast(k: int, m: int)
    requires m >= 0
    ensures k >= 1 ==> k * m >= m
    ensures k <= -1 ==> k * m <= -m
  {
  }

  lemma DoubledMod(v: nat, m: nat)
    requires m > 0 && 2 * (v % m) >= m
    ensures (2 * v) % m == 2 * (v % m) - m
  {
    var q, r := v / m, v % m;
    assert v == q * m + r;
    assert 2 * v == (2 * q + 1) * m + (2 * r - m);
    ModAdd(2 * q + 1, m, 2 * r - m);
  }

  // After c rounds on v, the answers still possible are those whose rest is a netmask.
  ghost predicate Matched(netmask: nat, v: nat, c: nat, w: nat)
    requires c <= w
  {
    && v == netmask * Pow2(c)
    && (forall k :: 0 <= k <= w - c ==> (netmask == Netmask(c + k, w) <==> v % Pow2(w) == Netmask(k, w)))
    && forall bits :: 0 <= bits < c ==> netmask != Netmask(bits, w)
  }

  lemma MatchMore(netmask: nat, v: nat, c: nat, w: nat)
    requires 0 < w && c <= w && Matched(netmask, v, c, w) && Bit(v, w - 1)
    ensures c < w && Matched(netmask, 2 * v, c + 1, w)
  {
    if c == w {
      ModAdd(netmask, Pow2(w), 0);
      assert false;
    }
    DoubledMod(v, Pow2(w));
    assert netmask * Pow2(c + 1) == 2 * (netmask * Pow2(c));
    forall k | 0 <= k <= w - (c + 1)
      ensures netmask == Netmask(c + 1 + k, w) <==> (2 * v) % Pow2(w) == Netmask(k, w)
    {
      assert netmask == Netmask(c + (k + 1), w) <==> v % Pow2(w) == Netmask(k + 1, w);
      NetmaskShift(k + 1, w);
    }
    assert netmask == Netmask(c + 0, w) <==> v % Pow2(w) == Netmask(0, w);
    NetmaskIs(0, w);
  }

  lemma MatchEnds(netmask: nat, v: nat, c: nat, w: nat)
    requires 0 < w && c <= w && Matched(netmask, v, c, w) && !Bit(v, w - 1)
    ensures v % Pow2(w) == 0 <==> netmask == Netmask(c, w)
    ensures forall bits :: 0 <= bits <= w && bits != c ==> netmask != Netmask(bits, w)
  {
    NetmaskIs(0, w);
    assert netmask == Netmask(c + 0, w) <==> v % Pow2(w) == Netmask(0, w);
    forall bits | c < bits <= w
      ensures netmask != Netmask(bits, w)
    {
      assert netmask == Netmask(c + (bits - c), w) <==> v % Pow2(w) == Netmask(bits - c, w);
      NetmaskShift(bits - c, w);
    }
  }

  // netmask_to_cidr.  The shifted integer is never truncated; None stands for the exception.
  // A value is accepted exactly if it is a netmask, and the answer is its length.
  method NetmaskToCidr(netmask: nat, w: nat) returns (r: Option<nat>)
    requires w > 0 && netmask < Pow2(w)
    ensures r.Some? ==> r.value <= w && netmask == Netmask(r.value, w)
    ensures r.None? ==> forall bits :: 0 <= bits <= w ==> netmask != Netmask(bits, w)
  {
    var v: nat, c := netmask, 0;
    ModAdd(0, Pow2(w), netmask);
    while Bit(v, w - 1)
      invariant c <= w && Matched(netmask, v, c, w)
      decreases w - c
    {
      MatchMore(netmask, v, c, w);
      c := c + 1;
      v := 2 * v;
    }
    MatchEnds(netmask, v, c, w);
    v := v % Pow2(w);
    if v != 0 {
      return None;
    }
    return Some(c);
  }

  // The two conversions are inverse: distinct lengths give distinct netmasks.
  lemma NetmaskInjective(a: nat, b: nat, w: nat)
    requires a <= w && b <= w && Netmask(a, w) == Netmask(b, w)
    ensures a == b
  {
    NetmaskIs(a, w);
    NetmaskIs(b, w);
    if a < b {
      Pow2Less(w - b, w - a);
    } else if b < a {
      Pow2Less(w - a, w - b);
    }
  }

  lemma {:induction false} Pow2Less(a: nat, b: nat)
    requires a < b
    ensures Pow2(a) < Pow2(b)
  {
    Pow2Grows(a, b - 1);
  }

  lemma BitOf(v: nat, k: nat, q: nat, r: nat)
    requires r < Pow2(k + 1) && v == q * Pow2(k + 1) + r
    ensures Bit(v, k) <==> r >= Pow2(k)
  {
    hide Pow2;
    ModAdd(q, Pow2(k + 1), r);
  }

  // Its bits are ones in front and zeros behind.
  lemma NetmaskBits(netmask: nat, bits: nat, w: nat, k: nat)
    requires bits <= w && k < w && netmask == Netmask(bits, w)
    ensures Bit(netmask, k) <==> k >= w - bits
  {
    hide Bit, Pow2, Netmask;
    var p := Pow2(k + 1);
    if k >= w - bits {
      var q := Pow2(w - k - 1);
      Pow2Sum(k + 1, w - k - 1);
      NetmaskIs(bits, w);
      Pow2Grows(w - bits, k);
      DoubleIs(k);
      LessOne(q, p);
      BitOf(netmask, k, q - 1, p - Pow2(w - bits));
    } else {
      var q := Pow2(bits) - 1;
      var r := Pow2(w - bits - k - 1);
      Pow2Sum(k + 1, w - bits - k - 1);
      NetmaskProduct(bits, w);
      Regroup(q, r, p);
      BitOf(netmask, k, q * r, 0);
    }
  }

  lemma DoubleIs(k: nat)
    ensures Pow2(k + 1) == 2 * Pow2(k)
  {
  }

  lemma NetmaskProduct(bits: nat, w: nat)
    requires bits <= w
    ensures Netmask(bits, w) == (Pow2(bits) - 1) * Pow2(w - bits)
  {
  }

  lemma LessOne(q: int, p: int)
    ensures (q - 1) * p == p * q - p
  {
  }

  lemma Regroup(q: nat, r: nat, p: nat)
    ensures q * (p * r) == (q * r) * p
  {
  }

  // ---- networks ----

  // parse_cidr's check: without allow_host the bits beyond the prefix must be zero.
  predicate HostPartZero(network: nat, bits: nat, w: nat)
    requires bits <= w
  {
    network % Pow2(w - bits) == 0
  }

  // (self.num & ~((1 << (w - b)) - 1)) == n.num
  predicate InNetwork(a: nat, network: nat, bits: nat, w: nat)
    requires bits <= w
  {
    a - a % Pow2(w - bits) == network
  }

  // An address is in a network that parse_cidr lets through exactly if they share the prefix;
  // no address is in a network with host bits.
  lemma InNetworkIsSamePrefix(a: nat, network: nat, bits: nat, w: nat)
    requires bits <= w
    ensures InNetwork(a, network, bits, w)
       <==> HostPartZero(network, bits, w) && a / Pow2(w - bits) == network / Pow2(w - bits)
  {
    SamePart(a, network, Pow2(w - bits));
  }

  lemma SamePart(a: nat, b: nat, p: nat)
    requires p > 0
    ensures a - a % p == b <==> b % p == 0 && a / p == b / p
  {
    assert a == (a / p) * p + a % p && b == (b / p) * p + b % p;
    ModAdd(a / p, p, 0);
  }

  // ---- the integer behind an IPv6 address ----

  function Num(raw: Bytes): nat {
    if raw == [] then 0 else Num(raw[..|raw| - 1]) * 256 + raw[|raw| - 1] as nat
  }

  method NumOf(raw: Bytes) returns (o: nat)
    ensures o == Num(raw)
  {
    o := 0;
    for i := 0 to |raw|
      invariant o == Num(raw[..i])
    {
      assert raw[..i + 1][..i] == raw[..i];
      o := o * 256 + raw[i] as nat;
    }
    assert raw[..|raw|] == raw;
  }

  lemma Pow256(k: nat)
    ensures Pow2(8 * (k + 1)) == 256 * Pow2(8 * k)
  {
    Pow2Sum(8, 8 * k);
    Pow2Sum(4, 4);
    assert Pow2(4) == 16;
  }

  lemma {:induction false} NumBound(raw: Bytes)
    ensures Num(raw) < Pow2(8 * |raw|)
  {
    if raw != [] {
      hide Pow2;
      NumBound(raw[..|raw| - 1]);
      Pow256(|raw| - 1);
    }
  }

  // The number determines the bytes.
  lemma {:induction false} NumInjective(a: Bytes, b: Bytes)
    requires |a| == |b| && Num(a) == Num(b)
    ensures a == b
  {
    if a != [] {
      var n := |a| - 1;
      NumInjective(a[..n], b[..n]);
      assert a == a[..n] + [a[n]] && b == b[..n] + [b[n]];
    }
  }

  lemma {:induction false} NumSplit(a: Bytes, b: Bytes)
    ensures Num(a + b) == Num(a) * Pow2(8 * |b|) + Num(b)
  {
    if b == [] {
      assert a + b == a;
    } else {
      var n := |b| - 1;
      hide Pow2;
      NumSplit(a, b[..n]);
      assert (a + b)[..|a| + n] == a + b[..n];
      Pow256(n);
      var p := Pow2(8 * n);
      assert Num(a) * (256 * p) == 256 * (Num(a) * p);
    }
  }

  // in_network with a byte-aligned prefix compares the leading bytes.
  lemma ByteAlignedNetwork(a: Bytes, network: Bytes, k: nat)
    requires |a| == 16 && |network| == 16 && k <= 16
    ensures HostPartZero(Num(network), 8 * k, 128) ==>
              (InNetwork(Num(a), Num(network), 8 * k, 128) <==> a[..k] == network[..k])
  {
    var p := Pow2(128 - 8 * k);
    assert a == a[..k] + a[k..] && network == network[..k] + network[k..];
    NumSplit(a[..k], a[k..]);
    NumSplit(network[..k], network[k..]);
    NumBound(a[k..]);
    NumBound(network[k..]);
    ModAdd(Num(a[..k]), p, Num(a[k..]));
    ModAdd(Num(network[..k]), p, Num(network[k..]));
    InNetworkIsSamePrefix(Num(a), Num(network), 8 * k, 128);
    if Num(a[..k]) == Num(network[..k]) {
      NumInjective(a[..k], network[..k]);
    }
  }

  const MAPPED: Bytes := [0, 0, 0, 0, 0, 0, 0, 0, 0, 0, 255, 255, 0, 0, 0, 0]

  lemma {:induction false} NumOfZero(raw: Bytes)
    requires forall i :: 0 <= i < |raw| ==> raw[i] == 0
    ensures Num(raw) == 0
  {
    if raw != [] {
      NumOfZero(raw[..|raw| - 1]);
    }
  }

  lemma MappedHostPart()
    ensures HostPartZero(Num(MAPPED), 96, 128)
  {
    hide Pow2;
    var zero: Bytes := [0, 0, 0, 0];
    assert MAPPED == MAPPED[..12] + zero;
    NumSplit(MAPPED[..12], zero);
    NumOfZero(zero);
    ModAdd(Num(MAPPED[..12]), Pow2(32), 0);
  }

  // The printer's test for mixed notation is in_network('::ffff:0:0/96').
  lemma MappedIsInNetwork(raw: Bytes)
    requires IsAddress(raw)
    ensures IsIPv4Mapped(raw) <==> InNetwork(Num(raw), Num(MAPPED), 96, 128)
  {
    hide Pow2, Num, HostPartZero, InNetwork;
    MappedHostPart();
    ByteAlignedNetwork(raw, MAPPED, 12);
    MappedBytes(raw);
  }

  lemma MappedBytes(raw: Bytes)
    requires IsAddress(raw)
    ensures IsIPv4Mapped(raw) <==> raw[..12] == MAPPED[..12]
  {
    var g, m := ToGroups(raw), ToGroups(MAPPED);
    assert forall i :: 0 <= i < 6 ==> m[i] == [0, 0, 0, 0, 0, 0xffff][i];
    if raw[..12] == MAPPED[..12] {
      assert forall i :: 0 <= i < 12 ==> raw[i] == raw[..12][i];
      assert g[..6] == m[..6];
    }
    if IsIPv4Mapped(raw) {
      assert forall i :: 0 <= i < 6 ==> g[i] == g[..6][i];
      forall i | 0 <= i < 12
        ensures raw[i] == MAPPED[i]
      {
        assert g[i / 2] == m[i / 2];
      }
    }
  }
}
