/** CIDRRange: the addresses of a network, by counting up a byte slice in place. */
module Cidr {
  import opened Integers
  import opened Options

  /** The big-endian value of an address. */
  function Val(s: seq<bv8>): nat {
    if s == [] then 0 else 256 * Val(s[..|s| - 1]) + Num(s[|s| - 1])
  }

  function Num(b: bv8): nat { b as int }

  lemma Pow2OfByte(n: nat)
    ensures Pow2(n + 8) == 256 * Pow2(n)
  {
    assert Pow2(n + 2) == 2 * Pow2(n + 1) == 4 * Pow2(n);
    assert Pow2(n + 4) == 2 * Pow2(n + 3) == 4 * Pow2(n + 2);
    assert Pow2(n + 6) == 2 * Pow2(n + 5) == 4 * Pow2(n + 4);
    assert Pow2(n + 8) == 2 * Pow2(n + 7) == 4 * Pow2(n + 6);
  }

  lemma {:induction false} ValBound(s: seq<bv8>)
    ensures Val(s) < Pow2(8 * |s|)
  {
    if s != [] {
      ValBound(s[..|s| - 1]);
      Pow2OfByte(8 * (|s| - 1));
    }
  }

  /** Addresses of one length with the same value are the same address. */
  lemma {:induction false} ValInjective(a: seq<bv8>, b: seq<bv8>)
    requires |a| == |b| && Val(a) == Val(b)
    ensures a == b
  {
    if a != [] {
      SameDigit(Val(a[..|a| - 1]), a[|a| - 1], Val(b[..|a| - 1]), b[|a| - 1]);
      ValInjective(a[..|a| - 1], b[..|a| - 1]);
      assert a == a[..|a| - 1] + [a[|a| - 1]];
    }
  }

  lemma SameDigit(p: nat, x: bv8, q: nat, y: bv8)
    requires 256 * p + Num(x) == 256 * q + Num(y)
    ensures p == q && x == y
  {
    assert Num(x) < 256 && Num(y) < 256;
  }

  // ---- counting up ----

  /** What incIP leaves in the slice. */
  function Inc(s: seq<bv8>): (r: seq<bv8>)
    ensures |r| == |s|
  {
    if s == [] then []
    else if s[|s| - 1] + 1 != 0 then s[..|s| - 1] + [s[|s| - 1] + 1]
    else Inc(s[..|s| - 1]) + [0]
  }

  /** Bytes after j are done, the carry is due at j. */
  ghost predicate CarryAt(was: seq<bv8>, s: seq<bv8>, j: int) {
    && -1 <= j < |s| == |was|
    && s[..j + 1] == was[..j + 1]
    && Inc(was) == Inc(was[..j + 1]) + s[j + 1..]
  }

  lemma CarryStep(was: seq<bv8>, s: seq<bv8>, j: int)
    requires CarryAt(was, s, j) && j >= 0
    ensures var t := s[j := s[j] + 1];
      if t[j] != 0 then t == Inc(was) else CarryAt(was, t, j - 1)
  {
    var front := was[..j + 1];
    assert front[j] == s[j] && front[..j] == was[..j] == s[..j];
    var t := s[j := s[j] + 1];
    assert t == s[..j] + [s[j] + 1] + s[j + 1..];
    assert t[..j] == s[..j] && t[j..] == [s[j] + 1] + s[j + 1..];
  }

  method IncIP(ip: array<bv8>)
    modifies ip
    ensures ip[..] == Inc(old(ip[..]))
  {
    hide Inc, CarryAt;
    ghost var was := ip[..];
    var j := ip.Length - 1;
    CarryStarts(was);
    while j >= 0
      invariant -1 <= j < ip.Length
      invariant CarryAt(was, ip[..], j)
    {
      ghost var s := ip[..];
      ip[j] := ip[j] + 1;
      assert ip[..] == s[j := s[j] + 1];
      CarryStep(was, s, j);
      if ip[j] != 0 {
        return;
      }
      j := j - 1;
    }
    CarryEnds(was, ip[..]);
  }

  lemma CarryStarts(was: seq<bv8>)
    ensures CarryAt(was, was, |was| - 1)
  {
    assert was[..|was|] == was && was[|was|..] == [];
  }

  lemma CarryEnds(was: seq<bv8>, s: seq<bv8>)
    requires CarryAt(was, s, -1)
    ensures s == Inc(was)
  {
  }

  lemma ValSnoc(s: seq<bv8>, b: bv8)
    ensures Val(s + [b]) == 256 * Val(s) + Num(b)
  {
    assert (s + [b])[..|s|] == s;
  }

  /** Incrementing adds one modulo 256^n. */
  lemma {:induction false} IncAddsOne(s: seq<bv8>)
    ensures Val(Inc(s)) == if Val(s) + 1 == Pow2(8 * |s|) then 0 else Val(s) + 1
  {
    if s != [] {
      hide Inc, Val, Pow2;
      var front, last := s[..|s| - 1], s[|s| - 1];
      IncAddsOne(front);
      assert s == front + [last];
      IncSnoc(front, last);
    }
  }

  lemma IncSnoc(front: seq<bv8>, last: bv8)
    requires Val(Inc(front)) == if Val(front) + 1 == Pow2(8 * |front|) then 0 else Val(front) + 1
    ensures var s := front + [last];
      Val(Inc(s)) == if Val(s) + 1 == Pow2(8 * |s|) then 0 else Val(s) + 1
  {
    var s, next := front + [last], last + 1;
    assert Inc(s) == if next != 0 then front + [next] else Inc(front) + [0];
    hide Inc, Val, Pow2;
    ValBound(front);
    Pow2OfByte(8 * |front|);
    assert 8 * |s| == 8 * |front| + 8;
    ByteWraps(last);
    ValSnoc(front, last);
    ValSnoc(front, next);
    ValSnoc(Inc(front), 0);
  }

  lemma ByteWraps(b: bv8)
    ensures if b + 1 != 0 then Num(b + 1) == Num(b) + 1 else Num(b) == 255
    ensures Num(0) == 0
  {
  }

  // ---- masks ----

  /** A mask byte with h zero bits at its end. */
  function ByteMask(h: nat): bv8
    requires h <= 8
  {
    match h
    case 0 => 0xFF case 1 => 0xFE case 2 => 0xFC case 3 => 0xF8 case 4 => 0xF0
    case 5 => 0xE0 case 6 => 0xC0 case 7 => 0x80 case _ => 0
  }

  /** The mask of an n-byte network with h host bits, as net.ParseCIDR returns it. */
  function Mask(n: nat, h: nat): (m: seq<bv8>)
    ensures |m| == n
  {
    if n == 0 then [] else Mask(n - 1, if h <= 8 then 0 else h - 8) + [ByteMask(Min(h, 8))]
  }

  /** net.IP.Mask. */
  function Masked(ip: seq<bv8>, mask: seq<bv8>): (r: seq<bv8>)
    requires |ip| == |mask|
    ensures |r| == |ip|
  {
    seq(|ip|, i requires 0 <= i < |ip| => And(ip[i], mask[i]))
  }

  function And(a: bv8, b: bv8): bv8 { a & b }

  /** net.IP.To4: four bytes, or the last four of an IPv4-mapped address. */
  function To4(ip: seq<bv8>): Option<seq<bv8>> {
    if |ip| == 4 then Some(ip)
    else if |ip| == 16 && ip[..12] == V4_PREFIX then Some(ip[12..])
    else None
  }

  const V4_PREFIX: seq<bv8> := [0, 0, 0, 0, 0, 0, 0, 0, 0, 0, 0xFF, 0xFF]

  predicate Mapped(ip: seq<bv8>) { |ip| == 16 && ip[..12] == V4_PREFIX }

  /** The bytes of an address under a mask. */
  predicate SameUnder(ip: seq<bv8>, mask: seq<bv8>, a: seq<bv8>)
    requires |ip| == |mask|
  {
    |a| == |ip| && forall i :: 0 <= i < |ip| ==> And(ip[i], mask[i]) == And(a[i], mask[i])
  }

  /** An IPv4 or IPv6 network. */
  datatype IPNet = IPNet(ip: seq<bv8>, mask: seq<bv8>) {
    predicate Valid() { |ip| == |mask| && (|ip| == 4 || |ip| == 16) }

    /** net.IPNet.Contains: network and candidate are cut to four bytes where they
        are IPv4 addresses, then compared under the mask. */
    predicate Contains(a: seq<bv8>)
      requires Valid()
    {
      var (nn, m) := match To4(ip)
        case Some(v4) => (v4, if |mask| == 16 then mask[12..] else mask)
        case None => (ip, mask);
      SameUnder(nn, m, match To4(a) case Some(v4) => v4 case None => a)
    }
  }

  /** The last address of the network. */
  function LastOf(ip: seq<bv8>, mask: seq<bv8>): (r: seq<bv8>)
    requires |ip| == |mask|
    ensures |r| == |ip|
  {
    seq(|ip|, i requires 0 <= i < |ip| => ip[i] | !mask[i])
  }

  method BroadcastIP(n: IPNet) returns (ip: array<bv8>)
    requires |n.ip| == |n.mask|
    ensures fresh(ip) && ip[..] == LastOf(n.ip, n.mask)
  {
    ip := new bv8[|n.ip|](i requires 0 <= i < |n.ip| => n.ip[i]);
    for i := 0 to ip.Length
      invariant forall k :: 0 <= k < i ==> ip[k] == n.ip[k] | !n.mask[k]
      invariant forall k :: i <= k < ip.Length ==> ip[k] == n.ip[k]
    {
      ip[i] := ip[i] | !n.mask[i];
    }
  }

  /** The network ip/p that net.ParseCIDR makes of an address. */
  function Network(ip: seq<bv8>, prefix: nat): (n: IPNet)
    requires prefix <= 8 * |ip|
    ensures |n.ip| == |n.mask| == |ip|
  {
    var mask := Mask(|ip|, 8 * |ip| - prefix);
    IPNet(Masked(ip, mask), mask)
  }

  // ---- what a mask does to a byte ----

  predicate SplitAs(b: bv8, mask: bv8, p: nat, q: nat, r: nat) {
    Between(Num(b), Num(b & mask), Num((b & mask) | !mask), p, q, r)
  }

  /** The mask keeps the multiples of p, and its complement fills in p - 1. */
  ghost predicate Splits(b: bv8, mask: bv8, p: nat) {
    exists q: nat, r: nat :: SplitAs(b, mask, p, q, r)
  }

  lemma Split0(b: bv8) ensures Splits(b, 0xFF, 1) { assert SplitAs(b, 0xFF, 1, b as int, 0); }
  lemma Split1(b: bv8) ensures Splits(b, 0xFE, 2) { assert SplitAs(b, 0xFE, 2, (b >> 1) as int, (b & 0x01) as int); }
  lemma Split2(b: bv8) ensures Splits(b, 0xFC, 4) { assert SplitAs(b, 0xFC, 4, (b >> 2) as int, (b & 0x03) as int); }
  lemma Split3(b: bv8) ensures Splits(b, 0xF8, 8) { assert SplitAs(b, 0xF8, 8, (b >> 3) as int, (b & 0x07) as int); }
  lemma Split4(b: bv8) ensures Splits(b, 0xF0, 16) { assert SplitAs(b, 0xF0, 16, (b >> 4) as int, (b & 0x0F) as int); }
  lemma Split5(b: bv8) ensures Splits(b, 0xE0, 32) { assert SplitAs(b, 0xE0, 32, (b >> 5) as int, (b & 0x1F) as int); }
  lemma Split6(b: bv8) ensures Splits(b, 0xC0, 64) { assert SplitAs(b, 0xC0, 64, (b >> 6) as int, (b & 0x3F) as int); }
  lemma Split7(b: bv8) ensures Splits(b, 0x80, 128) { assert SplitAs(b, 0x80, 128, (b >> 7) as int, (b & 0x7F) as int); }
  lemma Split8(b: bv8) ensures Splits(b, 0x00, 256) { assert SplitAs(b, 0x00, 256, 0, b as int); }

  lemma ByteSplits(b: bv8, h: nat) returns (q: nat, r: nat)
    requires h <= 8
    ensures SplitAs(b, ByteMask(h), Pow2(h), q, r)
  {
    hide SplitAs;
    assert Splits(b, ByteMask(h), Pow2(h)) by {
      hide Splits;
      PowersOfByte();
      hide Pow2;
      if h < 4 {
        Split0(b); Split1(b); Split2(b); Split3(b);
      } else {
        Split4(b); Split5(b); Split6(b); Split7(b); Split8(b);
      }
    }
    hide ByteMask, Pow2;
    q, r :| SplitAs(b, ByteMask(h), Pow2(h), q, r);
  }

  // ---- what a mask does to an address ----

  /** v lies r above the multiple m = q * p, and l is the last number below the
      next multiple. */
  predicate Between(v: int, m: int, l: int, p: nat, q: nat, r: nat) {
    v == q * p + r && r < p && m == q * p && l == q * p + p - 1
  }

  lemma JoinLow(f: nat, b: int, bm: int, bl: int, h: nat, q1: nat, r: nat) returns (q: nat)
    requires h <= 8 && Between(b, bm, bl, Pow2(h), q1, r)
    ensures Between(256 * f + b, 256 * f + bm, 256 * f + bl, Pow2(h), q, r)
  {
    var x, y := Pow2(8 - h), Pow2(h);
    PowersOfByte();
    assert x * y == 256;
    q := f * x + q1;
    assert q * y == f * (x * y) + q1 * y;
  }

  lemma PowersOfByte()
    ensures Pow2(0) == 1 && Pow2(1) == 2 && Pow2(2) == 4 && Pow2(3) == 8 && Pow2(4) == 16
    ensures Pow2(5) == 32 && Pow2(6) == 64 && Pow2(7) == 128 && Pow2(8) == 256
  {
  }

  lemma JoinHigh(v: int, m: int, l: int, p: nat, q: nat, r: nat, b: nat)
    requires Between(v, m, l, p, q, r) && b < 256
    ensures Between(256 * v + b, 256 * m, 256 * l + 255, 256 * p, q, 256 * r + b)
  {
    assert q * (256 * p) == 256 * (q * p);
  }

  /** With h host bits, the network of s is the multiple of 2^h at or below s, and
      the last address is 2^h - 1 above the network. */
  ghost predicate Aligned(s: seq<bv8>, mask: seq<bv8>, p: nat, q: nat, r: nat)
    requires |s| == |mask|
  {
    Between(Val(s), Val(Masked(s, mask)), Val(LastOf(Masked(s, mask), mask)), p, q, r)
  }

  lemma {:induction false} AddressSplits(s: seq<bv8>, h: nat) returns (q: nat, r: nat)
    requires h <= 8 * |s|
    ensures Aligned(s, Mask(|s|, h), Pow2(h), q, r)
  {
    if s == [] {
      q, r := 0, 0;
    } else {
      var front, last := s[..|s| - 1], s[|s| - 1];
      var h1 := if h <= 8 then 0 else h - 8;
      assert Mask(|s|, h) == Mask(|front|, h1) + [ByteMask(Min(h, 8))];
      assert s == front + [last];
      var q1, r1 := AddressSplits(front, h1);
      if h <= 8 {
        assert q1 == q1 * Pow2(0) && r1 == 0;
        hide Aligned, Mask;
        q, r := LowByte(front, Mask(|front|, 0), last, h, q1);
      } else {
        hide Aligned, Mask;
        Pow2OfByte(h1);
        q, r := HighByte(front, Mask(|front|, h1), last, Pow2(h1), q1, r1);
      }
    }
  }

  lemma LowByte(front: seq<bv8>, mask: seq<bv8>, last: bv8, h: nat, q1: nat) returns (q: nat, r: nat)
    requires |front| == |mask| && h <= 8 && Aligned(front, mask, Pow2(0), q1, 0)
    ensures Aligned(front + [last], mask + [ByteMask(h)], Pow2(h), q, r)
  {
    var low := ByteMask(h);
    var masked := Masked(front, mask);
    var end := LastOf(masked, mask);
    assert q1 == Val(front) == Val(masked) == Val(end);
    hide Pow2, ByteMask, Masked, LastOf, Val, Between;
    MaskedSnoc(front, mask, last, low);
    ValSnoc(front, last);
    ValSnoc(masked, last & low);
    ValSnoc(end, (last & low) | !low);
    q, r := LastByte(q1, last, low, h);
  }

  lemma LastByte(f: nat, last: bv8, low: bv8, h: nat) returns (q: nat, r: nat)
    requires h <= 8 && low == ByteMask(h)
    ensures Between(256 * f + Num(last), 256 * f + Num(last & low), 256 * f + Num((last & low) | !low), Pow2(h), q, r)
  {
    hide Between, ByteMask, Pow2, Num;
    q, r := ByteSplits(last, h);
    q := JoinLow(f, Num(last), Num(last & low), Num((last & low) | !low), h, q, r);
  }

  lemma HighByte(front: seq<bv8>, mask: seq<bv8>, last: bv8, p: nat, q1: nat, r1: nat) returns (q: nat, r: nat)
    requires |front| == |mask| && Aligned(front, mask, p, q1, r1)
    ensures Aligned(front + [last], mask + [0], 256 * p, q, r)
  {
    var masked := Masked(front, mask);
    hide Masked, LastOf, Val;
    MaskedSnoc(front, mask, last, 0);
    ValSnoc(front, last);
    ValSnoc(masked, last & 0);
    ValSnoc(LastOf(masked, mask), (last & 0) | !0);
    NoneKept(last);
    q, r := q1, 256 * r1 + Num(last);
    JoinHigh(Val(front), Val(masked), Val(LastOf(masked, mask)), p, q1, r1, Num(last));
  }

  lemma NoneKept(b: bv8)
    ensures Num(b & 0) == 0 && Num((b & 0) | !0) == 255 && Num(b) < 256
  {
  }

  /** Masking works byte by byte. */
  lemma MaskedSnoc(front: seq<bv8>, mask: seq<bv8>, last: bv8, low: bv8)
    requires |front| == |mask|
    ensures var masked := Masked(front, mask);
      && Masked(front + [last], mask + [low]) == masked + [last & low]
      && LastOf(masked + [last & low], mask + [low]) == LastOf(masked, mask) + [(last & low) | !low]
  {
  }

  // ---- the addresses of a network ----

  lemma {:induction false} Pow2Grows(a: nat, b: nat)
    requires a < b
    ensures 0 < Pow2(a) < Pow2(b)
  {
    if a == 0 { Pow2Positive(b - 1); } else { Pow2Grows(a - 1, b - 1); }
  }

  lemma {:induction false} Pow2Positive(n: nat)
    ensures Pow2(n) >= 1
  {
    if n > 0 { Pow2Positive(n - 1); }
  }

  lemma SameMultiple(p: nat, a: nat, b: nat, v: nat)
    requires a * p <= v < a * p + p && b * p <= v < b * p + p
    ensures a == b
  {
    NotAbove(p, a, b, v);
    NotAbove(p, b, a, v);
  }

  lemma NotAbove(p: nat, a: nat, b: nat, v: nat)
    requires v < a * p + p && b * p <= v
    ensures b <= a
  {
    if b > a { Gap(p, a, b); }
  }

  lemma Gap(p: nat, a: nat, b: nat)
    requires a < b
    ensures b * p >= a * p + p
  {
    var d: nat := b - a - 1;
    assert b == a + 1 + d;
    assert (a + 1 + d) * p == a * p + p + d * p;
    assert d * p >= 0;
  }

  lemma MaskedTwice(ip: seq<bv8>, mask: seq<bv8>)
    requires |ip| == |mask|
    ensures Masked(Masked(ip, mask), mask) == Masked(ip, mask)
  {
    var m := Masked(ip, mask);
    forall i | 0 <= i < |ip| ensures And(m[i], mask[i]) == m[i] {
      AndTwice(ip[i], mask[i]);
    }
  }

  lemma AndTwice(a: bv8, b: bv8)
    ensures And(And(a, b), b) == And(a, b)
  {
  }

  lemma SameByMask(ip: seq<bv8>, mask: seq<bv8>, a: seq<bv8>)
    requires |ip| == |mask| == |a|
    ensures SameUnder(ip, mask, a) <==> Masked(a, mask) == Masked(ip, mask)
  {
    hide And;
    var x, y := Masked(a, mask), Masked(ip, mask);
    if x == y {
      forall i | 0 <= i < |a| ensures And(ip[i], mask[i]) == And(a[i], mask[i]) {
        assert x[i] == y[i];
      }
    }
  }

  /** Two addresses agree under the mask exactly if they lie in the same block. */
  lemma SameBlock(a: seq<bv8>, b: seq<bv8>, mask: seq<bv8>, size: nat, p: nat, r: nat, q: nat, s: nat)
    requires |a| == |b| == |mask| && Aligned(a, mask, size, p, r) && Aligned(b, mask, size, q, s)
    ensures Masked(a, mask) == Masked(b, mask) <==> q * size <= Val(a) < q * size + size
  {
    hide Val, Masked, LastOf;
    if Val(Masked(a, mask)) == Val(Masked(b, mask)) { ValInjective(Masked(a, mask), Masked(b, mask)); }
    if q * size <= Val(a) < q * size + size { SameMultiple(size, q, p, Val(a)); }
  }

  function HostCount(ip: seq<bv8>, prefix: nat): nat
    requires prefix <= 8 * |ip|
  {
    Pow2(8 * |ip| - prefix)
  }

  /** A block of h host bits is exactly the 2^h addresses from its network address
      on, the broadcast address being the last. */
  lemma BlockExactly(ip: seq<bv8>, prefix: nat, a: seq<bv8>)
    requires prefix <= 8 * |ip| && |a| == |ip|
    ensures var n, size := Network(ip, prefix), HostCount(ip, prefix);
      && (SameUnder(n.ip, n.mask, a) <==> Val(n.ip) <= Val(a) < Val(n.ip) + size)
      && Val(LastOf(n.ip, n.mask)) == Val(n.ip) + size - 1
      && Val(n.ip) + size <= Pow2(8 * |ip|)
  {
    hide Val, Masked, LastOf, SameUnder, Pow2, Mask;
    var n, size := Network(ip, prefix), HostCount(ip, prefix);
    var q, s := AddressSplits(ip, 8 * |ip| - prefix);
    var p, r := AddressSplits(a, 8 * |ip| - prefix);
    MaskedTwice(ip, n.mask);
    SameByMask(n.ip, n.mask, a);
    ValBound(LastOf(n.ip, n.mask));
    SameBlock(a, ip, n.mask, size, p, r, q, s);
  }

  lemma RemainderIs(v: nat, p: nat, q: nat, r: nat)
    requires v == q * p + r && r < p
    ensures v % p == r
  {
    assert v == (v / p) * p + v % p;
    SameMultiple(p, q, v / p, v);
  }

  /** The network address of an address is the multiple of 2^h at or below it, so every
      address lies in the block of its own network. */
  lemma NetworkIs(ip: seq<bv8>, prefix: nat)
    requires prefix <= 8 * |ip|
    ensures Pow2(8 * |ip| - prefix) > 0
    ensures var n := Network(ip, prefix);
      && Val(n.ip) == Val(ip) - Val(ip) % Pow2(8 * |ip| - prefix)
      && SameUnder(n.ip, n.mask, ip)
  {
    hide Val, Masked, LastOf, SameUnder, Pow2, Mask;
    Pow2Positive(8 * |ip| - prefix);
    var q, r := AddressSplits(ip, 8 * |ip| - prefix);
    RemainderIs(Val(ip), Pow2(8 * |ip| - prefix), q, r);
    BlockExactly(ip, prefix, ip);
  }

  // ---- the IPv4-mapped addresses among the IPv6 ones ----

  function Clamp(x: int): nat
    ensures Clamp(x) <= 8
  {
    if x < 0 then 0 else if x > 8 then 8 else x
  }

  lemma {:induction false} MaskAt(n: nat, h: nat, i: nat)
    requires i < n
    ensures Mask(n, h)[i] == ByteMask(Clamp(h - 8 * (n - 1 - i)))
  {
    if i < n - 1 { MaskAt(n - 1, if h <= 8 then 0 else h - 8, i); }
  }

  lemma AllOnes(b: bv8, h: nat)
    requires h <= 8 && And(b, ByteMask(h)) == 0xFF
    ensures h == 0
  {
    assert ByteMask(h) == 0xFF by { AndFull(b, ByteMask(h)); }
  }

  lemma AndFull(a: bv8, b: bv8)
    requires And(a, b) == 0xFF
    ensures b == 0xFF
  {
  }

  lemma AndOnes(a: bv8)
    ensures And(a, 0xFF) == a
  {
  }

  /** A network address in the mapped block keeps the whole mapped prefix. */
  lemma MappedMask(ip: seq<bv8>, prefix: nat, i: nat)
    requires |ip| == 16 && prefix <= 128 && Mapped(Network(ip, prefix).ip) && i < 12
    ensures Network(ip, prefix).mask[i] == 0xFF
  {
    var n, h := Network(ip, prefix), 128 - prefix;
    assert n.ip[11] == n.ip[..12][11] == 0xFF;
    MaskAt(16, h, 11);
    hide Mask, ByteMask;
    assert n.ip[11] == And(ip[11], n.mask[11]);
    AllOnes(ip[11], Clamp(h - 32));
    MaskAt(16, h, i);
    assert Clamp(h - 8 * (15 - i)) == 0;
    assert ByteMask(0) == 0xFF by { FullByte(); }
  }

  lemma FullByte()
    ensures ByteMask(0) == 0xFF
  {
  }

  /** Contains is membership in the block, except that a network outside the mapped
      block contains no mapped address. */
  lemma ContainsByBlock(ip: seq<bv8>, prefix: nat, a: seq<bv8>)
    requires (|ip| == 4 || |ip| == 16) && prefix <= 8 * |ip| && |a| == |ip|
    ensures var n := Network(ip, prefix);
      n.Contains(a) <==> SameUnder(n.ip, n.mask, a) && (Mapped(a) ==> Mapped(n.ip))
  {
    var n := Network(ip, prefix);
    if Mapped(n.ip) {
      forall i | 0 <= i < 12 ensures n.mask[i] == 0xFF {
        MappedMask(ip, prefix, i);
      }
      hide Network;
      UnderMapped(n, a);
    }
  }

  lemma UnderMapped(n: IPNet, a: seq<bv8>)
    requires n.Valid() && Mapped(n.ip) && |a| == 16 && forall i :: 0 <= i < 12 ==> n.mask[i] == 0xFF
    ensures n.Contains(a) <==> SameUnder(n.ip, n.mask, a)
    ensures SameUnder(n.ip, n.mask, a) ==> Mapped(a)
  {
    var v4, m := n.ip[12..], n.mask[12..];
    if SameUnder(n.ip, n.mask, a) {
      forall i | 0 <= i < 12 ensures a[i] == n.ip[i] {
        AndOnes(a[i]);
        AndOnes(n.ip[i]);
      }
      assert a[..12] == n.ip[..12];
      forall i | 0 <= i < 4 ensures And(v4[i], m[i]) == And(a[12..][i], m[i]) {
        assert And(n.ip[12 + i], n.mask[12 + i]) == And(a[12 + i], n.mask[12 + i]);
      }
    }
    if n.Contains(a) {
      assert Mapped(a);
      forall i | 0 <= i < 16 ensures And(n.ip[i], n.mask[i]) == And(a[i], n.mask[i]) {
        if i < 12 {
          assert n.ip[i] == n.ip[..12][i] == a[..12][i] == a[i];
        } else {
          assert And(v4[i - 12], m[i - 12]) == And(a[12..][i - 12], m[i - 12]);
        }
      }
    }
  }

  /** The value of the first mapped address, ::ffff:0.0.0.0. */
  const MAPPED := 0xFFFF_0000_0000

  const MAPPED_END := 0x1_0000_0000_0000

  lemma {:induction false} ValConcat(a: seq<bv8>, b: seq<bv8>)
    ensures Val(a + b) == Val(a) * Pow2(8 * |b|) + Val(b)
  {
    if b == [] {
      assert a + b == a;
    } else {
      var front, last := b[..|b| - 1], b[|b| - 1];
      hide Val, Pow2;
      assert b == front + [last] && a + b == a + front + [last];
      ValSnoc(a + front, last);
      ValSnoc(front, last);
      ValConcat(a, front);
      Pow2OfByte(8 * |front|);
      Reassociate(Val(a), Pow2(8 * |front|));
    }
  }

  lemma Reassociate(a: nat, p: nat)
    ensures a * (256 * p) == 256 * (a * p)
  {
  }

  lemma PrefixValue()
    ensures Val(V4_PREFIX) == 0xFFFF && Pow2(32) == 0x1_0000_0000
  {
    assert V4_PREFIX[..10] == [0, 0, 0, 0, 0, 0, 0, 0, 0, 0];
    ZeroValue(V4_PREFIX[..10]);
    ValSnoc(V4_PREFIX[..10], 0xFF);
    ValSnoc(V4_PREFIX[..10] + [0xFF], 0xFF);
    assert V4_PREFIX == V4_PREFIX[..10] + [0xFF] + [0xFF];
    PowersOfByte();
    Pow2OfByte(8);
    Pow2OfByte(16);
    Pow2OfByte(24);
  }

  lemma {:induction false} ZeroValue(s: seq<bv8>)
    requires forall i :: 0 <= i < |s| ==> s[i] == 0
    ensures Val(s) == 0
  {
    if s != [] { ZeroValue(s[..|s| - 1]); }
  }

  /** The mapped addresses are a block of 2^32. */
  lemma MappedExactly(a: seq<bv8>)
    requires |a| == 16
    ensures Mapped(a) <==> MAPPED <= Val(a) < MAPPED_END
  {
    var head, tail := a[..12], a[12..];
    assert a == head + tail;
    hide Val, Pow2;
    ValConcat(head, tail);
    ValBound(tail);
    PrefixValue();
    assert Val(head) * Pow2(32) == Val(head) * 0x1_0000_0000;
    if Val(head) == 0xFFFF { ValInjective(head, V4_PREFIX); }
  }

  /** The slice after t turns of the loop. */
  function IncTimes(s: seq<bv8>, t: nat): (r: seq<bv8>)
    ensures |r| == |s|
  {
    if t == 0 then s else Inc(IncTimes(s, t - 1))
  }

  lemma {:induction false} TurnValue(base: seq<bv8>, t: nat)
    requires Val(base) + t <= Pow2(8 * |base|)
    ensures Val(IncTimes(base, t)) == if Val(base) + t == Pow2(8 * |base|) then 0 else Val(base) + t
  {
    if t == 0 {
      ValBound(base);
    } else {
      TurnValue(base, t - 1);
      IncAddsOne(IncTimes(base, t - 1));
    }
  }

  /** The networks that hold mapped addresses without being among them. */
  ghost predicate Cut(ip: seq<bv8>, prefix: nat)
    requires prefix <= 8 * |ip|
  {
    var base := Val(Network(ip, prefix).ip);
    |ip| == 16 && base < MAPPED < base + HostCount(ip, prefix)
  }

  /** How many turns the loop takes: the whole block, or up to the first mapped
      address, at which Contains answers no. */
  ghost function Turns(ip: seq<bv8>, prefix: nat): nat
    requires prefix <= 8 * |ip|
  {
    if Cut(ip, prefix) then MAPPED - Val(Network(ip, prefix).ip) else HostCount(ip, prefix)
  }

  /** What net.ParseCIDR can return, short of the whole IPv4 space. */
  ghost predicate Enumerable(ip: seq<bv8>, prefix: nat) {
    (|ip| == 4 && 1 <= prefix <= 32) || (|ip| == 16 && prefix <= 128)
  }

  /** An uncut block has no mapped address that its network address is not. */
  lemma UncutBlock(ip: seq<bv8>, prefix: nat, a: seq<bv8>)
    requires |ip| == |a| == 16 && prefix <= 128 && !Cut(ip, prefix)
    requires SameUnder(Network(ip, prefix).ip, Network(ip, prefix).mask, a) && Mapped(a)
    ensures Mapped(Network(ip, prefix).ip)
  {
    BlockExactly(ip, prefix, a);
    MappedExactly(a);
    MappedExactly(Network(ip, prefix).ip);
  }

  /** The loop's guard holds on exactly the first Turns slices: it leaves the network
      even when its last address is the all-ones address. */
  lemma GuardExact(ip: seq<bv8>, prefix: nat, t: nat)
    requires Enumerable(ip, prefix) && t <= Turns(ip, prefix)
    ensures var n := Network(ip, prefix);
      n.Contains(IncTimes(n.ip, t)) <==> t < Turns(ip, prefix)
  {
    hide Network, IPNet.Contains, Val, Pow2, IncTimes, LastOf, SameUnder, Mapped;
    var n := Network(ip, prefix);
    var cur := IncTimes(n.ip, t);
    BlockExactly(ip, prefix, cur);
    ContainsByBlock(ip, prefix, cur);
    TurnValue(n.ip, t);
    MappedLength(cur);
    if |ip| == 16 {
      MappedExactly(cur);
      MappedExactly(n.ip);
    }
    if Cut(ip, prefix) {
      assert Val(cur) == Val(n.ip) + t;
    } else {
      if prefix == 0 { WholeIsCut(ip); }
      Pow2Grows(8 * |ip| - prefix, 8 * |ip|);
      if t < HostCount(ip, prefix) && |ip| == 16 && Mapped(cur) { UncutBlock(ip, prefix, cur); }
    }
  }

  lemma MappedLength(a: seq<bv8>)
    ensures Mapped(a) ==> |a| == 16
  {
  }

  /** The whole IPv6 space is cut. */
  lemma WholeIsCut(ip: seq<bv8>)
    requires |ip| == 16
    ensures Cut(ip, 0)
  {
    BlockExactly(ip, 0, ip);
    Pow2Grows(48, 128);
    PrefixValue();
    Pow2OfByte(32);
    Pow2OfByte(40);
  }

  /** The loop ends exactly if its network is not the whole IPv4 space, which has no
      address outside it. */
  lemma LoopEnds(ip: seq<bv8>, prefix: nat)
    requires (|ip| == 4 || |ip| == 16) && prefix <= 8 * |ip|
    ensures var n := Network(ip, prefix);
      (exists t :: !n.Contains(IncTimes(n.ip, t))) <==> |ip| == 16 || prefix >= 1
  {
    hide Network, IPNet.Contains, IncTimes, HostCount, Cut;
    var n := Network(ip, prefix);
    if |ip| == 16 || prefix >= 1 {
      GuardExact(ip, prefix, Turns(ip, prefix));
    } else {
      forall t ensures n.Contains(IncTimes(n.ip, t)) {
        NoneOutside(ip, IncTimes(n.ip, t));
      }
    }
  }

  lemma NoneOutside(ip: seq<bv8>, a: seq<bv8>)
    requires |a| == |ip| == 4
    ensures Network(ip, 0).Contains(a)
  {
    BlockExactly(ip, 0, a);
    ContainsByBlock(ip, 0, a);
    ValBound(a);
  }

  /** The addresses right above base, in ascending order. */
  ghost predicate CountsUp(out: seq<seq<bv8>>, base: seq<bv8>, count: nat) {
    |out| == count && forall k :: 0 <= k < count ==> out[k] == IncTimes(base, 1 + k)
  }

  /** How many addresses t turns of the loop have collected. */
  function Collected(t: nat, size: nat): nat
    requires t <= size
  {
    if t == 0 || size == 1 then 0 else if t < size then t - 1 else size - 2
  }

  /** The two addresses the loop leaves out. */
  lemma LeftOut(ip: seq<bv8>, prefix: nat, t: nat)
    requires prefix <= 8 * |ip| && t < HostCount(ip, prefix)
    ensures var n := Network(ip, prefix); var cur := IncTimes(n.ip, t);
      (cur == n.ip <==> t == 0) && (cur == LastOf(n.ip, n.mask) <==> t == HostCount(ip, prefix) - 1)
  {
    var n := Network(ip, prefix);
    var cur := IncTimes(n.ip, t);
    BlockExactly(ip, prefix, cur);
    TurnValue(n.ip, t);
    hide Val, LastOf, Network, HostCount;
    if t == HostCount(ip, prefix) - 1 { ValInjective(cur, LastOf(n.ip, n.mask)); }
  }

  lemma TurnsBound(ip: seq<bv8>, prefix: nat)
    requires prefix <= 8 * |ip|
    ensures Turns(ip, prefix) <= HostCount(ip, prefix)
  {
  }

  method CIDRRange(ip: seq<bv8>, prefix: nat) returns (out: seq<seq<bv8>>)
    requires prefix <= 8 * |ip| && Enumerable(ip, prefix)
    ensures CountsUp(out, Network(ip, prefix).ip, Listed(ip, prefix)) && IsRange(ip, prefix, out)
  {
    hide *;
    var n := Network(ip, prefix);
    ghost var size, turns := HostCount(ip, prefix), Turns(ip, prefix);
    ListedIs(ip, prefix);
    ghost var t := 0;
    out := [];
    var cur := Copy(n.ip);
    Start(n.ip, size);
    GuardExact(ip, prefix, 0);
    while n.Contains(cur[..])
      invariant cur[..] == IncTimes(n.ip, t) && t <= turns && (n.Contains(cur[..]) <==> t < turns)
      invariant CountsUp(out, n.ip, Collected(t, size))
      decreases turns - t
    {
      LeftOut(ip, prefix, t);
      GuardExact(ip, prefix, t + 1);
      CollectStep(out, n.ip, LastOf(n.ip, n.mask), t, size);
      IncTimesStep(n.ip, t);
      var last := BroadcastIP(n);
      if cur[..] != n.ip && cur[..] != last[..] {
        out := out + [cur[..]];
      }
      IncIP(cur);
      t := t + 1;
    }
    RangeIsExact(ip, prefix, out);
  }

  lemma ListedIs(ip: seq<bv8>, prefix: nat)
    requires Enumerable(ip, prefix)
    ensures prefix <= 8 * |ip| && Network(ip, prefix).Valid()
    ensures Turns(ip, prefix) <= HostCount(ip, prefix)
    ensures Listed(ip, prefix) == Collected(Turns(ip, prefix), HostCount(ip, prefix))
  {
  }

  /** How many addresses the caller gets. */
  ghost function Listed(ip: seq<bv8>, prefix: nat): nat
    requires prefix <= 8 * |ip|
  {
    Collected(Turns(ip, prefix), HostCount(ip, prefix))
  }

  method Copy(s: seq<bv8>) returns (a: array<bv8>)
    ensures fresh(a) && a[..] == s
  {
    a := new bv8[|s|](i requires 0 <= i < |s| => s[i]);
  }

  lemma Start(base: seq<bv8>, size: nat)
    ensures IncTimes(base, 0) == base && CountsUp([], base, Collected(0, size))
  {
  }

  lemma IncTimesStep(s: seq<bv8>, t: nat)
    ensures IncTimes(s, t + 1) == Inc(IncTimes(s, t))
  {
  }

  lemma CollectStep(out: seq<seq<bv8>>, base: seq<bv8>, last: seq<bv8>, t: nat, size: nat)
    requires t < size && CountsUp(out, base, Collected(t, size))
    requires (IncTimes(base, t) == base <==> t == 0) && (IncTimes(base, t) == last <==> t == size - 1)
    ensures var cur := IncTimes(base, t);
      CountsUp(if cur != base && cur != last then out + [cur] else out, base, Collected(t + 1, size))
  {
  }

  /** What the caller gets, in terms of the address and the prefix alone. With h host
      bits the block starts at the multiple of 2^h at or below the address: out is every
      address of it but the first and the last, ascending by one; in an IPv6 block that
      reaches into the IPv4-mapped addresses, every one below those but the first. */
  ghost predicate IsRange(ip: seq<bv8>, prefix: nat, out: seq<seq<bv8>>)
    requires Enumerable(ip, prefix)
  {
    Pow2Positive(8 * |ip| - prefix);
    var size := Pow2(8 * |ip| - prefix);
    var base := Val(ip) - Val(ip) % size;
    var cut := |ip| == 16 && base < 0xFFFF_0000_0000 < base + size;
    && (|out| == if cut then 0xFFFF_0000_0000 - base - 1 else if 8 * |ip| - prefix >= 2 then size - 2 else 0)
    && (forall k :: 0 <= k < |out| ==> |out[k]| == |ip| && Val(out[k]) == base + 1 + k)
    && (forall a :: a in out <==>
         |a| == |ip| && base < Val(a) < base + size - 1 && (cut ==> Val(a) < 0xFFFF_0000_0000))
  }

  /** What CountsUp promises of the loop's result is that range; its addresses are also
      exactly those the network contains other than its own and the broadcast address. */
  lemma RangeIsExact(ip: seq<bv8>, prefix: nat, out: seq<seq<bv8>>)
    requires Enumerable(ip, prefix) && CountsUp(out, Network(ip, prefix).ip, Listed(ip, prefix))
    ensures IsRange(ip, prefix, out)
    ensures forall a :: a in out <==> Wanted(ip, prefix, a)
  {
    hide Network, IPNet.Contains, Val, Pow2, IncTimes, LastOf, Wanted, SameUnder;
    var n, size := Network(ip, prefix), HostCount(ip, prefix);
    SizeOf(8 * |ip| - prefix);
    NetworkIs(ip, prefix);
    BlockExactly(ip, prefix, n.ip);
    forall k | 0 <= k < |out| ensures |out[k]| == |ip| && Val(out[k]) == Val(n.ip) + 1 + k {
      TurnValue(n.ip, 1 + k);
    }
    forall a
      ensures a in out <==> Wanted(ip, prefix, a)
      ensures Wanted(ip, prefix, a) <==> |a| == |ip| && Val(n.ip) < Val(a) < Val(n.ip) + size - 1 && (Cut(ip, prefix) ==> Val(a) < MAPPED)
    {
      MemberExactly(ip, prefix, out, a);
      WantedByValue(ip, prefix, a);
    }
  }

  lemma WantedByValue(ip: seq<bv8>, prefix: nat, a: seq<bv8>)
    requires Enumerable(ip, prefix)
    ensures var base := Val(Network(ip, prefix).ip);
      Wanted(ip, prefix, a) <==>
        |a| == |ip| && base < Val(a) < base + HostCount(ip, prefix) - 1 && (Cut(ip, prefix) ==> Val(a) < MAPPED)
  {
    hide Network, IPNet.Contains, Val, LastOf, SameUnder, Mapped;
    var n := Network(ip, prefix);
    if |a| == |ip| {
      BlockExactly(ip, prefix, a);
      ContainsByBlock(ip, prefix, a);
      if Val(a) == Val(n.ip) { ValInjective(a, n.ip); }
      if Val(a) == Val(LastOf(n.ip, n.mask)) { ValInjective(a, LastOf(n.ip, n.mask)); }
      MappedLength(a);
      if |ip| == 16 {
        MappedExactly(a);
        MappedExactly(n.ip);
      }
      if prefix == 0 && |ip| == 16 { WholeIsCut(ip); }
    }
  }

  /** So a /24 is listed as the addresses with the same first three bytes, .1 to .254. */
  lemma LastByteRange(ip: seq<bv8>, out: seq<seq<bv8>>)
    requires |ip| == 4 && IsRange(ip, 24, out)
    ensures |out| == 254
    ensures forall k :: 0 <= k < 254 ==> |out[k]| == 4 && out[k][..3] == ip[..3] && Num(out[k][3]) == 1 + k
  {
    PowersOfByte();
    hide Val, Num, Pow2;
    forall k | 0 <= k < 254
      ensures |out[k]| == 4 && out[k][..3] == ip[..3] && Num(out[k][3]) == 1 + k
    {
      SameBlockOf256(ip, out[k], 1 + k);
    }
  }

  lemma SameBlockOf256(ip: seq<bv8>, a: seq<bv8>, k: nat)
    requires |ip| == |a| == 4 && k < 256 && Val(a) == Val(ip) - Val(ip) % 256 + k
    ensures a[..3] == ip[..3] && Num(a[3]) == k
  {
    hide Val, Num;
    assert ip == ip[..3] + [ip[3]] && a == a[..3] + [a[3]];
    ValSnoc(ip[..3], ip[3]);
    ValSnoc(a[..3], a[3]);
    NoneKept(ip[3]);
    NoneKept(a[3]);
    SameHead(Val(ip[..3]), Num(ip[3]), Val(a[..3]), Num(a[3]), k);
    ValInjective(a[..3], ip[..3]);
  }

  lemma SameHead(p: nat, i: nat, q: nat, j: nat, k: nat)
    requires i < 256 && j < 256 && k < 256
    requires 256 * q + j == (256 * p + i) - (256 * p + i) % 256 + k
    ensures p == q && j == k
  {
  }

  ghost predicate Wanted(ip: seq<bv8>, prefix: nat, a: seq<bv8>)
    requires Enumerable(ip, prefix)
  {
    var n := Network(ip, prefix);
    && |a| == |ip| && n.Contains(a) && a != n.ip && a != LastOf(n.ip, n.mask)
    && (Cut(ip, prefix) ==> Val(a) < MAPPED)
  }

  lemma SizeOf(h: nat)
    ensures h == 0 ==> Pow2(h) == 1
    ensures h == 1 ==> Pow2(h) == 2
    ensures h >= 2 ==> Pow2(h) >= 4
  {
    if h >= 2 { Pow2Positive(h - 2); }
  }

  lemma MemberExactly(ip: seq<bv8>, prefix: nat, out: seq<seq<bv8>>, a: seq<bv8>)
    requires Enumerable(ip, prefix) && CountsUp(out, Network(ip, prefix).ip, Listed(ip, prefix))
    ensures a in out <==> Wanted(ip, prefix, a)
  {
    hide Network, HostCount, IPNet.Contains, LastOf, IncTimes, Val, Inc, CountsUp, Collected, Cut;
    var n, size, turns := Network(ip, prefix), HostCount(ip, prefix), Turns(ip, prefix);
    TurnsBound(ip, prefix);
    if k :| 0 <= k < |out| && out[k] == a {
      Collects(n.ip, turns, size, out, k);
      LeftOut(ip, prefix, 1 + k);
      GuardExact(ip, prefix, 1 + k);
      BeforeCut(ip, prefix, 1 + k);
    }
    if Wanted(ip, prefix, a) {
      var t := TurnOf(ip, prefix, a);
      LeftOut(ip, prefix, t);
      assert IncTimes(n.ip, 0) == n.ip by { Start(n.ip, size); }
      Collects(n.ip, turns, size, out, t - 1);
    }
  }

  lemma BeforeCut(ip: seq<bv8>, prefix: nat, t: nat)
    requires Enumerable(ip, prefix) && t < Turns(ip, prefix)
    ensures |IncTimes(Network(ip, prefix).ip, t)| == |ip|
    ensures Cut(ip, prefix) ==> Val(IncTimes(Network(ip, prefix).ip, t)) < MAPPED
  {
    hide Val, Network, IncTimes;
    BlockExactly(ip, prefix, ip);
    TurnValue(Network(ip, prefix).ip, t);
  }

  lemma Collects(base: seq<bv8>, turns: nat, size: nat, out: seq<seq<bv8>>, k: nat)
    requires turns <= size && CountsUp(out, base, Collected(turns, size))
    ensures k < |out| <==> k + 1 < turns && k + 2 < size + (if turns < size then 1 else 0)
    ensures k < |out| ==> out[k] == IncTimes(base, 1 + k)
  {
  }

  /** The turn of the loop at which an address of the network comes up. */
  lemma TurnOf(ip: seq<bv8>, prefix: nat, a: seq<bv8>) returns (t: nat)
    requires Enumerable(ip, prefix) && Wanted(ip, prefix, a)
    ensures t < Turns(ip, prefix) && a == IncTimes(Network(ip, prefix).ip, t)
  {
    hide Val, IncTimes, LastOf, Network, SameUnder, IPNet.Contains;
    var n := Network(ip, prefix);
    BlockExactly(ip, prefix, a);
    ContainsByBlock(ip, prefix, a);
    t := Val(a) - Val(n.ip);
    TurnValue(n.ip, t);
    ValInjective(a, IncTimes(n.ip, t));
  }
}
