/** pkg/networking/ip.go: addresses as big-endian byte strings. */
module Networking {

  type Bytes = seq<bv8>

  /** The number a big-endian byte string stands for. */
  function Value(s: Bytes): nat {
    if s == [] then 0 else 256 * Value(s[..|s| - 1]) + s[|s| - 1] as int
  }

  function Pow256(n: nat): (p: nat)
    ensures p > 0
  {
    if n == 0 then 1 else 256 * Pow256(n - 1)
  }

  function Pow2(n: nat): (p: nat)
    ensures p > 0
  {
    if n == 0 then 1 else 2 * Pow2(n - 1)
  }

  lemma {:induction false} ValueBound(s: Bytes)
    ensures Value(s) < Pow256(|s|)
  {
    if s != [] {
      ValueBound(s[..|s| - 1]);
    }
  }

  lemma Regroup(a: int, p: int, b: int, c: int)
    ensures 256 * (a * p + b) + c == a * (256 * p) + (256 * b + c)
  {
  }

  lemma {:induction false} ValueSplit(s: Bytes, k: nat)
    requires k <= |s|
    ensures Value(s) == Value(s[..k]) * Pow256(|s| - k) + Value(s[k..])
  {
    if k < |s| {
      var init, tail := s[..|s| - 1], s[k..];
      ValueSplit(init, k);
      assert init[..k] == s[..k] && tail[..|tail| - 1] == init[k..] && tail[|tail| - 1] == s[|s| - 1];
      Regroup(Value(s[..k]), Pow256(|init| - k), Value(init[k..]), s[|s| - 1] as int);
    } else {
      assert s[..k] == s && s[k..] == [];
    }
  }

  lemma LastDigit(p: int, x: int, q: int, y: int)
    requires p * 256 + x == q * 256 + y && 0 <= x < 256 && 0 <= y < 256
    ensures p == q && x == y
  {
  }

  /** Byte strings of one length are determined by their number. */
  lemma {:induction false} ValueInjective(a: Bytes, b: Bytes)
    requires |a| == |b| && Value(a) == Value(b)
    ensures a == b
  {
    if a != [] {
      var n := |a| - 1;
      LastDigit(Value(a[..n]), a[n] as int, Value(b[..n]), b[n] as int);
      ValueInjective(a[..n], b[..n]);
      assert a == a[..n] + [a[n]] && b == b[..n] + [b[n]];
    }
  }

  /** The byte string after another one of the same length (wrapping to zero). */
  function NextBytes(s: Bytes): (r: Bytes)
    ensures |r| == |s|
  {
    if s == [] then []
    else if s[|s| - 1] == 0xFF then NextBytes(s[..|s| - 1]) + [0]
    else s[..|s| - 1] + [s[|s| - 1] + 1]
  }

  /** The successor modulo 256^n, for every length n. */
  lemma {:induction false} NextValue(s: Bytes)
    ensures Value(NextBytes(s)) == (Value(s) + 1) % Pow256(|s|)
  {
    if s != [] {
      if s[|s| - 1] == 0xFF {
        NextValue(s[..|s| - 1]);
        NextCarry(s);
      } else {
        NextNoCarry(s);
      }
    }
  }

  lemma NextCarry(s: Bytes)
    requires s != [] && s[|s| - 1] == 0xFF
    requires var init := s[..|s| - 1]; Value(NextBytes(init)) == (Value(init) + 1) % Pow256(|init|)
    ensures Value(NextBytes(s)) == (Value(s) + 1) % Pow256(|s|)
  {
    var next := NextBytes(s);
    assert next[..|s| - 1] == NextBytes(s[..|s| - 1]) && next[|s| - 1] == 0;
    assert Value(next) == 256 * Value(next[..|s| - 1]);
    assert Value(s) + 1 == 256 * (Value(s[..|s| - 1]) + 1);
    hide NextBytes, Value;
    ScaleMod(Value(s[..|s| - 1]) + 1, Pow256(|s| - 1));
  }

  lemma NextPlain(s: Bytes)
    requires s != [] && s[|s| - 1] != 0xFF
    ensures Value(NextBytes(s)) == Value(s) + 1
  {
    var next := NextBytes(s);
    IncrementByte(s[|s| - 1]);
    assert next[..|s| - 1] == s[..|s| - 1] && next[|s| - 1] == s[|s| - 1] + 1;
  }

  lemma NextNoCarry(s: Bytes)
    requires s != [] && s[|s| - 1] != 0xFF
    ensures Value(NextBytes(s)) == (Value(s) + 1) % Pow256(|s|)
  {
    hide *;
    NextPlain(s);
    ValueBound(NextBytes(s));
    SmallMod(Value(s) + 1, Pow256(|s|));
  }

  lemma NextUnlessWraps(s: Bytes)
    requires Value(s) + 1 != Pow256(|s|)
    ensures Value(NextBytes(s)) == Value(s) + 1
  {
    hide *;
    NextValue(s);
    ValueBound(s);
    SmallMod(Value(s) + 1, Pow256(|s|));
  }

  lemma ScaleMod(x: nat, p: nat)
    requires p > 0
    ensures (256 * x) % (256 * p) == 256 * (x % p)
  {
    var q, r := x / p, x % p;
    assert x == q * p + r;
    Regroup(q, p, r, 0);
    ModUnique(256 * x, 256 * p, q, 256 * r);
  }

  lemma ModUnique(x: int, m: int, q: int, r: int)
    requires 0 <= r < m && x == q * m + r
    ensures x % m == r
  {
    var q', r' := x / m, x % m;
    assert x == q' * m + r';
    if q < q' { MulMono(q + 1, q', m); Distribute(q, 1, m); }
    if q' < q { MulMono(q' + 1, q, m); Distribute(q', 1, m); }
  }

  /** NextIP: the carry loop computes the next byte string. */
  method NextIP(ip: array<bv8>) returns (next: array<bv8>)
    ensures next.Length == ip.Length && next[..] == NextBytes(ip[..])
  {
    var n := ip.Length;
    next := new bv8[n](k requires 0 <= k < ip.Length reads ip => ip[k]);
    ghost var s := ip[..];
    var i := n - 1;
    assert s[..n] == s && s + Zeros(0) == s && NextBytes(s) + Zeros(0) == NextBytes(s);
    while i >= 0
      invariant -1 <= i < n && ip[..] == s
      invariant next[..] == s[..i + 1] + Zeros(n - 1 - i)
      invariant NextBytes(s) == NextBytes(s[..i + 1]) + Zeros(n - 1 - i)
    {
      CarryStep(s, i, Zeros(n - 1 - i));
      assert next[i] == s[i];
      hide NextBytes, Zeros;
      next[i] := next[i] + 1;
      assert next[..] == s[..i] + [s[i] + 1] + Zeros(n - 1 - i);
      if next[i] != 0 {
        return;
      }
      i := i - 1;
    }
  }

  function Zeros(n: nat): (z: Bytes)
    ensures |z| == n
  {
    seq(n, _ => 0)
  }

  /** One byte of the carry loop: a full byte becomes 0 and carries on, any other is incremented. */
  lemma CarryStep(s: Bytes, i: nat, tail: Bytes)
    requires i < |s| && tail == Zeros(|s| - 1 - i)
    ensures s[i] + 1 != 0 ==> NextBytes(s[..i + 1]) + tail == s[..i] + [s[i] + 1] + tail
    ensures s[i] + 1 == 0 ==> NextBytes(s[..i + 1]) + tail == NextBytes(s[..i]) + Zeros(|s| - i)
    ensures s[i] + 1 == 0 ==> s[..i] + [s[i] + 1] + tail == s[..i] + Zeros(|s| - i)
  {
    var prefix := s[..i + 1];
    assert prefix[..i] == s[..i] && prefix[i] == s[i];
    assert s[i] + 1 == 0 <==> s[i] == 0xFF;
    assert [0] + Zeros(|s| - 1 - i) == Zeros(|s| - i);
  }

  lemma {:induction false} AllOnes(s: Bytes)
    requires forall k :: 0 <= k < |s| ==> s[k] == 0xFF
    ensures Value(s) == Pow256(|s|) - 1
  {
    if s != [] {
      AllOnes(s[..|s| - 1]);
    }
  }

  lemma {:induction false} AllZero(s: Bytes)
    requires forall k :: 0 <= k < |s| ==> s[k] == 0
    ensures Value(s) == 0
  {
    if s != [] {
      AllZero(s[..|s| - 1]);
    }
  }

  lemma IncrementByte(x: bv8)
    requires x != 0xFF
    ensures (x + 1) as int == x as int + 1
  {
  }

  lemma SmallMod(x: nat, m: nat)
    requires x < m
    ensures x % m == x
  {
  }

  /** BroadcastFromIPNet: every host bit set. */
  method BroadcastFromIPNet(ip: array<bv8>, mask: array<bv8>) returns (broadcast: array<bv8>)
    requires mask.Length == ip.Length
    ensures broadcast.Length == ip.Length
    ensures broadcast[..] == Broadcast(ip[..], mask[..])
  {
    broadcast := new bv8[ip.Length](k requires 0 <= k < ip.Length reads ip => ip[k]);
    for i := 0 to ip.Length
      invariant forall k :: 0 <= k < i ==> broadcast[k] == ip[k] | !mask[k]
    {
      broadcast[i] := ip[i] | !mask[i];
    }
    assert broadcast[..] == Broadcast(ip[..], mask[..]);
  }

  function Broadcast(ip: Bytes, mask: Bytes): (r: Bytes)
    requires |ip| == |mask|
    ensures |r| == |ip|
  {
    seq(|ip|, i requires 0 <= i < |ip| => HostFilled(ip[i], mask[i]))
  }

  // ---------------------------------------------------------------------------------------------
  // Prefix masks.

  function MaskByte(ones: nat): bv8
    requires ones <= 8
  {
    if ones == 0 then 0x00 else if ones == 1 then 0x80 else if ones == 2 then 0xC0 else if ones == 3 then 0xE0
    else if ones == 4 then 0xF0 else if ones == 5 then 0xF8 else if ones == 6 then 0xFC else if ones == 7 then 0xFE
    else 0xFF
  }

  /** The mask of n bytes whose first bits are ones. */
  function PrefixMask(n: nat, ones: nat): (r: Bytes)
    requires ones <= 8 * n
    ensures |r| == n
  {
    if n == 0 then []
    else [MaskByte(if ones < 8 then ones else 8)] + PrefixMask(n - 1, if ones < 8 then 0 else ones - 8)
  }

  predicate Masked(a: bv8, m: bv8, i: bv8) {
    a & m == i
  }

  function HostFilled(i: bv8, m: bv8): bv8 {
    i | !m
  }

  /** The address is a network address: no host bit is set. */
  ghost predicate IsNetwork(ip: Bytes, mask: Bytes)
    requires |ip| == |mask|
  {
    forall i :: 0 <= i < |ip| ==> Masked(ip[i], mask[i], ip[i])
  }

  /** The addresses of a network. */
  ghost predicate Contains(ip: Bytes, mask: Bytes, a: Bytes)
    requires |ip| == |mask| == |a|
  {
    forall i :: 0 <= i < |ip| ==> Masked(a[i], mask[i], ip[i])
  }

  lemma MaskedBlock(a: bv8, i: bv8, m: bv8, ones: nat)
    requires ones <= 8 && m == MaskByte(ones) && Masked(i, m, i)
    ensures Masked(a, m, i) <==> i <= a <= HostFilled(i, m)
  {
  }

  lemma ByteOrder(a: bv8, b: bv8)
    ensures a <= b <==> a as int <= b as int
  {
  }

  lemma SetHostBits(i: bv8, m: bv8)
    requires Masked(i, m, i)
    ensures HostFilled(i, m) as int == i as int + (255 - m as int)
  {
    hide *;
    var hosts := HostPart(i, m);
    OrIsSum(i, hosts);
  }

  /** The host bits of a mask as a byte. */
  lemma HostPart(i: bv8, m: bv8) returns (hosts: bv8)
    requires Masked(i, m, i)
    ensures hosts as int == 255 - m as int && i & hosts == 0 && HostFilled(i, m) == i | hosts
  {
    hosts := !m;
  }

  lemma OrIsSum(a: bv8, b: bv8)
    requires a & b == 0
    ensures (a | b) as int == a as int + b as int
  {
  }

  lemma HostBits(ones: nat)
    requires ones <= 8
    ensures 255 - MaskByte(ones) as int == Pow2(8 - ones) - 1
  {
    assert Pow2(0) == 1 && Pow2(1) == 2 && Pow2(2) == 4 && Pow2(3) == 8 && Pow2(4) == 16;
    assert Pow2(5) == 32 && Pow2(6) == 64 && Pow2(7) == 128 && Pow2(8) == 256;
  }

  lemma BlockOrder(a: bv8, i: bv8, top: bv8)
    ensures i <= a <= top <==> i as int <= a as int <= top as int
  {
    ByteOrder(i, a);
    ByteOrder(a, top);
  }

  lemma ByteTop(i: bv8, m: bv8, ones: nat)
    requires ones <= 8 && m == MaskByte(ones) && Masked(i, m, i)
    ensures HostFilled(i, m) as int == i as int + Pow2(8 - ones) - 1
  {
    hide *;
    SetHostBits(i, m);
    HostBits(ones);
  }

  /** One byte: the addresses of a block of 2^(8 - ones) are consecutive, and setting the host bits
      reaches its end. */
  lemma ByteBlock(a: bv8, i: bv8, m: bv8, ones: nat)
    requires ones <= 8 && m == MaskByte(ones) && Masked(i, m, i)
    ensures Masked(a, m, i) <==> i as int <= a as int < i as int + Pow2(8 - ones)
    ensures HostFilled(i, m) as int == i as int + Pow2(8 - ones) - 1
  {
    hide *;
    var top := HostFilled(i, m);
    ByteTop(i, m, ones);
    MaskedBlock(a, i, m, ones);
    BlockOrder(a, i, top);
  }

  lemma Front(s: Bytes)
    requires s != []
    ensures Value(s) == (s[0] as int) * Pow256(|s| - 1) + Value(s[1..])
  {
    ValueSplit(s, 1);
    assert s[..1][..0] == [];
  }

  lemma {:induction false} Pow2Of8(n: nat)
    ensures Pow2(8 * n) == Pow256(n)
  {
    if n > 0 {
      Pow2Of8(n - 1);
      Pow2Sum(8, 8 * (n - 1));
      assert Pow2(4) == 16 && Pow2(8) == 16 * Pow2(4);
    }
  }

  lemma {:induction false} Pow2Sum(a: nat, b: nat)
    ensures Pow2(a + b) == Pow2(a) * Pow2(b)
  {
    if a > 0 {
      Pow2Sum(a - 1, b);
      DoubleLeft(Pow2(a - 1), Pow2(b));
    }
  }

  lemma DoubleLeft(x: int, y: int)
    ensures (2 * x) * y == 2 * (x * y)
  {
  }

  lemma MulMono(x: int, y: int, p: int)
    requires x <= y && 0 <= p
    ensures x * p <= y * p
  {
  }

  lemma Distribute(x: int, y: int, p: int)
    ensures (x + y) * p == x * p + y * p
  {
  }

  lemma HighByteDecides(i: int, a: int, b: int, p: int, low: int)
    requires 0 <= low < p
    ensures i <= a < i + b <==> i * p <= a * p + low < i * p + b * p
  {
    Distribute(i, b, p);
    if i <= a { MulMono(i, a, p); } else { MulMono(a + 1, i, p); Distribute(a, 1, p); }
    if a < i + b { MulMono(a + 1, i + b, p); Distribute(a, 1, p); } else { MulMono(i + b, a, p); }
  }

  lemma LowBytesDecide(i: int, a: int, p: int, v: int, low: int, h: int)
    requires 0 <= low < p && 0 <= v && 1 <= h && v + h <= p
    ensures a == i && v <= low < v + h <==> i * p + v <= a * p + low < i * p + v + h
  {
    if a < i { MulMono(a + 1, i, p); Distribute(a, 1, p); }
    if a > i { MulMono(i + 1, a, p); Distribute(i, 1, p); }
  }

  function FirstOnes(ones: nat): (r: nat)
    ensures r <= 8
  {
    if ones < 8 then ones else 8
  }

  function OtherOnes(ones: nat): nat {
    if ones < 8 then 0 else ones - 8
  }

  /** The size of a network: one byte's block times the rest, or the rest alone. */
  lemma BlockSize(n: nat, ones: nat)
    requires 0 < n && ones <= 8 * n
    ensures ones < 8 ==> Pow2(8 * n - ones) == Pow2(8 - ones) * Pow256(n - 1)
    ensures ones >= 8 ==> Pow2(8 * n - ones) == Pow2(8 * (n - 1) - OtherOnes(ones))
    ensures Pow2(8 * (n - 1)) == Pow256(n - 1)
  {
    Pow2Of8(n - 1);
    if ones < 8 {
      Pow2Sum(8 - ones, 8 * (n - 1));
    }
  }

  lemma PrefixFront(n: nat, ones: nat)
    requires 0 < n && ones <= 8 * n
    ensures OtherOnes(ones) <= 8 * (n - 1)
    ensures PrefixMask(n, ones)[0] == MaskByte(FirstOnes(ones))
    ensures PrefixMask(n, ones)[1..] == PrefixMask(n - 1, OtherOnes(ones))
  {
    hide MaskByte;
    assert PrefixMask(n, ones)[1..] == PrefixMask(n - 1, OtherOnes(ones));
  }

  lemma NetworkFront(ip: Bytes, mask: Bytes)
    requires ip != [] && |mask| == |ip| && IsNetwork(ip, mask)
    ensures Masked(ip[0], mask[0], ip[0]) && IsNetwork(ip[1..], mask[1..])
    ensures Broadcast(ip, mask)[0] == HostFilled(ip[0], mask[0])
    ensures Broadcast(ip, mask)[1..] == Broadcast(ip[1..], mask[1..])
  {
    hide Masked, HostFilled;
    forall i | 0 <= i < |ip| - 1 ensures Masked(ip[1..][i], mask[1..][i], ip[1..][i]) {
      assert Masked(ip[i + 1], mask[i + 1], ip[i + 1]);
    }
  }

  lemma ContainsFront(ip: Bytes, mask: Bytes, a: Bytes)
    requires ip != [] && |a| == |ip| == |mask|
    ensures Contains(ip, mask, a) <==> Masked(a[0], mask[0], ip[0]) && Contains(ip[1..], mask[1..], a[1..])
  {
    hide Masked;
    if Contains(ip, mask, a) {
      forall i | 0 <= i < |ip| - 1 ensures Masked(a[1..][i], mask[1..][i], ip[1..][i]) {
        assert Masked(a[i + 1], mask[i + 1], ip[i + 1]);
      }
    } else if Masked(a[0], mask[0], ip[0]) && Contains(ip[1..], mask[1..], a[1..]) {
      forall k | 0 <= k < |ip| ensures Masked(a[k], mask[k], ip[k]) {
        assert k > 0 ==> Masked(a[1..][k - 1], mask[1..][k - 1], ip[1..][k - 1]);
      }
    }
  }

  lemma EmptyNetwork()
    ensures forall ip: Bytes :: ip == [] ==> Value(ip) == 0 && Pow2(8 * |ip|) == 1 && Pow256(|ip|) == 1
    ensures PrefixMask(0, 0) == [] && Broadcast([], []) == []
    ensures Contains([], [], [])
    ensures Pow2(0) == 1 && Pow256(0) == 1 && Value([]) == 0
  {
  }

  /** The broadcast address is the network address plus the size of the network less one. */
  lemma {:induction false} NetworkBlock(ip: Bytes, ones: nat)
    requires ones <= 8 * |ip| && IsNetwork(ip, PrefixMask(|ip|, ones))
    ensures Value(ip) + Pow2(8 * |ip| - ones) <= Pow256(|ip|)
    ensures Value(Broadcast(ip, PrefixMask(|ip|, ones))) == Value(ip) + Pow2(8 * |ip| - ones) - 1
  {
    hide *;
    if ip == [] {
      EmptyNetwork();
      return;
    }
    var rest, ones' := ip[1..], OtherOnes(ones);
    var mask := PrefixMask(|ip|, ones);
    PrefixFront(|ip|, ones);
    NetworkFront(ip, mask);
    NetworkBlock(rest, ones');
    BlockSize(|ip|, ones);
    Front(ip);
    Front(Broadcast(ip, mask));
    ByteBlock(ip[0], ip[0], mask[0], FirstOnes(ones));
    ByteRange(HostFilled(ip[0], mask[0]));
    FirstBlock(|ip|, ones, ip[0] as int, HostFilled(ip[0], mask[0]) as int, Value(rest),
        Value(Broadcast(rest, mask[1..])));
  }

  lemma FirstBlock(n: nat, ones: nat, first: nat, top: nat, low: nat, high: nat)
    requires 0 < n && ones <= 8 * n && OtherOnes(ones) <= 8 * (n - 1)
    requires top == first + Pow2(8 - FirstOnes(ones)) - 1 && top <= 255
    requires var h := Pow2(8 * (n - 1) - OtherOnes(ones));
             low + h <= Pow256(n - 1) && high == low + h - 1
    ensures var h := Pow2(8 * n - ones);
            && first * Pow256(n - 1) + low + h <= Pow256(n)
            && top * Pow256(n - 1) + high == first * Pow256(n - 1) + low + h - 1
  {
    var p, i, b := Pow256(n - 1), first, Pow2(8 - FirstOnes(ones));
    BlockSize(n, ones);
    assert Pow256(n) == 256 * p;
    hide *;
    Distribute(i, b, p);
    Distribute(i + b, -1, p);
    MulMono(i + b, 256, p);
    PowZero();
    FirstOnesCases(ones);
  }

  lemma FirstOnesCases(ones: nat)
    ensures ones >= 8 ==> FirstOnes(ones) == 8
    ensures ones < 8 ==> FirstOnes(ones) == ones && OtherOnes(ones) == 0
  {
  }

  lemma PowZero()
    ensures Pow2(0) == 1
  {
  }

  lemma ByteRange(b: bv8)
    ensures 0 <= b as int <= 255
  {
  }

  /** The addresses of a prefix are the numbers from the network address up to its size. */
  lemma {:induction false} NetworkMembers(ip: Bytes, ones: nat, a: Bytes)
    requires ones <= 8 * |ip| && IsNetwork(ip, PrefixMask(|ip|, ones)) && |a| == |ip|
    ensures Contains(ip, PrefixMask(|ip|, ones), a) <==> Value(ip) <= Value(a) < Value(ip) + Pow2(8 * |ip| - ones)
  {
    hide *;
    if ip == [] {
      EmptyNetwork();
      assert a == [];
      return;
    }
    var rest, ones' := ip[1..], OtherOnes(ones);
    var mask := PrefixMask(|ip|, ones);
    PrefixFront(|ip|, ones);
    NetworkFront(ip, mask);
    ContainsFront(ip, mask, a);
    NetworkMembers(rest, ones', a[1..]);
    NetworkBlock(rest, ones');
    Front(ip);
    Front(a);
    ValueBound(a[1..]);
    ByteBlock(a[0], ip[0], mask[0], FirstOnes(ones));
    FirstMembers(|ip|, ones, ip[0] as int, a[0] as int, Value(rest), Value(a[1..]));
  }

  lemma FirstMembers(n: nat, ones: nat, i: nat, a: nat, v: nat, low: nat)
    requires 0 < n && ones <= 8 * n && OtherOnes(ones) <= 8 * (n - 1)
    requires v + Pow2(8 * (n - 1) - OtherOnes(ones)) <= Pow256(n - 1) && low < Pow256(n - 1)
    ensures var h := Pow2(8 * (n - 1) - OtherOnes(ones));
            i <= a < i + Pow2(8 - FirstOnes(ones)) && v <= low < v + h
            <==> i * Pow256(n - 1) + v <= a * Pow256(n - 1) + low < i * Pow256(n - 1) + v + Pow2(8 * n - ones)
  {
    var p := Pow256(n - 1);
    hide *;
    BlockSize(n, ones);
    PowZero();
    FirstOnesCases(ones);
    if ones < 8 {
      HighByteDecides(i, a, Pow2(8 - ones), p, low);
    } else {
      LowBytesDecide(i, a, p, v, low, Pow2(8 * (n - 1) - OtherOnes(ones)));
    }
  }

  /** The half-open interval from the network address to the address after the broadcast address holds exactly
      the addresses of the prefix, unless the successor wraps; it wraps exactly when the broadcast address is
      all ones. */
  lemma IntervalExact(ip: Bytes, ones: nat)
    requires ones <= 8 * |ip| && IsNetwork(ip, PrefixMask(|ip|, ones))
    ensures (forall a :: |a| == |ip| ==>
              (Contains(ip, PrefixMask(|ip|, ones), a) <==> InInterval(ip, End(ip, ones), a)))
            <==> Value(Broadcast(ip, PrefixMask(|ip|, ones))) + 1 != Pow256(|ip|)
  {
    hide *;
    if Value(Broadcast(ip, PrefixMask(|ip|, ones))) + 1 == Pow256(|ip|) {
      EndWraps(ip, ones);
    } else {
      forall a: Bytes | |a| == |ip|
        ensures Contains(ip, PrefixMask(|ip|, ones), a) <==> InInterval(ip, End(ip, ones), a)
      {
        EndExact(ip, ones, a);
      }
    }
  }

  predicate InInterval(start: Bytes, end: Bytes, a: Bytes) {
    Value(start) <= Value(a) < Value(end)
  }

  /** The end of the set element of a prefix. */
  function End(ip: Bytes, ones: nat): Bytes
    requires ones <= 8 * |ip|
  {
    NextBytes(Broadcast(ip, PrefixMask(|ip|, ones)))
  }

  lemma EndWraps(ip: Bytes, ones: nat)
    requires ones <= 8 * |ip| && IsNetwork(ip, PrefixMask(|ip|, ones))
    requires Value(Broadcast(ip, PrefixMask(|ip|, ones))) + 1 == Pow256(|ip|)
    ensures Contains(ip, PrefixMask(|ip|, ones), ip) && !InInterval(ip, End(ip, ones), ip)
  {
    hide Value, Pow256, Pow2, NextBytes, Broadcast, PrefixMask, MaskByte, Contains, IsNetwork, Masked, HostFilled;
    var broadcast := Broadcast(ip, PrefixMask(|ip|, ones));
    NextValue(broadcast);
    SelfMod(Pow256(|ip|));
    NetworkMembers(ip, ones, ip);
  }

  lemma EndExact(ip: Bytes, ones: nat, a: Bytes)
    requires ones <= 8 * |ip| && IsNetwork(ip, PrefixMask(|ip|, ones)) && |a| == |ip|
    requires Value(Broadcast(ip, PrefixMask(|ip|, ones))) + 1 != Pow256(|ip|)
    ensures Contains(ip, PrefixMask(|ip|, ones), a) <==> InInterval(ip, End(ip, ones), a)
  {
    hide Value, Pow256, Pow2, NextBytes, Broadcast, PrefixMask, MaskByte, Contains, IsNetwork, Masked, HostFilled;
    var broadcast := Broadcast(ip, PrefixMask(|ip|, ones));
    NetworkBlock(ip, ones);
    NetworkMembers(ip, ones, a);
    NextUnlessWraps(broadcast);
  }

  lemma SelfMod(m: nat)
    requires m > 0
    ensures m % m == 0
  {
  }
}
