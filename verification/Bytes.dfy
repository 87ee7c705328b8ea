/** Fixed-width integers, bitwise operators on naturals, and the big-endian byte order of the wire. */
module Bytes {
  type byte = x: int | 0 <= x < 0x100
  type uint16 = x: int | 0 <= x < 0x1_0000
  type uint32 = x: int | 0 <= x < 0x1_0000_0000
  type uint64 = x: int | 0 <= x < 0x1_0000_0000_0000_0000

  datatype Option<+T> = None | Some(value: T)

  function Flatten(pieces: seq<seq<byte>>): seq<byte> {
    if pieces == [] then [] else pieces[0] + Flatten(pieces[1..])
  }

  function Pow256(n: nat): nat {
    if n == 0 then 1 else 256 * Pow256(n - 1)
  }

  /** The `n` low-order bytes of `x`, most significant first. */
  function BE(n: nat, x: nat): (s: seq<byte>)
    ensures |s| == n
  {
    if n == 0 then [] else BE(n - 1, x / 256) + [x % 256]
  }

  function FromBE(s: seq<byte>): (x: nat)
    ensures x < Pow256(|s|)
  {
    if s == [] then 0 else FromBE(s[..|s| - 1]) * 256 + s[|s| - 1]
  }

  lemma {:induction false} DecodeEncode(n: nat, x: nat)
    requires x < Pow256(n)
    ensures FromBE(BE(n, x)) == x
  {
    if n != 0 {
      DecodeEncode(n - 1, x / 256);
      assert BE(n, x)[..n - 1] == BE(n - 1, x / 256);
    }
  }

  lemma {:induction false} EncodeDecode(s: seq<byte>)
    ensures BE(|s|, FromBE(s)) == s
  {
    if s != [] {
      EncodeDecode(s[..|s| - 1]);
    }
  }

  /** Most significant byte first: byte `i` of `n` is the digit of weight 256^(n-1-i). */
  lemma {:induction false} BEIsBigEndian(n: nat, x: nat, i: nat)
    requires i < n
    ensures Pow256(n - 1 - i) > 0 && BE(n, x)[i] == x / Pow256(n - 1 - i) % 256
    decreases n
  {
    PowGrows(0, n - 1 - i);
    if i < n - 1 {
      BEIsBigEndian(n - 1, x / 256, i);
      DivDiv(x, 256, Pow256(n - 2 - i));
      assert Pow256(n - 1 - i) == 256 * Pow256(n - 2 - i);
    }
  }

  lemma TwoBytes(x: uint16)
    ensures BE(2, x) == [x / 256, x % 256]
  {
    assert BE(2, x) == BE(1, x / 256) + [x % 256] && BE(1, x / 256) == BE(0, 0) + [x / 256];
  }

  lemma FourBytes(x: uint32)
    ensures BE(4, x) == [x / 0x100_0000, x / 0x1_0000 % 256, x / 256 % 256, x % 256]
  {
    var y := x / 256;
    var z := y / 256;
    assert BE(4, x) == BE(3, y) + [x % 256] && BE(3, y) == BE(2, z) + [y % 256];
    TwoBytes(z);
  }

  lemma DivDiv(x: nat, a: nat, b: nat)
    requires a > 0 && b > 0
    ensures a * b > 0 && x / a / b == x / (a * b)
  {
    var p, r := x / a, x % a;
    var q, t := p / b, p % b;
    Nested(a, b, p, q, r, t);
    Quotient(x, a * b, q, a * t + r);
  }

  lemma Nested(a: nat, b: nat, p: nat, q: nat, r: nat, t: nat)
    requires p == b * q + t && r < a && t < b
    ensures a * p + r == (a * b) * q + (a * t + r) && a * t + r < a * b
  {
    Distribute(a, b * q, t);
    Reassociate(a, b, q);
    Distribute(a, t, 1);
    Monotone(a, t + 1, b);
  }

  lemma Distribute(a: nat, b: nat, c: nat)
    ensures a * (b + c) == a * b + a * c
  {
  }

  lemma Reassociate(a: nat, b: nat, c: nat)
    ensures a * (b * c) == (a * b) * c
  {
  }

  lemma Monotone(a: nat, b: nat, c: nat)
    requires b <= c
    ensures a * b <= a * c
  {
  }

  lemma Quotient(x: nat, m: nat, q: nat, r: nat)
    requires m > 0 && x == m * q + r && r < m
    ensures x / m == q
  {
    var d := x / m;
    assert x == m * d + x % m;
    if d < q {
      Monotone(m, d + 1, q);
    } else if d > q {
      Monotone(m, q + 1, d);
    }
  }

  lemma Widths()
    ensures Pow256(1) == 0x100
    ensures Pow256(2) == 0x1_0000
    ensures Pow256(4) == 0x1_0000_0000
    ensures Pow256(8) == 0x1_0000_0000_0000_0000
  {
    assert Pow256(2) == 256 * Pow256(1);
    assert Pow256(3) == 256 * Pow256(2);
    assert Pow256(4) == 256 * Pow256(3);
    assert Pow256(5) == 256 * Pow256(4);
    assert Pow256(6) == 256 * Pow256(5);
    assert Pow256(7) == 256 * Pow256(6);
    assert Pow256(8) == 256 * Pow256(7);
  }

  // ----- UINT16 arithmetic

  /** The C cast to UINT16. */
  function Low16(n: nat): uint16 {
    if n < 0x1_0000 then n else Low16(n - 0x1_0000)
  }

  function Add16(a: uint16, b: uint16): uint16 {
    Low16(a + b)
  }

  lemma {:induction false} Low16IsModulo(n: nat)
    ensures Low16(n) == n % 0x1_0000
  {
    if n >= 0x1_0000 {
      Low16IsModulo(n - 0x1_0000);
    }
  }

  lemma Low16Adds(a: nat, b: nat)
    ensures Add16(Low16(a), Low16(b)) == Low16(a + b)
    ensures Add16(0, Low16(a)) == Low16(a)
  {
    Low16IsModulo(a);
    Low16IsModulo(b);
    Low16IsModulo(a + b);
    Low16IsModulo(Low16(a) + Low16(b));
  }

  // ----- Bitwise operators, defined on naturals so that no width is implied

  function And(x: nat, y: nat): (z: nat)
    ensures z <= x && z <= y
  {
    if x == 0 || y == 0 then 0 else 2 * And(x / 2, y / 2) + (if x % 2 == 1 && y % 2 == 1 then 1 else 0)
  }

  function Or(x: nat, y: nat): nat {
    if x == 0 && y == 0 then 0
    else 2 * Or(x / 2, y / 2) + (if x % 2 == 1 || y % 2 == 1 then 1 else 0)
  }

  function Xor(x: nat, y: nat): nat {
    if x == 0 && y == 0 then 0
    else 2 * Xor(x / 2, y / 2) + (if x % 2 == y % 2 then 0 else 1)
  }

  // ----- The same operators bit by bit

  function Pow2(n: nat): nat {
    if n == 0 then 1 else 2 * Pow2(n - 1)
  }

  /** Bit `i` of a number, the low-order bit being bit 0. */
  predicate Bit(x: nat, i: nat) {
    Pow2IsPositive(i);
    x / Pow2(i) % 2 == 1
  }

  lemma {:induction false} Pow2IsPositive(n: nat)
    ensures Pow2(n) > 0
  {
    if n > 0 {
      Pow2IsPositive(n - 1);
    }
  }

  lemma BitOfHalf(x: nat, i: nat)
    ensures Bit(x, 0) <==> x % 2 == 1
    ensures i > 0 ==> (Bit(x, i) <==> Bit(x / 2, i - 1))
  {
    if i > 0 {
      Pow2IsPositive(i - 1);
      DivDiv(x, 2, Pow2(i - 1));
    }
  }

  lemma {:induction false} ZeroHasNoBits(i: nat)
    ensures !Bit(0, i)
  {
    BitOfHalf(0, i);
    if i > 0 {
      ZeroHasNoBits(i - 1);
    }
  }

  lemma {:induction false} AndBits(x: nat, y: nat, i: nat)
    ensures Bit(And(x, y), i) <==> Bit(x, i) && Bit(y, i)
    decreases i
  {
    BitOfHalf(x, i);
    BitOfHalf(y, i);
    BitOfHalf(And(x, y), i);
    if x == 0 || y == 0 {
      ZeroHasNoBits(i);
    } else if i > 0 {
      assert And(x, y) / 2 == And(x / 2, y / 2);
      AndBits(x / 2, y / 2, i - 1);
    }
  }

  lemma {:induction false} OrBits(x: nat, y: nat, i: nat)
    ensures Bit(Or(x, y), i) <==> Bit(x, i) || Bit(y, i)
    decreases i
  {
    BitOfHalf(x, i);
    BitOfHalf(y, i);
    BitOfHalf(Or(x, y), i);
    if x == 0 && y == 0 {
      ZeroHasNoBits(i);
    } else if i > 0 {
      assert Or(x, y) / 2 == Or(x / 2, y / 2);
      OrBits(x / 2, y / 2, i - 1);
    }
  }

  lemma {:induction false} XorBits(x: nat, y: nat, i: nat)
    ensures Bit(Xor(x, y), i) <==> Bit(x, i) != Bit(y, i)
    decreases i
  {
    BitOfHalf(x, i);
    BitOfHalf(y, i);
    BitOfHalf(Xor(x, y), i);
    if x == 0 && y == 0 {
      ZeroHasNoBits(i);
    } else if i > 0 {
      assert Xor(x, y) / 2 == Xor(x / 2, y / 2);
      XorBits(x / 2, y / 2, i - 1);
    }
  }

  lemma {:induction false} SomeBit(x: nat) returns (i: nat)
    requires x > 0
    ensures Bit(x, i)
  {
    BitOfHalf(x, 0);
    if x % 2 == 1 {
      i := 0;
    } else {
      i := SomeBit(x / 2);
      i := i + 1;
      BitOfHalf(x, i);
    }
  }

  /** Whether no bit of `mask` is set in `x`. */
  ghost predicate Clear(x: nat, mask: nat) {
    forall i: nat :: !(Bit(x, i) && Bit(mask, i))
  }

  /** A word passes a mask test exactly if it shares no bit with the mask. */
  lemma AndIsClear(x: nat, mask: nat)
    ensures And(x, mask) == 0 <==> Clear(x, mask)
  {
    if And(x, mask) == 0 {
      forall i: nat ensures !(Bit(x, i) && Bit(mask, i)) {
        AndBits(x, mask, i);
        ZeroHasNoBits(i);
      }
    } else {
      var i := SomeBit(And(x, mask));
      AndBits(x, mask, i);
    }
  }

  // ----- The conversions of the C source, byte by byte, into and out of memory at an offset

  method Uint16ToByteArray(i: uint16, a: array<byte>, at: nat)
    requires at + 2 <= a.Length
    modifies a
    ensures a[..] == old(a[..at]) + BE(2, i) + old(a[at + 2..])
  {
    StoreBytes(i, a, at, 2);
  }

  method Uint32ToByteArray(i: uint32, a: array<byte>, at: nat)
    requires at + 4 <= a.Length
    modifies a
    ensures a[..] == old(a[..at]) + BE(4, i) + old(a[at + 4..])
  {
    StoreBytes(i, a, at, 4);
  }

  method Uint64ToByteArray(i: uint64, a: array<byte>, at: nat)
    requires at + 8 <= a.Length
    modifies a
    ensures a[..] == old(a[..at]) + BE(8, i) + old(a[at + 8..])
  {
    StoreBytes(i, a, at, 8);
  }

  /** The store-and-shift steps of the conversions, from the low-order byte at the end backwards. */
  method StoreBytes(i: nat, a: array<byte>, at: nat, width: nat)
    requires at + width <= a.Length
    modifies a
    ensures a[..] == old(a[..at]) + BE(width, i) + old(a[at + width..])
  {
    var v := i;
    for k := width downto 0
      invariant a[..at + k] == old(a[..at + k])
      invariant BE(width, i) == BE(k, v) + a[at + k..at + width]
      invariant a[at + width..] == old(a[at + width..])
    {
      ghost var stored := a[at + k + 1..at + width];
      a[at + k] := v % 256;
      assert a[at + k..at + width] == [v % 256] + stored;
      assert a[..at + k] == old(a[..at + k + 1])[..at + k];
      v := v / 256;
    }
    assert a[..] == a[..at] + a[at..at + width] + a[at + width..];
  }

  method ByteArrayToUint16(a: array<byte>, at: nat) returns (x: uint16)
    requires at + 2 <= a.Length
    ensures x == FromBE(a[at..at + 2])
  {
    var r := AccumulateBytes(a, at, 2);
    Widths();
    x := r;
  }

  method ByteArrayToUint32(a: array<byte>, at: nat) returns (x: uint32)
    requires at + 4 <= a.Length
    ensures x == FromBE(a[at..at + 4])
  {
    var r := AccumulateBytes(a, at, 4);
    Widths();
    x := r;
  }

  method ByteArrayToUint64(a: array<byte>, at: nat) returns (x: uint64)
    requires at + 8 <= a.Length
    ensures x == FromBE(a[at..at + 8])
  {
    var r := AccumulateBytes(a, at, 8);
    Widths();
    x := r;
  }

  /** The shift-and-add steps of the conversions, in a register of `width` bytes that drops what
      is shifted out of it. */
  method AccumulateBytes(a: array<byte>, at: nat, width: nat) returns (x: nat)
    requires at + width <= a.Length
    ensures x == FromBE(a[at..at + width]) && x < Pow256(width)
  {
    x := 0;
    for k := 0 to width
      invariant x == FromBE(a[at..at + k]) && x < Pow256(k)
    {
      ghost var next := a[at..at + k + 1];
      assert next[..k] == a[at..at + k] && next[k] == a[at + k];
      PowGrows(0, width);
      StaysInRegister(x, k, width);
      x := x * 256 % Pow256(width) + a[at + k];
      assert x < Pow256(k + 1);
    }
  }

  lemma StaysInRegister(x: nat, k: nat, width: nat)
    requires x < Pow256(k) && k < width
    ensures Pow256(width) > 0 && x * 256 % Pow256(width) == x * 256
  {
    PowGrows(k + 1, width);
    assert Pow256(k + 1) == 256 * Pow256(k);
    SmallMod(x * 256, Pow256(width));
  }

  lemma SmallMod(x: nat, m: nat)
    requires x < m
    ensures x % m == x
  {
  }

  lemma {:induction false} PowGrows(k: nat, n: nat)
    requires k <= n
    ensures Pow256(k) <= Pow256(n)
  {
    if k < n {
      PowGrows(k, n - 1);
    }
  }
}
