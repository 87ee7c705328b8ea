/** The memory operations on sized buffers. */
module Memory2B {
  import opened Bytes

  // ----- Bitwise operators

  lemma {:induction false} XorIsZero(x: nat, y: nat)
    ensures Xor(x, y) == 0 <==> x == y
  {
    if x != 0 || y != 0 {
      XorIsZero(x / 2, y / 2);
    }
  }

  lemma {:induction false} OrIsZero(x: nat, y: nat)
    ensures Or(x, y) == 0 <==> x == 0 && y == 0
  {
    if x != 0 || y != 0 {
      OrIsZero(x / 2, y / 2);
    }
  }

  function Pow2(n: nat): nat {
    if n == 0 then 1 else 2 * Pow2(n - 1)
  }

  /** The operators stay within the width of their operands. */
  lemma {:induction false} StaysInWidth(n: nat, x: nat, y: nat)
    requires x < Pow2(n) && y < Pow2(n)
    ensures Xor(x, y) < Pow2(n) && Or(x, y) < Pow2(n)
  {
    if n != 0 {
      StaysInWidth(n - 1, x / 2, y / 2);
    }
  }

  lemma StaysInByte(x: byte, y: byte)
    ensures Xor(x, y) < 0x100 && Or(x, y) < 0x100
  {
    assert Pow2(8) == 0x100 by { assert Pow2(4) == 16; }
    StaysInWidth(8, x, y);
  }

  /** MemoryEqual: every byte is looked at, whatever the earlier ones were. */
  method MemoryEqual(buffer1: array<byte>, buffer2: array<byte>, size: nat) returns (same: bool)
    requires size <= buffer1.Length && size <= buffer2.Length
    ensures same <==> buffer1[..size] == buffer2[..size]
  {
    var equal: byte := 0;
    for i := 0 to size
      invariant equal == 0 <==> buffer1[..i] == buffer2[..i]
    {
      var x := Xor(buffer1[i], buffer2[i]);
      StaysInByte(buffer1[i], buffer2[i]);
      XorIsZero(buffer1[i], buffer2[i]);
      OrIsZero(equal, x);
      StaysInByte(equal, x);
      assert buffer1[..i + 1] == buffer1[..i] + [buffer1[i]] && buffer2[..i + 1] == buffer2[..i] + [buffer2[i]];
      equal := Or(equal, x);
    }
    same := equal == 0;
  }

  // ----- TPM2B

  class Tpm2B {
    var size: uint16
    const buffer: array<byte>

    constructor (capacity: nat)
      ensures Valid() && size == 0 && fresh(buffer) && buffer.Length == capacity
    {
      size := 0;
      buffer := new byte[capacity];
    }

    predicate Valid()
      reads this
    {
      size <= buffer.Length
    }

    ghost function Contents(): seq<byte>
      requires Valid()
      reads this, buffer
    {
      buffer[..size]
    }
  }

  /** The C conversion of a UINT16 to INT16. */
  function ToInt16(n: uint16): int {
    if n < 0x8000 then n else n - 0x1_0000
  }

  /** MemoryCopy2B: a source that is missing or too long empties the destination. */
  method MemoryCopy2B(dest: Tpm2B?, source: Tpm2B?, dSize: nat) returns (result: int)
    requires dest != null ==> dSize <= dest.buffer.Length
    requires source != null ==> source.Valid()
    modifies if dest == null then {} else {dest, dest.buffer}
    ensures dest == null ==> result == 0
    ensures dest != null ==>
              dest.Valid() && result == if dest.size < 0x8000 then dest.size else dest.size - 0x1_0000
    ensures dest != null ==>
              dest.Contents() == if source != null && old(source.size) <= dSize then old(source.Contents()) else []
    ensures dest != null ==> dest.buffer[dest.size..] == old(dest.buffer[..])[dest.size..]
  {
    if dest == null { return 0; }
    if source == null || source.size > dSize {
      dest.size := 0;
    } else {
      ghost var was := source.Contents();
      forall i | 0 <= i < source.size {
        dest.buffer[i] := source.buffer[i];
      }
      assert dest.buffer[..source.size] == was;
      dest.size := source.size;
    }
    result := ToInt16(dest.size);
  }

  /** The C difference of two unsigned ints. */
  function Sub32(x: uint32, y: uint32): uint32 {
    if x >= y then x - y else x - y + 0x1_0000_0000
  }

  /** Whether MemoryConcat2B takes `n` more bytes. */
  predicate Takes(size: uint16, n: uint16, aMaxSize: uint32) {
    n <= Sub32(aMaxSize, size)
  }

  /** The unsigned comparison is the intended one exactly for sizes within the maximum: from a size above
      it every input is taken. */
  lemma TakesIff(size: uint16, n: uint16, aMaxSize: uint32)
    ensures Takes(size, n, aMaxSize) <==> size > aMaxSize || size + n <= aMaxSize
  {
  }

  /** MemoryConcat2B. Only the memory that it writes must exist; the new size is stored as a UINT16. */
  method MemoryConcat2B(aInOut: Tpm2B, bIn: Tpm2B, aMaxSize: uint32)
    requires aInOut.Valid() && bIn.Valid()
    requires Takes(aInOut.size, bIn.size, aMaxSize) ==> aInOut.size + bIn.size <= aInOut.buffer.Length
    modifies aInOut, aInOut.buffer
    ensures aInOut.Valid() && (old(aInOut.size) <= aMaxSize ==> aInOut.size <= aMaxSize)
    ensures old(Takes(aInOut.size, bIn.size, aMaxSize)) ==>
              aInOut.buffer[..old(aInOut.size + bIn.size)] == old(aInOut.Contents() + bIn.Contents())
    ensures old(!Takes(aInOut.size, bIn.size, aMaxSize)) ==> aInOut.Contents() == old(aInOut.Contents())
    ensures old(aInOut.size) <= aMaxSize && old(aInOut.size + bIn.size) < 0x1_0000 ==>
              aInOut.Contents() == Append(old(aInOut.Contents()), old(bIn.Contents()), aMaxSize)
    ensures aInOut.size == (if old(Takes(aInOut.size, bIn.size, aMaxSize)) then Low16(old(aInOut.size + bIn.size))
                            else old(aInOut.size))
    ensures var top := old(if Takes(aInOut.size, bIn.size, aMaxSize) then aInOut.size + bIn.size else aInOut.size);
            aInOut.buffer[top..] == old(aInOut.buffer[..])[top..]
  {
    TakesIff(aInOut.size, bIn.size, aMaxSize);
    if bIn.size <= Sub32(aMaxSize, aInOut.size) {
      ghost var a, b := aInOut.Contents(), bIn.Contents();
      var start: nat := aInOut.size;
      var n: nat := bIn.size;
      forall i | 0 <= i < n {
        aInOut.buffer[start + i] := bIn.buffer[i];
      }
      assert aInOut.buffer[..start + n] == a + b;
      Low16IsModulo(start + n);
      aInOut.size := Low16(start + n);
    } else {
      assert aInOut.Contents() + [] == aInOut.Contents();
    }
  }

  /** MemoryEqual2B. */
  method MemoryEqual2B(aIn: Tpm2B, bIn: Tpm2B) returns (same: bool)
    requires aIn.Valid() && bIn.Valid()
    ensures same <==> aIn.Contents() == bIn.Contents()
  {
    if aIn.size != bIn.size { return false; }
    same := MemoryEqual(aIn.buffer, bIn.buffer, aIn.size);
  }

  /** The C conversion of an int to a size_t of 64 bits. */
  function ToSize(x: int): nat
    requires -0x8000_0000 <= x < 0x8000_0000
  {
    if x >= 0 then x else x + 0x1_0000_0000_0000_0000
  }

  /** MemoryPad2B. Only the memory that it writes must exist; to shrink a buffer, that is nearly the whole
      address space. */
  method MemoryPad2B(b: Tpm2B, newSize: uint16)
    requires b.Valid() && b.size + ToSize(newSize - b.size) <= b.buffer.Length
    modifies b, b.buffer
    ensures b.Valid() && b.size == newSize
    ensures var n := newSize - old(b.size) + if newSize < old(b.size) then 0x1_0000_0000_0000_0000 else 0;
            b.buffer[..] == old(b.Contents()) + seq(n, _ => 0) + old(b.buffer[..])[old(b.size) + n..]
    ensures newSize >= old(b.size) ==> b.Contents() == old(b.Contents()) + seq(newSize - old(b.size), _ => 0)
  {
    var top := b.size + ToSize(newSize - b.size);
    forall i | b.size <= i < top {
      b.buffer[i] := 0;
    }
    b.size := newSize;
  }

  // ----- Runs of concatenations

  function Append(a: seq<byte>, b: seq<byte>, max: nat): seq<byte> {
    if |a| + |b| <= max then a + b else a
  }

  function AppendAll(a: seq<byte>, inputs: seq<seq<byte>>, max: nat): seq<byte>
    decreases |inputs|
  {
    if inputs == [] then a else AppendAll(Append(a, inputs[0], max), inputs[1..], max)
  }

  /** The inputs that fit when their turn comes. */
  function Accepted(used: nat, inputs: seq<seq<byte>>, max: nat): seq<seq<byte>>
    decreases |inputs|
  {
    if inputs == [] then []
    else if used + |inputs[0]| <= max then [inputs[0]] + Accepted(used + |inputs[0]|, inputs[1..], max)
    else Accepted(used, inputs[1..], max)
  }

  /** Any run of concatenations keeps the bound and leaves the accepted inputs in order. */
  lemma {:induction false} AppendsAccepted(a: seq<byte>, inputs: seq<seq<byte>>, max: nat)
    requires |a| <= max
    ensures |AppendAll(a, inputs, max)| <= max
    ensures AppendAll(a, inputs, max) == a + Flatten(Accepted(|a|, inputs, max))
    decreases |inputs|
  {
    if inputs != [] {
      var b := inputs[0];
      AppendsAccepted(Append(a, b, max), inputs[1..], max);
      if |a| + |b| <= max {
        var rest := Accepted(|a| + |b|, inputs[1..], max);
        assert ([b] + rest)[1..] == rest && a + (b + Flatten(rest)) == a + b + Flatten(rest);
      }
    } else {
      assert a + [] == a;
    }
  }
}
