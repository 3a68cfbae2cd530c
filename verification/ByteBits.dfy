/** Between bytes as integers and bytes as bit vectors. */
module ByteBits {
  lemma IntOfByte(b: bv8)
    ensures (b as int) as bv8 == b
  {
  }

  lemma Successor(b: bv8)
    ensures (b + 1) as int == (b as int + 1) % 0x100
  {
  }

  /** Every integer below 256 is the value of a byte. */
  lemma {:induction false} Byte(x: nat) returns (b: bv8)
    requires x < 0x100
    ensures b as int == x
  {
    b := 0;
    if x > 0 {
      b := Byte(x - 1);
      Successor(b);
      b := b + 1;
    }
  }

  lemma ByteOfInt(x: int)
    requires 0 <= x < 0x100
    ensures (x as bv8) as int == x
  {
    var b := Byte(x);
    IntOfByte(b);
  }

  lemma LowThreeBits(b: bv8)
    ensures (b & 7) as int == b as int % 8
  {
  }

  lemma LowTwoBits(b: bv8)
    ensures (b & 3) as int == b as int % 4
  {
  }

  lemma LowBit(b: bv8)
    ensures (b & 1) as int == b as int % 2
  {
  }

  lemma TopThreeBits(b: bv8)
    ensures ((b & 0xE0) >> 5) as int == b as int / 32
  {
  }

  lemma Quarter(b: bv8)
    ensures (b >> 2) as int == b as int / 4
  {
  }

  lemma MiddleThreeBits(b: bv8)
    ensures ((b & 0x1C) >> 2) as int == b as int / 4 % 8
  {
    assert (b & 0x1C) >> 2 == (b >> 2) & 7;
    Quarter(b);
    LowThreeBits(b >> 2);
  }

  lemma Half(b: bv8)
    ensures (b >> 1) as int == b as int / 2
  {
  }

  lemma Twice(b: bv8)
    requires b < 2
    ensures (b << 1) as int == b as int * 2
  {
  }

  lemma SecondBit(b: bv8)
    ensures (b & 2) as int == b as int / 2 % 2 * 2
  {
    assert b & 2 == ((b >> 1) & 1) << 1 && (b >> 1) & 1 < 2;
    Half(b);
    LowBit(b >> 1);
    Twice((b >> 1) & 1);
  }

  lemma ShiftedByFive(b: bv8)
    ensures (b << 5) as int == b as int * 32 % 0x100
  {
  }

  // ---- the sum of two bytes wraps

  predicate SumsTo(a: bv8, b: bv8, n: int) {
    b as int == n && (a + b) as int == (a as int + n) % 0x100
  }

  lemma SumsToZero(a: bv8)
    ensures SumsTo(a, 0, 0)
  {
  }

  lemma SumsToNext(a: bv8, b: bv8, n: int)
    requires SumsTo(a, b, n) && n < 0xFF
    ensures SumsTo(a, b + 1, n + 1)
  {
    Successor(b);
    Successor(a + b);
    Reassociate(a, b);
    WrapNext(a as int, n, (a + b) as int, (a + b + 1) as int);
  }

  lemma Reassociate(a: bv8, b: bv8)
    ensures a + (b + 1) == a + b + 1
  {
  }

  lemma WrapNext(x: int, n: int, sum: int, next: int)
    requires sum == (x + n) % 0x100 && next == (sum + 1) % 0x100
    ensures next == (x + (n + 1)) % 0x100
  {
  }

  lemma {:induction false} SumUpTo(a: bv8, n: nat) returns (b: bv8)
    requires n < 0x100
    ensures SumsTo(a, b, n)
  {
    hide SumsTo;
    b := 0;
    SumsToZero(a);
    if n > 0 {
      b := SumUpTo(a, n - 1);
      SumsToNext(a, b, n - 1);
      b := b + 1;
    }
  }

  lemma SumsToSame(a: bv8, b: bv8, c: bv8, n: int)
    requires SumsTo(a, c, n) && b as int == n
    ensures SumsTo(a, b, n)
  {
    SameInt(b, c);
  }

  lemma SumOfBytes(a: bv8, b: bv8)
    ensures (a + b) as int == (a as int + b as int) % 0x100
  {
    var n: int := b as int;
    var c := SumUpTo(a, n);
    SumsToSame(a, b, c, n);
  }

  lemma Doubled(b: bv8)
    ensures (b << 1) as int == (b as int + b as int) % 0x100
  {
    assert b << 1 == b + b;
    SumOfBytes(b, b);
  }

  lemma ShiftedByTwo(b: bv8)
    ensures (b << 2) as int == b as int * 4 % 0x100
  {
    assert b << 2 == (b << 1) << 1;
    Doubled(b);
    Doubled(b << 1);
    WrapTwice(b as int, (b << 1) as int, (b << 2) as int);
  }

  lemma WrapTwice(x: int, y: int, z: int)
    requires y == (x + x) % 0x100 && z == (y + y) % 0x100
    ensures z == x * 4 % 0x100
  {
  }

  // ---- comparisons

  lemma SameInt(b: bv8, b': bv8)
    ensures b as int == b' as int <==> b == b'
  {
    IntOfByte(b);
    IntOfByte(b');
  }

  lemma LessAsInt(b: bv8)
    ensures b < 8 ==> b as int < 8
    ensures b < 4 ==> b as int < 4
  {
  }
}
