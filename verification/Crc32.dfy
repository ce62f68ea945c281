/**
 The table-driven checksum of PNG chunks (vdisk-thumbs module) against the bit-by-bit register of sections 3.4 and
 15 of RFC 2083: one bit of the message at a time, the lowest bit of each byte first. 32-bit words are naturals
 below 2^32; `c & 1`, `c >>> 1`, `c & 0xff` and `c >>> 8` are remainders and quotients.
 */
module Crc32 {
  import opened Basics

  const WORD: nat := 0x1_0000_0000
  const POLYNOMIAL: nat := 0xedb8_8320
  const ONES: nat := 0xffff_ffff

  /** Exclusive or, bit by bit. */
  function Xor(a: nat, b: nat): nat
    decreases a + b
  {
    if a == 0 then b
    else if b == 0 then a
    else (a + b) % 2 + 2 * Xor(a / 2, b / 2)
  }

  /** One shift of the register. */
  function Shift(c: nat): nat { if c % 2 == 1 then Xor(POLYNOMIAL, c / 2) else c / 2 }

  // ----- the reference: bit by bit -----

  /** The register takes in the lowest `n` bits of `bits`, lowest first. */
  function TakeBits(c: nat, bits: nat, n: nat): nat
    decreases n
  {
    if n == 0 then c else TakeBits(Shift(Xor(c, bits % 2)), bits / 2, n - 1)
  }

  /** The register after a message. */
  function Register(c: nat, message: Bytes): nat
    decreases |message|
  {
    if |message| == 0 then c else Register(TakeBits(c, message[0] as nat, 8), message[1..])
  }

  function Checksum(message: Bytes): nat { Xor(Register(ONES, message), ONES) }

  // ----- the table and the loop over it -----

  function Shifts(c: nat, n: nat): nat { if n == 0 then c else Shift(Shifts(c, n - 1)) }

  class Crc {
    const table: array<nat>

    ghost predicate Valid()
      reads table
    {
      table.Length == 256 && forall n :: 0 <= n < 256 ==> table[n] == Shifts(n, 8)
    }

    constructor ()
      ensures Valid() && fresh(table)
    {
      var t := new nat[256];
      for n := 0 to 256
        invariant forall i :: 0 <= i < n ==> t[i] == Shifts(i, 8)
      {
        var c := n;
        for k := 0 to 8
          invariant c == Shifts(n, k)
        {
          c := if c % 2 == 1 then Xor(POLYNOMIAL, c / 2) else c / 2;
        }
        t[n] := c;
      }
      table := t;
    }

    /** The checksum by table is the checksum bit by bit. */
    method Of(b: Bytes) returns (r: nat)
      requires Valid()
      ensures r == Checksum(b) && r < WORD
    {
      var c: nat := ONES;
      for i := 0 to |b|
        invariant c < WORD
        invariant Register(c, b[i..]) == Register(ONES, b)
      {
        var x := b[i] as nat;
        RegisterNext(c, b, i);
        ByteByTable(c, x);
        var n := Xor(c, x) % 256;
        ShiftsAreWords(n, 8);
        WordByTable(table[n], c / 256);
        c := Xor(table[n], c / 256);
      }
      WordByTable(c, ONES);
      r := Xor(c, ONES);
    }
  }

  lemma RegisterNext(c: nat, b: Bytes, i: nat)
    requires i < |b|
    ensures Register(c, b[i..]) == Register(TakeBits(c, b[i] as nat, 8), b[i + 1..])
  {
    assert b[i..][0] == b[i] && b[i..][1..] == b[i + 1..];
  }

  // ----- exclusive or -----

  predicate Odd(x: nat) { x % 2 == 1 }

  lemma {:induction false} XorHalves(a: nat, b: nat)
    ensures Xor(a, b) / 2 == Xor(a / 2, b / 2)
    ensures Odd(Xor(a, b)) == (Odd(a) != Odd(b))
  {
  }

  lemma ByHalves(x: nat, y: nat)
    requires x / 2 == y / 2 && Odd(x) == Odd(y)
    ensures x == y
  {
  }

  lemma {:induction false} XorAssociates(a: nat, b: nat, c: nat)
    ensures Xor(Xor(a, b), c) == Xor(a, Xor(b, c))
    decreases a + b + c
  {
    if a > 0 && b > 0 && c > 0 {
      XorAssociates(a / 2, b / 2, c / 2);
      LeftHalves(a, b, c);
      RightHalves(a, b, c);
      ByHalves(Xor(Xor(a, b), c), Xor(a, Xor(b, c)));
    }
  }

  lemma LeftHalves(a: nat, b: nat, c: nat)
    ensures Xor(Xor(a, b), c) / 2 == Xor(Xor(a / 2, b / 2), c / 2)
    ensures Odd(Xor(Xor(a, b), c)) == ((Odd(a) != Odd(b)) != Odd(c))
  {
    XorHalves(a, b);
    XorHalves(Xor(a, b), c);
  }

  lemma RightHalves(a: nat, b: nat, c: nat)
    ensures Xor(a, Xor(b, c)) / 2 == Xor(a / 2, Xor(b / 2, c / 2))
    ensures Odd(Xor(a, Xor(b, c))) == ((Odd(a) != Odd(b)) != Odd(c))
  {
    XorHalves(b, c);
    XorHalves(a, Xor(b, c));
  }

  /** `b` moved up `n` bits. */
  function Up(b: nat, n: nat): nat { if n == 0 then b else 2 * Up(b, n - 1) }

  lemma {:induction false} XorBelow(a: nat, b: nat, n: nat)
    requires a < Up(1, n) && b < Up(1, n)
    ensures Xor(a, b) < Up(1, n)
    decreases n
  {
    if a > 0 && b > 0 { XorBelow(a / 2, b / 2, n - 1); }
  }

  // ----- shifting is linear -----

  lemma ShiftLowBit(b: nat, y: nat)
    ensures Shift(Xor(b, y)) == Xor(Shift(Xor(b, y % 2)), y / 2)
  {
    XorHalves(b, y);
    XorHalves(b, y % 2);
    XorZero(b / 2);
    XorAssociates(POLYNOMIAL, b / 2, y / 2);
  }

  lemma XorZero(a: nat)
    ensures Xor(a, 0) == a && Xor(0, a) == a
  {
  }

  lemma {:induction false} ShiftsFirst(c: nat, n: nat)
    requires n > 0
    ensures Shifts(c, n) == Shifts(Shift(c), n - 1)
  {
    if n > 1 { ShiftsFirst(c, n - 1); }
  }

  function Right(y: nat, n: nat): nat { if n == 0 then y else Right(y / 2, n - 1) }

  /** Taking bits in one at a time is shifting with all of them mixed in, but for those not taken yet. */
  lemma {:induction false} BitsTogether(c: nat, bits: nat, n: nat)
    ensures Shifts(Xor(c, bits), n) == Xor(TakeBits(c, bits, n), Right(bits, n))
    decreases n
  {
    if n > 0 {
      ShiftsFirst(Xor(c, bits), n);
      ShiftLowBit(c, bits);
      BitsTogether(Shift(Xor(c, bits % 2)), bits / 2, n - 1);
    }
  }

  /** Bits that do not reach the low end only move down. */
  lemma {:induction false} HighBitsMove(low: nat, b: nat, n: nat)
    ensures Shifts(Xor(low, Up(b, n)), n) == Xor(Shifts(low, n), b)
    decreases n
  {
    if n > 0 {
      ShiftsFirst(Xor(low, Up(b, n)), n);
      ShiftLowBit(low, Up(b, n));
      HighBitsMove(Shift(low), b, n - 1);
      ShiftsFirst(low, n);
    }
  }

  lemma {:induction false} XorParts(low: nat, b: nat, n: nat)
    requires low < Up(1, n)
    ensures Xor(low, Up(b, n)) == low + Up(b, n)
    decreases n
  {
    if n > 0 {
      XorParts(low / 2, b, n - 1);
      XorHalves(low, Up(b, n));
      ByHalves(Xor(low, Up(b, n)), low + Up(b, n));
    } else {
      XorZero(Up(b, n));
    }
  }

  lemma RightFour(x: nat)
    ensures Right(x, 4) == x / 16
  {
    assert Right(x, 4) == Right(x / 2, 3) == Right(x / 2 / 2, 2) == Right(x / 2 / 2 / 2, 1);
  }

  lemma {:induction false} RightAdds(x: nat, m: nat, n: nat)
    ensures Right(x, m + n) == Right(Right(x, m), n)
    decreases m
  {
    if m > 0 { RightAdds(x / 2, m - 1, n); }
  }

  lemma UpFour(x: nat, n: nat)
    ensures Up(x, n + 4) == 16 * Up(x, n)
  {
    assert Up(x, n + 4) == 2 * Up(x, n + 3) == 4 * Up(x, n + 2) == 8 * Up(x, n + 1);
  }

  lemma Eight(x: nat)
    ensures Right(x, 8) == x / 256 && Up(x, 8) == 256 * x && Up(1, 8) == 256
  {
    RightAdds(x, 4, 4);
    RightFour(x);
    RightFour(x / 16);
    UpFour(x, 4);
    UpFour(x, 0);
    UpFour(1, 4);
    UpFour(1, 0);
  }

  lemma {:induction false} RightOfXor(a: nat, b: nat, n: nat)
    ensures Right(Xor(a, b), n) == Xor(Right(a, n), Right(b, n))
    decreases n
  {
    if n > 0 {
      XorHalves(a, b);
      RightOfXor(a / 2, b / 2, n - 1);
    }
  }

  lemma TakeByte(c: nat, x: nat)
    requires x < 256
    ensures TakeBits(c, x, 8) == Shifts(Xor(c, x), 8)
  {
    BitsTogether(c, x, 8);
    Eight(x);
    XorZero(TakeBits(c, x, 8));
  }

  lemma ShiftByByte(u: nat)
    ensures Shifts(u, 8) == Xor(Shifts(u % 256, 8), u / 256)
  {
    Eight(u / 256);
    XorParts(u % 256, u / 256, 8);
    HighBitsMove(u % 256, u / 256, 8);
  }

  lemma ByteAway(c: nat, x: nat)
    requires x < 256
    ensures Xor(c, x) / 256 == c / 256
  {
    RightOfXor(c, x, 8);
    Eight(x);
    Eight(c);
    Eight(Xor(c, x));
    XorZero(c / 256);
  }

  /** One table look-up takes in the eight bits of a byte. */
  lemma ByteByTable(c: nat, x: nat)
    requires x < 256
    ensures TakeBits(c, x, 8) == Xor(Shifts(Xor(c, x) % 256, 8), c / 256)
  {
    TakeByte(c, x);
    ShiftByByte(Xor(c, x));
    ByteAway(c, x);
  }

  lemma ShiftIsWord(c: nat)
    requires c < WORD
    ensures Shift(c) < WORD
  {
    ThirtyTwo();
    XorBelow(POLYNOMIAL, c / 2, 32);
  }

  lemma ThirtyTwo()
    ensures Up(1, 32) == WORD
  {
    UpFour(1, 28);
    UpFour(1, 24);
    UpFour(1, 20);
    UpFour(1, 16);
    UpFour(1, 12);
    UpFour(1, 8);
    Eight(1);
  }

  lemma {:induction false} ShiftsAreWords(c: nat, n: nat)
    requires c < WORD
    ensures Shifts(c, n) < WORD
  {
    if n > 0 {
      ShiftsAreWords(c, n - 1);
      ShiftIsWord(Shifts(c, n - 1));
    }
  }

  lemma WordByTable(t: nat, c: nat)
    requires t < WORD && c < WORD
    ensures Xor(t, c) < WORD
  {
    ThirtyTwo();
    XorBelow(t, c, 32);
  }
}
