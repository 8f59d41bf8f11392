// The hash against its definition: exclusive or bit by bit, and two published
// values.
module FnvLaws {
  import opened Fnv

  function BitOf(x: nat, i: nat): nat { if i == 0 then x % 2 else BitOf(x / 2, i - 1) }

  // A bit of the result is set exactly if one of the two is.
  lemma {:induction false} XorBitsAt(x: nat, y: nat, bits: nat, i: nat)
    requires i < bits
    ensures BitOf(XorBits(x, y, bits), i) == if BitOf(x, i) == BitOf(y, i) then 0 else 1
    decreases bits
  {
    XorBitsSplit(x, y, bits);
    if i > 0 { XorBitsAt(x / 2, y / 2, bits - 1, i - 1); } else { SumOdd(x, y); }
  }

  lemma {:induction false} XorBitsSplit(x: nat, y: nat, bits: nat)
    requires bits > 0
    ensures XorBits(x, y, bits) % 2 == (x + y) % 2 && XorBits(x, y, bits) / 2 == XorBits(x / 2, y / 2, bits - 1)
  {
    Halves((x + y) % 2, XorBits(x / 2, y / 2, bits - 1));
  }

  lemma {:induction false} Halves(bit: nat, rest: nat)
    requires bit < 2
    ensures (bit + 2 * rest) % 2 == bit && (bit + 2 * rest) / 2 == rest
  {}

  lemma {:induction false} SumOdd(x: nat, y: nat)
    ensures (x + y) % 2 == if x % 2 == y % 2 then 0 else 1
  {}

  // Over a word only the low byte changes.
  lemma {:induction false} XorIs(a: nat, b: byte, i: nat)
    requires a < WORD && i < 8
    ensures Xor(a, b) / 256 == a / 256
    ensures BitOf(Xor(a, b) % 256, i) == if BitOf(a % 256, i) == BitOf(b, i) then 0 else 1
  {
    XorBitsAt(a % 256, b, 8, i);
    LowByte(a / 256, XorBytes(a % 256, b));
  }

  lemma {:induction false} LowByte(high: nat, low: byte)
    ensures (high * 256 + low) / 256 == high && (high * 256 + low) % 256 == low
  {}

  // The published hashes of the empty text and of "a".
  lemma {:induction false} KnownHashes(a: byte)
    requires a == 97
    ensures Python([]) == 2166136261 && Python([a]) == 3826002220
  {
    LowBits();
    XorOf(8461469, 197, a, 164);
    LastRound(Xor(OFFSET, a));
    FirstRound(a);
  }

  lemma {:induction false} XorOf(high: nat, low: byte, b: byte, x: byte)
    requires high * 256 + low < WORD && XorBytes(low, b) == x
    ensures Xor(high * 256 + low, b) == high * 256 + x
  {
    LowByte(high, low);
  }

  lemma {:induction false} LastRound(x: nat)
    ensures x == 2166136228 ==> x * PRIME % WORD == 3826002220
  {}

  lemma {:induction false} FirstRound(b: byte)
    ensures Python([b]) == Xor(OFFSET, b) * PRIME % WORD
  {
    var none: seq<byte> := [b][..0];
    assert none == [];
  }

  lemma {:induction false} LowBits()
    ensures XorBytes(197, 97) == 164
  {
    assert XorBits(24, 12, 5) == 20 by {
      assert XorBits(3, 1, 2) == 2 by { assert XorBits(1, 0, 1) == 1; }
      assert XorBits(6, 3, 3) == 5;
      assert XorBits(12, 6, 4) == 10;
    }
    assert XorBits(49, 24, 6) == 41;
    assert XorBits(98, 48, 7) == 82;
  }

  // ToInt32 is the signed word that differs by a multiple of the word size.
  lemma {:induction false} SignedIs(x: int)
    ensures -0x8000_0000 <= ToInt32(x) < 0x8000_0000 && (ToInt32(x) - x) % WORD == 0
  {
    Congruent(x, x / WORD);
  }

  lemma {:induction false} Congruent(x: int, q: int)
    requires q == x / WORD
    ensures (x % WORD - x) % WORD == 0 && (x % WORD - WORD - x) % WORD == 0
  {
    assert x % WORD - x == -q * WORD;
    Multiple(-q);
    Multiple(-q - 1);
  }

  lemma {:induction false} Multiple(k: int)
    ensures k * WORD % WORD == 0
  {}

  // A character is one code unit, or beyond the first plane a surrogate pair
  // that stands for it.
  lemma {:induction false} UnitsAre(c: char)
    ensures c as int < 0x1_0000 ==> Units(c) == [c as nat]
    ensures c as int >= 0x1_0000 ==>
      && |Units(c)| == 2 && 0xD800 <= Units(c)[0] < 0xDC00 && 0xDC00 <= Units(c)[1] < 0xE000
      && (Units(c)[0] - 0xD800) * 0x400 + (Units(c)[1] - 0xDC00) + 0x1_0000 == c as int
  {}

  lemma {:induction false} Utf8Length(c: char)
    ensures |Utf8Char(c)| == if c as int <= 0x7F then 1 else if c as int <= 0x7FF then 2
                             else if c as int <= 0xFFFF then 3 else 4
  {}
}
