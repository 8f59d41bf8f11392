// 32-bit FNV-1a as the Python exporter computes it and as the JavaScript reader
// does, with signed 32-bit intermediate results.
module Fnv {

  const WORD: int := 0x1_0000_0000
  const OFFSET: int := 0x811C_9DC5
  const PRIME: int := 0x0100_0193

  type byte = x: int | 0 <= x < 256

  function Pow(bits: nat): nat { if bits == 0 then 1 else 2 * Pow(bits - 1) }

  // Exclusive or of the low `bits` bits.
  function XorBits(x: nat, y: nat, bits: nat): (r: nat)
    ensures r < Pow(bits)
    decreases x, y, bits
  {
    if bits == 0 then 0 else (x + y) % 2 + 2 * XorBits(x / 2, y / 2, bits - 1)
  }

  lemma {:induction false} PowByte()
    ensures Pow(8) == 256
  {}

  function XorBytes(x: byte, y: byte): byte {
    PowByte();
    XorBits(x, y, 8)
  }

  // Exclusive or of a word with a byte: the bits above the byte stay.
  function Xor(a: nat, b: byte): (x: nat)
    requires a < WORD
    ensures x < WORD
  {
    a / 256 * 256 + XorBytes(a % 256, b)
  }

  // -------------------------------------------------------------- Python side

  function Python(bytes: seq<byte>): (hash: nat)
    ensures hash < WORD
  {
    if bytes == [] then OFFSET else Round(Python(bytes[..|bytes| - 1]), bytes[|bytes| - 1])
  }

  function Round(hash: nat, b: byte): (next: nat)
    requires hash < WORD
    ensures next < WORD
  {
    Xor(hash, b) * PRIME % WORD
  }

  // str.encode("utf-8") of one character.
  function Utf8Char(c: char): seq<byte> {
    var x := c as int;
    if x < 0x80 then [x]
    else if x < 0x800 then [0xC0 + x / 0x40, 0x80 + x % 0x40]
    else if x < 0x1_0000 then [0xE0 + x / 0x1000, 0x80 + x / 0x40 % 0x40, 0x80 + x % 0x40]
    else [0xF0 + x / 0x4_0000, 0x80 + x / 0x1000 % 0x40, 0x80 + x / 0x40 % 0x40, 0x80 + x % 0x40]
  }

  function Utf8(s: string): seq<byte> { if s == [] then [] else Utf8(s[..|s| - 1]) + Utf8Char(s[|s| - 1]) }

  method PythonFnv1a32(value: string) returns (result: nat)
    ensures result == Python(Utf8(value)) && result < WORD
  {
    var bytes := Utf8(value);
    result := OFFSET;
    for i := 0 to |bytes|
      invariant result == Python(bytes[..i]) && result < WORD
    {
      assert bytes[..i + 1][..i] == bytes[..i];
      result := Xor(result, bytes[i]);
      result := result * PRIME % WORD;
    }
    assert bytes[..|bytes|] == bytes;
  }

  // ---------------------------------------------------------- JavaScript side

  // ToInt32 and ToUint32 (sections 7.1.6 and 7.1.7 of ECMA-262).
  function ToUint32(x: int): nat { x % WORD }
  function ToInt32(x: int): int { if x % WORD >= WORD / 2 then x % WORD - WORD else x % WORD }

  // a ^ b for a nonnegative b, Math.imul(a, b), and a >>> 0.
  function JsXor(a: int, b: byte): int { ToInt32(Xor(ToUint32(a), b)) }
  function Imul(a: int, b: int): int { ToInt32(a * b) }

  // charCodeAt: the UTF-16 code units of a character.
  function Units(c: char): seq<nat> {
    var x := c as int;
    if x < 0x1_0000 then [x] else [0xD800 + (x - 0x1_0000) / 0x400, 0xDC00 + (x - 0x1_0000) % 0x400]
  }

  function Utf16(s: string): seq<nat> { if s == [] then [] else Utf16(s[..|s| - 1]) + Units(s[|s| - 1]) }

  // The bytes the reader hashes: `charCodeAt(index) & 0xff`.
  function LowBytes(units: seq<nat>): seq<byte> { seq(|units|, i requires 0 <= i < |units| => units[i] % 256) }

  // Signed intermediate results do not change a round.
  lemma {:induction false} SignedProduct(x: int)
    requires 0 <= x < WORD
    ensures ToUint32(Imul(ToInt32(x), PRIME)) == x * PRIME % WORD
  {
    var signed := ToInt32(x);
    if signed != x {
      assert signed * PRIME == x * PRIME - PRIME * WORD;
      ModShift(x * PRIME, PRIME);
    }
    SignedSame(signed * PRIME);
  }

  lemma {:induction false} SignedSame(x: int)
    ensures ToUint32(ToInt32(x)) == ToUint32(x)
  {}

  lemma {:induction false} ModShift(x: int, k: int)
    ensures (x - k * WORD) % WORD == x % WORD
  {}

  lemma {:induction false} Unsigned(x: int)
    requires 0 <= x < WORD
    ensures ToUint32(x) == x
  {}

  method XorAssign(hash: int, b: byte) returns (signed: int, ghost x: int)
    requires 0 <= hash < WORD
    ensures 0 <= x < WORD && signed == ToInt32(x) && x == Xor(hash, b)
  {
    Unsigned(hash);
    x := Xor(hash, b);
    signed := JsXor(hash, b);
  }

  method MultiplyUnsigned(signed: int, ghost x: int) returns (next: int)
    requires 0 <= x < WORD && signed == ToInt32(x)
    ensures next == x * PRIME % WORD
  {
    SignedProduct(x);
    next := ToUint32(Imul(signed, PRIME));
  }

  method JsRound(hash: int, b: byte) returns (next: int)
    requires 0 <= hash < WORD
    ensures next == Round(hash, b)
  {
    var signed;
    ghost var x;
    signed, x := XorAssign(hash, b);
    next := MultiplyUnsigned(signed, x);
  }

  method JsFnv1a32(value: string) returns (hash: int)
    ensures hash == Python(LowBytes(Utf16(value)))
  {
    var units := Utf16(value);
    var bytes := LowBytes(units);
    hash := OFFSET;
    for index := 0 to |units|
      invariant 0 <= hash < WORD && hash == Python(bytes[..index])
    {
      assert bytes[..index + 1][..index] == bytes[..index];
      hash := JsRound(hash, bytes[index]);
    }
    assert bytes[..|units|] == bytes;
  }

  // ----------------------------------------------------------------- agreement

  predicate Ascii(s: string) { forall i :: 0 <= i < |s| ==> s[i] < '\U{80}' }

  lemma {:induction false} Lengths(s: string)
    ensures |Utf8(s)| >= |Utf16(s)|
    ensures |Utf8(s)| == |Utf16(s)| <==> Ascii(s)
  {
    if s != [] {
      Lengths(s[..|s| - 1]);
      assert s == s[..|s| - 1] + [s[|s| - 1]];
    }
  }

  lemma {:induction false} AsciiBytes(s: string)
    requires Ascii(s)
    ensures Utf8(s) == LowBytes(Utf16(s))
  {
    if s != [] {
      assert s == s[..|s| - 1] + [s[|s| - 1]];
      AsciiBytes(s[..|s| - 1]);
    }
  }

  // Writer and reader hash the same bytes exactly for ASCII text.
  lemma {:induction false} SameBytesIff(s: string)
    ensures Utf8(s) == LowBytes(Utf16(s)) <==> Ascii(s)
  {
    Lengths(s);
    if Ascii(s) { AsciiBytes(s); }
  }

  // The shard of a hash.
  function Bucket(hash: nat, shardCount: nat): (shard: nat)
    requires shardCount > 0
    ensures shard < shardCount
  {
    hash % shardCount
  }

  // So both sides file an ASCII nameserver under one shard.
  method JsShardId(nameserver: string, shardCount: nat) returns (shard: nat)
    requires Ascii(nameserver) && shardCount > 0
    ensures shard == Bucket(Python(Utf8(nameserver)), shardCount)
  {
    SameBytesIff(nameserver);
    var hash := JsFnv1a32(nameserver);
    shard := Bucket(hash, shardCount);
  }
}
