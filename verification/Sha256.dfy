/** FIPS 180-4, restricted to SHA-256: the reference the storage digest is held to. */
module Fips180 {

  const MODULUS := 0x1_0000_0000

  type byte = x: int | 0 <= x < 0x100
  type word = x: int | 0 <= x < MODULUS

  // --- Section 3.2: operations on words ---

  /** Addition modulo 2^32. */
  function Add(x: word, y: word): (r: word)
    ensures r == (x + y) % MODULUS
  {
    if x + y < MODULUS then x + y else x + y - MODULUS
  }

  function Pow2(n: nat): (p: nat)
    ensures p >= 1
  {
    if n == 0 then 1 else 2 * Pow2(n - 1)
  }

  /** Bit `i` of a word, counted from the least significant. */
  predicate Bit(x: nat, i: nat)
    decreases i
  {
    if i == 0 then x % 2 == 1 else Bit(x / 2, i - 1)
  }

  /** Combines two numbers bit by bit. */
  function Zip(op: (bool, bool) -> bool, x: nat, y: nat): nat
    requires !op(false, false)
    decreases x + y
  {
    if x == 0 && y == 0 then 0
    else 2 * Zip(op, x / 2, y / 2) + if op(x % 2 == 1, y % 2 == 1) then 1 else 0
  }

  function ZipWord(op: (bool, bool) -> bool, x: word, y: word): word
    requires !op(false, false)
  {
    WordModulus();
    ZipBound(op, x, y, 32);
    Zip(op, x, y)
  }

  function And(x: word, y: word): word { ZipWord((p, q) => p && q, x, y) }

  function Or(x: word, y: word): word { ZipWord((p, q) => p || q, x, y) }

  function Xor(x: word, y: word): word { ZipWord((p, q) => p != q, x, y) }

  function Not(x: word): word { MODULUS - 1 - x }

  /** x >> n: each step drops the lowest bit. */
  function Shr(x: word, n: nat): word
    decreases n, x
  {
    if n == 0 then x else Shr(x / 2, n - 1)
  }

  /** x << n: each step appends a zero bit and drops the highest. */
  function Shl(x: word, n: nat): word
    decreases n, x
  {
    if n == 0 then x else Shl(Add(x, x), n - 1)
  }

  function Rotr(x: word, n: nat): word
    requires n <= 32
  {
    Or(Shr(x, n), Shl(x, 32 - n))
  }

  lemma WordModulus()
    ensures Pow2(32) == MODULUS
  {
    assert Pow2(8) == 0x100;
    assert Pow2(16) == 0x1_0000;
    assert Pow2(24) == 0x100_0000;
  }

  lemma {:induction false} ZipBound(op: (bool, bool) -> bool, x: nat, y: nat, n: nat)
    requires !op(false, false) && x < Pow2(n) && y < Pow2(n)
    ensures Zip(op, x, y) < Pow2(n)
    decreases n
  {
    if n > 0 { ZipBound(op, x / 2, y / 2, n - 1); }
  }

  // --- Section 4.1.2: functions ---

  function Ch(x: word, y: word, z: word): word { Xor(And(x, y), And(Not(x), z)) }

  function Maj(x: word, y: word, z: word): word { Xor(Xor(And(x, y), And(x, z)), And(y, z)) }

  function BigSigma0(x: word): word { Xor(Xor(Rotr(x, 2), Rotr(x, 13)), Rotr(x, 22)) }

  function BigSigma1(x: word): word { Xor(Xor(Rotr(x, 6), Rotr(x, 11)), Rotr(x, 25)) }

  function SmallSigma0(x: word): word { Xor(Xor(Rotr(x, 7), Rotr(x, 18)), Shr(x, 3)) }

  function SmallSigma1(x: word): word { Xor(Xor(Rotr(x, 17), Rotr(x, 19)), Shr(x, 10)) }

  // --- Sections 4.2.2 and 5.3.3: constants ---

  const K0: seq<word> := [0x428a2f98, 0x71374491, 0xb5c0fbcf, 0xe9b5dba5, 0x3956c25b, 0x59f111f1, 0x923f82a4, 0xab1c5ed5]
  const K1: seq<word> := [0xd807aa98, 0x12835b01, 0x243185be, 0x550c7dc3, 0x72be5d74, 0x80deb1fe, 0x9bdc06a7, 0xc19bf174]
  const K2: seq<word> := [0xe49b69c1, 0xefbe4786, 0x0fc19dc6, 0x240ca1cc, 0x2de92c6f, 0x4a7484aa, 0x5cb0a9dc, 0x76f988da]
  const K3: seq<word> := [0x983e5152, 0xa831c66d, 0xb00327c8, 0xbf597fc7, 0xc6e00bf3, 0xd5a79147, 0x06ca6351, 0x14292967]
  const K4: seq<word> := [0x27b70a85, 0x2e1b2138, 0x4d2c6dfc, 0x53380d13, 0x650a7354, 0x766a0abb, 0x81c2c92e, 0x92722c85]
  const K5: seq<word> := [0xa2bfe8a1, 0xa81a664b, 0xc24b8b70, 0xc76c51a3, 0xd192e819, 0xd6990624, 0xf40e3585, 0x106aa070]
  const K6: seq<word> := [0x19a4c116, 0x1e376c08, 0x2748774c, 0x34b0bcb5, 0x391c0cb3, 0x4ed8aa4a, 0x5b9cca4f, 0x682e6ff3]
  const K7: seq<word> := [0x748f82ee, 0x78a5636f, 0x84c87814, 0x8cc70208, 0x90befffa, 0xa4506ceb, 0xbef9a3f7, 0xc67178f2]

  const K: seq<word> := K0 + K1 + K2 + K3 + K4 + K5 + K6 + K7

  datatype Vars = Vars(a: word, b: word, c: word, d: word, e: word, f: word, g: word, h: word)

  const H0: Vars := Vars(0x6a09e667, 0xbb67ae85, 0x3c6ef372, 0xa54ff53a,
                         0x510e527f, 0x9b05688c, 0x1f83d9ab, 0x5be0cd19)

  // --- Section 5.1.1: padding ---

  /** k zero bytes after the 0x80 byte, k least with (len + 1 + k) mod 64 == 56. */
  function ZeroBytes(len: nat): (k: nat)
    ensures k < 64 && (len + 1 + k) % 64 == 56 && (len + 9 + k) % 64 == 0
  {
    var r := (len + 1) % 64;
    if r <= 56 then 56 - r else 120 - r
  }

  function Zeros(n: nat): (s: seq<byte>)
    ensures |s| == n && forall i :: 0 <= i < n ==> s[i] == 0
  {
    seq(n, _ => 0)
  }

  /** The low `k` bytes of n, most significant first. */
  function BigEndian(n: nat, k: nat): (s: seq<byte>)
    ensures |s| == k
    decreases k, n
  {
    if k == 0 then [] else BigEndian(n / 0x100, k - 1) + [n % 0x100]
  }

  function Pad(msg: seq<byte>): (p: seq<byte>)
    ensures |p| == |msg| + 9 + ZeroBytes(|msg|)
    ensures |p| % 64 == 0
  {
    msg + [0x80] + Zeros(ZeroBytes(|msg|)) + BigEndian(8 * |msg|, 8)
  }

  // --- Sections 5.2.1 and 6.2.2: hash computation ---

  function Be32(s: seq<byte>, i: nat): word
    requires i + 4 <= |s|
  {
    s[i] as int * 0x100_0000 + s[i + 1] as int * 0x1_0000 + s[i + 2] as int * 0x100 + s[i + 3]
  }

  /** The message schedule words W_0 .. W_{n-1} of the block that starts at `off`. */
  function Schedule(p: seq<byte>, off: nat, n: nat): (w: seq<word>)
    requires off + 64 <= |p| && n <= 64
    ensures |w| == n
  {
    if n == 0 then []
    else
      var w := Schedule(p, off, n - 1);
      var t := n - 1;
      w + [if t < 16 then Be32(p, off + 4 * t) else Extend(w[t - 2], w[t - 7], w[t - 15], w[t - 16])]
  }

  function Extend(w2: word, w7: word, w15: word, w16: word): word
  {
    Add(Add(Add(SmallSigma1(w2), w7), SmallSigma0(w15)), w16)
  }

  function Round(v: Vars, k: word, w: word): Vars
  {
    var t1 := Add(Add(Add(Add(v.h, BigSigma1(v.e)), Ch(v.e, v.f, v.g)), k), w);
    var t2 := Add(BigSigma0(v.a), Maj(v.a, v.b, v.c));
    Vars(Add(t1, t2), v.a, v.b, v.c, Add(v.d, t1), v.e, v.f, v.g)
  }

  /** The working variables after rounds 0..t-1. */
  function Rounds(v: Vars, w: seq<word>, t: nat): Vars
    requires |w| == 64 && t <= 64
  {
    if t == 0 then v else Round(Rounds(v, w, t - 1), K[t - 1], w[t - 1])
  }

  function AddVars(x: Vars, y: Vars): Vars
  {
    Vars(Add(x.a, y.a), Add(x.b, y.b), Add(x.c, y.c), Add(x.d, y.d),
         Add(x.e, y.e), Add(x.f, y.f), Add(x.g, y.g), Add(x.h, y.h))
  }

  /** One iteration of section 6.2.2: the hash value after the block at `off`. */
  function Compress(h: Vars, p: seq<byte>, off: nat): Vars
    requires off + 64 <= |p|
  {
    AddVars(Rounds(h, Schedule(p, off, 64), 64), h)
  }

  /** The hash value after the first `n` blocks. */
  function HashBlocks(p: seq<byte>, n: nat): Vars
    requires 64 * n <= |p|
  {
    if n == 0 then H0
    else Compress(HashBlocks(p, n - 1), p, 64 * (n - 1))
  }

  function Hash(msg: seq<byte>): Vars { HashBlocks(Pad(msg), |Pad(msg)| / 64) }

  // --- What the word operations do, bit by bit ---

  lemma ZipHalves(op: (bool, bool) -> bool, x: nat, y: nat)
    requires !op(false, false)
    ensures Zip(op, x, y) / 2 == Zip(op, x / 2, y / 2) && (Zip(op, x, y) % 2 == 1) == op(x % 2 == 1, y % 2 == 1)
  {
    if x == 0 && y == 0 {
      assert Zip(op, x, y) == 0;
    } else {
      var half, bit := Zip(op, x / 2, y / 2), if op(x % 2 == 1, y % 2 == 1) then 1 else 0;
      assert Zip(op, x, y) == 2 * half + bit;
      HalfAndBit(half, bit);
    }
  }

  lemma HalfAndBit(half: nat, bit: nat)
    requires bit <= 1
    ensures (2 * half + bit) / 2 == half && (2 * half + bit) % 2 == bit
  {
  }

  lemma {:induction false} BitZip(op: (bool, bool) -> bool, x: nat, y: nat, i: nat)
    requires !op(false, false)
    ensures Bit(Zip(op, x, y), i) == op(Bit(x, i), Bit(y, i))
    decreases i
  {
    hide Zip;
    ZipHalves(op, x, y);
    if i > 0 { BitZip(op, x / 2, y / 2, i - 1); }
  }

  lemma BitAnd(x: word, y: word, i: nat)
    ensures Bit(And(x, y), i) == (Bit(x, i) && Bit(y, i))
  {
    hide Bit, Zip;
    BitZip((p, q) => p && q, x, y, i);
  }

  lemma BitOr(x: word, y: word, i: nat)
    ensures Bit(Or(x, y), i) == (Bit(x, i) || Bit(y, i))
  {
    hide Bit, Zip;
    BitZip((p, q) => p || q, x, y, i);
  }

  lemma BitXor(x: word, y: word, i: nat)
    ensures Bit(Xor(x, y), i) == (Bit(x, i) != Bit(y, i))
  {
    hide Bit, Zip;
    BitZip((p, q) => p != q, x, y, i);
  }

  lemma HalfOfComplement(p: nat, x: nat)
    requires x < 2 * p
    ensures (2 * p - 1 - x) / 2 == p - 1 - x / 2 && ((2 * p - 1 - x) % 2 == 1) == (x % 2 != 1)
  {
    var h, b := x / 2, x % 2;
    assert 2 * p - 1 - x == 2 * (p - 1 - h) + (1 - b);
    HalfAndBit(p - 1 - h, 1 - b);
  }

  lemma {:induction false} BitComplement(x: nat, n: nat, i: nat)
    requires i < n && x < Pow2(n)
    ensures Bit(Pow2(n) - 1 - x, i) == !Bit(x, i)
    decreases n
  {
    HalfOfComplement(Pow2(n - 1), x);
    if i > 0 { BitComplement(x / 2, n - 1, i - 1); }
  }

  lemma BitNot(x: word, i: nat)
    requires i < 32
    ensures Bit(Not(x), i) == !Bit(x, i)
  {
    hide Bit;
    WordModulus();
    BitComplement(x, 32, i);
  }

  /** Ch of section 4.1.2: each bit of x chooses between those of y and z. */
  lemma ChChooses(x: word, y: word, z: word, i: nat)
    requires i < 32
    ensures Bit(Ch(x, y, z), i) == if Bit(x, i) then Bit(y, i) else Bit(z, i)
  {
    hide Bit, And, Xor, Not;
    BitXor(And(x, y), And(Not(x), z), i);
    BitAnd(x, y, i);
    BitAnd(Not(x), z, i);
    BitNot(x, i);
  }

  /** Maj of section 4.1.2: each bit is that of at least two of the three. */
  lemma MajVotes(x: word, y: word, z: word, i: nat)
    ensures var a, b, c := Bit(x, i), Bit(y, i), Bit(z, i); Bit(Maj(x, y, z), i) == ((a && b) || (a && c) || (b && c))
  {
    hide Bit, And, Xor;
    BitXor(Xor(And(x, y), And(x, z)), And(y, z), i);
    BitXor(And(x, y), And(x, z), i);
    BitAnd(x, y, i);
    BitAnd(x, z, i);
    BitAnd(y, z, i);
  }

  lemma {:induction false} BitShr(x: word, n: nat, i: nat)
    ensures Bit(Shr(x, n), i) == Bit(x, i + n)
    decreases n
  {
    if n > 0 { BitShr(x / 2, n - 1, i); }
  }

  /** Reducing modulo 2^n keeps the low n bits. */
  lemma {:induction false} BitMod(x: nat, n: nat, i: nat)
    requires i < n && x < 2 * Pow2(n)
    ensures Bit(if x < Pow2(n) then x else x - Pow2(n), i) == Bit(x, i)
    decreases n
  {
    if i > 0 {
      assert x >= Pow2(n) ==> (x - Pow2(n)) / 2 == x / 2 - Pow2(n - 1);
      BitMod(x / 2, n - 1, i - 1);
    }
  }

  lemma {:induction false} BitShl(x: word, n: nat, i: nat)
    requires i < 32
    ensures Bit(Shl(x, n), i) == (i >= n && Bit(x, i - n))
    decreases n
  {
    if n > 0 {
      BitShl(Add(x, x), n - 1, i);
      if i >= n - 1 {
        WordModulus();
        BitMod(2 * x, 32, i - (n - 1));
      }
    }
  }

  lemma {:induction false} NoHighBits(x: nat, n: nat, i: nat)
    requires x < Pow2(n) && i >= n
    ensures !Bit(x, i)
    decreases n + i
  {
    if n > 0 { NoHighBits(x / 2, n - 1, i - 1); }
    else if i > 0 { NoHighBits(x, 0, i - 1); }
  }

  /** ROTR is the circular right shift of section 2.2.2: result bit i is argument bit (i + n) mod 32. */
  lemma RotrRotates(x: word, n: nat, i: nat)
    requires n <= 32 && i < 32
    ensures Bit(Rotr(x, n), i) == Bit(x, if i + n < 32 then i + n else i + n - 32)
  {
    var hi, lo := Shr(x, n), Shl(x, 32 - n);
    assert Bit(Or(hi, lo), i) == (Bit(hi, i) || Bit(lo, i)) by { BitOr(hi, lo, i); }
    assert Bit(hi, i) == Bit(x, i + n) by { BitShr(x, n, i); }
    assert Bit(lo, i) == (i + n >= 32 && Bit(x, i + n - 32)) by { BitShl(x, 32 - n, i); }
    if i + n >= 32 {
      assert !Bit(x, i + n) by {
        WordModulus();
        NoHighBits(x, 32, i + n);
      }
    }
  }

  // --- Properties of the padding ---

  lemma {:induction false} BigEndianInjective(m: nat, n: nat, k: nat)
    requires m < Pow256(k) && n < Pow256(k)
    requires BigEndian(m, k) == BigEndian(n, k)
    ensures m == n
    decreases k
  {
    if k > 0 {
      var p, q := BigEndian(m, k), BigEndian(n, k);
      assert p[..k - 1] == BigEndian(m / 0x100, k - 1) && q[..k - 1] == BigEndian(n / 0x100, k - 1);
      assert p[k - 1] == m % 0x100 && q[k - 1] == n % 0x100;
      BigEndianInjective(m / 0x100, n / 0x100, k - 1);
    }
  }

  function Pow256(k: nat): nat { if k == 0 then 1 else 0x100 * Pow256(k - 1) }

  /** A bit count below 2^64, the limit of the standard. */
  predicate Countable(msg: seq<byte>) { 8 * |msg| < Pow256(8) }

  /** Two messages with the same padded form are the same message. */
  lemma PadInjective(m: seq<byte>, n: seq<byte>)
    requires Countable(m) && Countable(n)
    ensures Pad(m) == Pad(n) ==> m == n
  {
    if Pad(m) == Pad(n) {
      var p := Pad(m);
      assert p[|p| - 8..] == BigEndian(8 * |m|, 8);
      assert Pad(n)[|p| - 8..] == BigEndian(8 * |n|, 8);
      BigEndianInjective(8 * |m|, 8 * |n|, 8);
      assert m == p[..|m|] == Pad(n)[..|n|] == n;
    }
  }

  /** The padded length is the least multiple of 64 that leaves room for the 0x80 byte and the length. */
  lemma PadLengthLeast(len: nat, n: nat)
    requires n % 64 == 0 && n >= len + 9
    ensures len + 9 + ZeroBytes(len) <= n
    ensures len + 9 + ZeroBytes(len) == 64 * ((len + 72) / 64)
  {
    var size := len + 9 + ZeroBytes(len);
    assert size % 64 == 0 && size - 64 < len + 9 <= size;
  }
}

/** The hand-written digest that keys stored attempts (frontend/lib/pending-apply.ts). */
module PendingDigest {
  import opened Fips180

  /** JavaScript numbers on which integer arithmetic is exact. */
  type Exact = x: int | -0x20_0000_0000_0000 <= x <= 0x20_0000_0000_0000

  // --- ECMAScript's 32-bit operators on exact integers ---

  function ToUint32(x: int): word { x % MODULUS }

  function ToInt32(x: int): (r: int)
    ensures ToUint32(r) == ToUint32(x)
    ensures -0x8000_0000 <= r < 0x8000_0000
  {
    var u := ToUint32(x);
    if u < 0x8000_0000 then u else u - MODULUS
  }

  function JsAnd(x: int, y: int): int { ToInt32(And(ToUint32(x), ToUint32(y))) }

  function JsOr(x: int, y: int): int { ToInt32(Or(ToUint32(x), ToUint32(y))) }

  function JsXor(x: int, y: int): int { ToInt32(Xor(ToUint32(x), ToUint32(y))) }

  function JsNot(x: int): int { ToInt32(Not(ToUint32(x))) }

  /** The shifts use the low five bits of their count. */
  function JsShl(x: int, n: nat): int { ToInt32(Shl(ToUint32(x), n % 32)) }

  function JsShr(x: int, n: nat): int { HalveFloor(ToInt32(x), n % 32) }

  function HalveFloor(x: int, n: nat): int
    decreases n
  {
    if n == 0 then x else HalveFloor(x / 2, n - 1)
  }

  function JsUshr(x: int, n: nat): int { Shr(ToUint32(x), n % 32) }

  function JsRotr(x: int, n: nat): int
    requires n <= 32
  {
    JsOr(JsUshr(x, n), JsShl(x, 32 - n))
  }

  /** The signed result of the source's `rotr` names the same word as ROTR. */
  lemma RotrAgrees(x: word, n: nat)
    requires 0 < n < 32
    ensures ToUint32(JsRotr(x, n)) == Rotr(x, n)
  {
    WordOf(x);
    WordOf(Shr(x, n));
    WordOf(Shl(x, 32 - n));
    WordOf(Or(Shr(x, n), Shl(x, 32 - n)));
  }

  lemma WordOf(x: word)
    ensures ToUint32(x) == x && ToUint32(ToInt32(x)) == x
  {
  }

  lemma Uint32Sum(x: int, y: int)
    ensures ToUint32(x + y) == Add(ToUint32(x), ToUint32(y))
  {
  }

  // --- Hexadecimal output ---

  function HexChar(d: nat): (c: char)
    requires d < 16
    ensures HexDigit(c) == d
  {
    if d < 10 then ('0' as int + d) as char else ('a' as int + d - 10) as char
  }

  /** `x.toString(16)` */
  function ToString16(x: nat): (s: string)
    ensures |s| >= 1
  {
    if x < 16 then [HexChar(x)] else ToString16(x / 16) + [HexChar(x % 16)]
  }

  /** `s.padStart(n, "0")` */
  function PadStart(s: string, n: nat): (r: string)
  {
    if |s| >= n then s else seq(n - |s|, _ => '0') + s
  }

  function HexWord(x: word): string { PadStart(ToString16(x), 8) }

  /** The words of `h` in hexadecimal, joined. */
  function HexJoin(ws: seq<word>): string
  {
    if ws == [] then "" else HexWord(ws[0]) + HexJoin(ws[1..])
  }

  function Words(v: Vars): seq<word> { [v.a, v.b, v.c, v.d, v.e, v.f, v.g, v.h] }

  /** The number a hexadecimal string denotes. */
  function HexValue(s: string): nat
  {
    if s == "" then 0 else 16 * HexValue(s[..|s| - 1]) + HexDigit(s[|s| - 1])
  }

  function HexDigit(c: char): nat
  {
    if '0' <= c <= '9' then c as int - '0' as int
    else if 'a' <= c <= 'f' then 10 + (c as int - 'a' as int) else 0
  }

  function Pow16(k: nat): nat { if k == 0 then 1 else 16 * Pow16(k - 1) }

  lemma {:induction false} ToString16Value(x: nat, k: nat)
    requires x < Pow16(k) && k > 0
    ensures |ToString16(x)| <= k && HexValue(ToString16(x)) == x
    decreases k
  {
    if x >= 16 {
      ToString16Value(x / 16, k - 1);
      assert ToString16(x)[..|ToString16(x)| - 1] == ToString16(x / 16);
    } else {
      assert ToString16(x)[..0] == "";
    }
  }

  lemma {:induction false} PadStartValue(s: string, n: nat)
    ensures HexValue(PadStart(s, n)) == HexValue(s)
    decreases |s|, n
  {
    if |s| < n {
      var r := PadStart(s, n);
      if s == "" {
        assert r[..n - 1] == PadStart(s, n - 1);
        PadStartValue(s, n - 1);
      } else {
        assert r[..n - 1] == PadStart(s[..|s| - 1], n - 1);
        PadStartValue(s[..|s| - 1], n - 1);
      }
    }
  }

  /** A word prints as eight characters that read back as the word. */
  lemma HexWordValue(x: word)
    ensures |HexWord(x)| == 8 && HexValue(HexWord(x)) == x
  {
    assert Pow16(8) == MODULUS;
    ToString16Value(x, 8);
    PadStartValue(ToString16(x), 8);
  }

  /** Different hash values print as different strings, so the storage key identifies the hash. */
  lemma {:induction false} HexJoinInjective(u: seq<word>, v: seq<word>)
    requires HexJoin(u) == HexJoin(v)
    ensures u == v
  {
    if u == [] || v == [] {
      if u != [] { HexWordValue(u[0]); }
      if v != [] { HexWordValue(v[0]); }
    } else {
      HexWordValue(u[0]);
      HexWordValue(v[0]);
      assert HexJoin(u)[..8] == HexWord(u[0]) && HexJoin(v)[..8] == HexWord(v[0]);
      assert HexJoin(u)[8..] == HexJoin(u[1..]) && HexJoin(v)[8..] == HexJoin(v[1..]);
      HexJoinInjective(u[1..], v[1..]);
    }
  }

  predicate IsHexText(s: string) { forall i :: 0 <= i < |s| ==> s[i] in "0123456789abcdef" }

  lemma {:induction false} ToString16Digits(x: nat)
    ensures IsHexText(ToString16(x))
  {
    if x >= 16 { ToString16Digits(x / 16); }
  }

  /** The printed hash is the words in order, eight lower-case digits each. */
  lemma {:induction false} HexJoinAt(ws: seq<word>, i: nat)
    requires i < |ws|
    ensures |HexJoin(ws)| == 8 * |ws|
    ensures var part := HexJoin(ws)[8 * i..8 * i + 8]; HexValue(part) == ws[i] && IsHexText(part)
  {
    hide HexWord, HexValue;
    HexWordValue(ws[0]);
    if |ws| > 1 { HexJoinAt(ws[1..], if i > 0 then i - 1 else 0); }
    var text := HexJoin(ws);
    if i == 0 {
      assert text[0..8] == HexWord(ws[0]);
      HexWordDigits(ws[0]);
    } else {
      assert text[8 * i..8 * i + 8] == HexJoin(ws[1..])[8 * (i - 1)..8 * (i - 1) + 8];
    }
  }

  lemma HexWordDigits(x: word)
    ensures IsHexText(HexWord(x))
  {
    hide ToString16;
    ToString16Digits(x);
  }

  // --- The digest itself ---

  datatype Result<T> = Ok(value: T) | RangeError

  /** `new Uint8Array(((len + 9 + 63) >> 6) << 6)`: the size the source asks for. */
  function PaddedSize(len: nat): int { JsShl(JsShr(len + 9 + 63, 6), 6) }

  /** The size is the standard's padded length exactly while it fits a signed 32-bit shift. */
  lemma PaddedSizeExact(msg: seq<byte>)
    ensures |msg| + 72 < 0x8000_0000 ==> PaddedSize(|msg|) == |Pad(msg)|
    ensures |msg| + 72 >= 0x8000_0000 ==> PaddedSize(|msg|) < |msg|
  {
    SizeInBlocks(|msg|);
    PadLengthLeast(|msg|, |Pad(msg)|);
    SignedRange(|msg| + 72);
  }

  lemma SizeInBlocks(len: nat)
    ensures PaddedSize(len) == 64 * (ToInt32(len + 72) / 64)
  {
    hide Shl, ToUint32, ToInt32, HalveFloor, JsShl;
    var x := ToInt32(len + 72);
    var y := HalveFloor(x, 6);
    assert JsShr(len + 72, 6) == y && -0x8000_0000 <= x < 0x8000_0000;
    assert y == x / 64 by { HalveSix(x); }
    assert JsShl(y, 6) == 64 * y by { ShlBySix(y); }
  }

  lemma HalveSix(x: int)
    ensures HalveFloor(x, 6) == x / 64
  {
  }

  lemma SignedRange(x: nat)
    ensures x < 0x8000_0000 ==> ToInt32(x) == x
    ensures x >= 0x8000_0000 ==> ToInt32(x) <= x - MODULUS
  {
  }

  function Doubled(y: int, n: nat): int
    decreases n
  {
    if n == 0 then y else Doubled(2 * y, n - 1)
  }

  lemma {:induction false} ShlDoubles(y: int, n: nat)
    ensures Shl(ToUint32(y), n) == ToUint32(Doubled(y, n))
    decreases n
  {
    if n > 0 {
      Uint32Sum(y, y);
      ShlDoubles(2 * y, n - 1);
    }
  }

  lemma ShlBySix(y: int)
    requires -0x200_0000 <= y < 0x200_0000
    ensures JsShl(y, 6) == 64 * y
  {
    hide Shl, ToUint32, ToInt32, Doubled;
    DoubledSix(y);
    ShlDoubles(y, 6);
    SignedWord(64 * y);
    assert 6 % 32 == 6;
  }

  lemma DoubledSix(y: int)
    ensures Doubled(y, 6) == 64 * y
  {
  }

  lemma SignedWord(z: int)
    requires -0x8000_0000 <= z < 0x8000_0000
    ensures ToInt32(ToUint32(z)) == z
  {
  }

  method WriteUint32(a: array<byte>, i: nat, v: word)
    requires i + 4 <= a.Length
    modifies a
    ensures a[..] == old(a[..i]) + BigEndian(v, 4) + old(a[i + 4..])
  {
    var be := BigEndian(v, 4);
    a[i], a[i + 1], a[i + 2], a[i + 3] := be[0], be[1], be[2], be[3];
  }

  /** Two 32-bit stores, high half first, write the 64-bit count. */
  lemma CountInHalves(n: nat)
    ensures BigEndian(n, 8) == BigEndian(n / MODULUS, 4) + BigEndian(n % MODULUS, 4)
  {
    assert BigEndian(n, 8) == BigEndian(n / MODULUS, 4) + LowBytes(n) by { FourBytes(n, 4); }
    assert BigEndian(n % MODULUS, 4) == LowBytes(n) by { FourBytes(n % MODULUS, 0); LowBytesOfMod(n); }
  }

  function LowBytes(n: nat): seq<byte>
  {
    [n / 0x100_0000 % 0x100, n / 0x1_0000 % 0x100, n / 0x100 % 0x100, n % 0x100]
  }

  lemma FourBytes(n: nat, k: nat)
    ensures BigEndian(n, k + 4) == BigEndian(n / MODULUS, k) + LowBytes(n)
  {
    hide BigEndian;
    var high := n / 0x1_0000;
    TwoBytes(n, k + 2);
    TwoBytes(high, k);
    assert high / 0x1_0000 == n / MODULUS && high / 0x100 == n / 0x100_0000;
    var front := BigEndian(n / MODULUS, k);
    assert front + [high / 0x100 % 0x100, high % 0x100] + [n / 0x100 % 0x100, n % 0x100] == front + LowBytes(n);
  }

  lemma TwoBytes(n: nat, k: nat)
    ensures BigEndian(n, k + 2) == BigEndian(n / 0x1_0000, k) + [n / 0x100 % 0x100, n % 0x100]
  {
    assert BigEndian(n, k + 2) == BigEndian(n / 0x100, k + 1) + [n % 0x100];
  }

  lemma LowBytesOfMod(n: nat)
    ensures LowBytes(n % MODULUS) == LowBytes(n)
  {
    var q, m := n / MODULUS, n % MODULUS;
    assert n / 0x100 == 0x100 * (0x1_0000 * q) + m / 0x100;
    assert n / 0x1_0000 == 0x100 * (0x100 * q) + m / 0x1_0000;
    assert n / 0x100_0000 == 0x100 * q + m / 0x100_0000;
    DropHigh(0x1_0000 * q, m / 0x100);
    DropHigh(0x100 * q, m / 0x1_0000);
    DropHigh(q, m / 0x100_0000);
    DropHigh(0x100_0000 * q, m);
  }

  lemma DropHigh(q: nat, m: nat)
    ensures (0x100 * q + m) % 0x100 == m % 0x100
  {
  }

  method CopyMessage(msg: seq<byte>, size: nat) returns (padded: array<byte>)
    requires size >= |msg|
    ensures fresh(padded) && padded[..] == msg + Zeros(size - |msg|)
  {
    padded := new byte[size](_ => 0);
    for i := 0 to |msg|
      invariant padded[..] == msg[..i] + Zeros(size - i)
    {
      padded[i] := msg[i];
      assert msg[..i + 1] == msg[..i] + [msg[i]];
    }
    assert msg[..|msg|] == msg;
  }

  method RequestedSize(msg: seq<byte>) returns (size: int)
    ensures |msg| + 72 < 0x8000_0000 ==> size == |Pad(msg)|
    ensures |msg| + 72 >= 0x8000_0000 ==> size < |msg|
  {
    size := PaddedSize(|msg|);
    PaddedSizeExact(msg);
  }

  /** Overwrites the last eight bytes with the bit count. */
  method WriteCount(a: array<byte>, bits: nat)
    requires a.Length >= 8 && bits < 0x1_0000_0000_0000_0000
    modifies a
    ensures a[..] == old(a[..a.Length - 8]) + BigEndian(bits, 8)
  {
    var n := a.Length;
    ghost var before := a[..n - 8];
    ghost var hi := BigEndian(bits / MODULUS, 4);
    ghost var lo := BigEndian(bits % MODULUS, 4);
    assert BigEndian(bits, 8) == hi + lo by { CountInHalves(bits); }
    WriteUint32(a, n - 8, bits / MODULUS);
    assert a[..n - 4] == before + hi;
    WriteUint32(a, n - 4, bits % MODULUS);
    assert a[..] == before + hi + lo;
  }

  method PadMessage(msg: seq<byte>) returns (r: Result<array<byte>>)
    ensures |msg| + 72 < 0x8000_0000 ==> r.Ok? && fresh(r.value) && r.value[..] == Pad(msg)
    ensures |msg| + 72 >= 0x8000_0000 ==> r.RangeError?
  {
    var len := |msg|;
    var size := RequestedSize(msg);
    if size < len {  // a negative length, or `set` past the end
      return RangeError;
    }
    var padded := CopyMessage(msg, size);
    padded[len] := 0x80;
    var bits: Exact := len * 8;
    ghost var k := ZeroBytes(len);
    assert padded[..size - 8] == msg + [0x80] + Zeros(k);
    WriteCount(padded, bits);
    r := Ok(padded);
  }

  lemma XorAgrees(x: int, y: int)
    ensures ToUint32(JsXor(x, y)) == Xor(ToUint32(x), ToUint32(y))
  {
    WordOf(Xor(ToUint32(x), ToUint32(y)));
  }

  lemma SumOfFour(a: int, b: int, c: int, d: int)
    ensures ToUint32(a + b + c + d) == Add(Add(Add(ToUint32(d), ToUint32(c)), ToUint32(b)), ToUint32(a))
  {
    Uint32Sum(d, c);
    Uint32Sum(d + c, b);
    Uint32Sum(d + c + b, a);
    assert a + b + c + d == d + c + b + a;
  }

  /** One extended schedule word, summed as signed numbers and truncated on store. */
  method ScheduleWord(w16: word, w15: word, w7: word, w2: word) returns (r: word)
    ensures r == Extend(w2, w7, w15, w16)
  {
    var s0: Exact := SmallSigma0Js(w15);
    var s1: Exact := SmallSigma1Js(w2);
    var sum: Exact := w16 + s0 + w7 + s1;
    SumOfFour(w16, s0, w7, s1);
    WordOf(w16);
    WordOf(w7);
    r := ToUint32(sum);
  }

  method SmallSigma0Js(x: word) returns (r: Exact)
    ensures ToUint32(r) == SmallSigma0(x) && -0x8000_0000 <= r < 0x8000_0000
  {
    r := JsXor(JsXor(JsRotr(x, 7), JsRotr(x, 18)), JsUshr(x, 3));
    XorAgrees(JsXor(JsRotr(x, 7), JsRotr(x, 18)), JsUshr(x, 3));
    XorAgrees(JsRotr(x, 7), JsRotr(x, 18));
    RotrAgrees(x, 7);
    RotrAgrees(x, 18);
    WordOf(x);
    WordOf(Shr(x, 3));
  }

  method SmallSigma1Js(x: word) returns (r: Exact)
    ensures ToUint32(r) == SmallSigma1(x) && -0x8000_0000 <= r < 0x8000_0000
  {
    r := JsXor(JsXor(JsRotr(x, 17), JsRotr(x, 19)), JsUshr(x, 10));
    XorAgrees(JsXor(JsRotr(x, 17), JsRotr(x, 19)), JsUshr(x, 10));
    XorAgrees(JsRotr(x, 17), JsRotr(x, 19));
    RotrAgrees(x, 17);
    RotrAgrees(x, 19);
    WordOf(x);
    WordOf(Shr(x, 10));
  }

  /** Fills `w` with the message schedule of the block at `off`. */
  method FillSchedule(padded: array<byte>, off: nat, w: array<word>)
    requires off + 64 <= padded.Length && w.Length == 64
    modifies w
    ensures w[..] == Schedule(padded[..], off, 64)
  {
    hide Be32, Extend, Schedule;
    assert w[..0] == Schedule(padded[..], off, 0);
    for i := 0 to 16
      invariant w[..i] == Schedule(padded[..], off, i)
    {
      ScheduleNext(padded[..], off, i);
      w[i] := Be32(padded[..], off + i * 4);
      assert w[..i + 1] == w[..i] + [w[i]];
    }
    for i := 16 to 64
      invariant w[..i] == Schedule(padded[..], off, i)
    {
      ScheduleNext(padded[..], off, i);
      assert forall t :: 0 <= t < i ==> w[t] == w[..i][t];
      w[i] := ScheduleWord(w[i - 16], w[i - 15], w[i - 7], w[i - 2]);
      assert w[..i + 1] == w[..i] + [w[i]];
    }
    assert w[..] == w[..64];
  }

  lemma ScheduleNext(p: seq<byte>, off: nat, t: nat)
    requires off + 64 <= |p| && t < 64
    ensures var w := Schedule(p, off, t);
            Schedule(p, off, t + 1) == w + [if t < 16 then Be32(p, off + 4 * t) else Extend(w[t - 2], w[t - 7], w[t - 15], w[t - 16])]
  {
    hide Be32, Extend;
  }

  lemma AndAgrees(x: int, y: int)
    ensures ToUint32(JsAnd(x, y)) == And(ToUint32(x), ToUint32(y))
  {
    WordOf(And(ToUint32(x), ToUint32(y)));
  }

  /** Three rotations combined with `^`, as in the two big sigmas. */
  method BigSigmaJs(x: word, i: nat, j: nat, k: nat) returns (r: Exact)
    requires 0 < i < 32 && 0 < j < 32 && 0 < k < 32
    ensures ToUint32(r) == Xor(Xor(Rotr(x, i), Rotr(x, j)), Rotr(x, k)) && -0x8000_0000 <= r < 0x8000_0000
  {
    r := JsXor(JsXor(JsRotr(x, i), JsRotr(x, j)), JsRotr(x, k));
    XorAgrees(JsXor(JsRotr(x, i), JsRotr(x, j)), JsRotr(x, k));
    XorAgrees(JsRotr(x, i), JsRotr(x, j));
    RotrAgrees(x, i);
    RotrAgrees(x, j);
    RotrAgrees(x, k);
  }

  method ChJs(e: word, f: word, g: word) returns (r: Exact)
    ensures ToUint32(r) == Ch(e, f, g) && -0x8000_0000 <= r < 0x8000_0000
  {
    r := JsXor(JsAnd(e, f), JsAnd(JsNot(e), g));
    XorAgrees(JsAnd(e, f), JsAnd(JsNot(e), g));
    AndAgrees(e, f);
    AndAgrees(JsNot(e), g);
    WordOf(e);
    WordOf(f);
    WordOf(g);
    WordOf(Not(e));
  }

  method MajJs(a: word, b: word, c: word) returns (r: Exact)
    ensures ToUint32(r) == Maj(a, b, c) && -0x8000_0000 <= r < 0x8000_0000
  {
    r := JsXor(JsXor(JsAnd(a, b), JsAnd(a, c)), JsAnd(b, c));
    XorAgrees(JsXor(JsAnd(a, b), JsAnd(a, c)), JsAnd(b, c));
    XorAgrees(JsAnd(a, b), JsAnd(a, c));
    AndAgrees(a, b);
    AndAgrees(a, c);
    AndAgrees(b, c);
    WordOf(a);
    WordOf(b);
    WordOf(c);
  }

  lemma SumOfFive(a: int, b: int, c: int, d: int, e: int)
    ensures ToUint32(a + b + c + d + e)
            == Add(Add(Add(Add(ToUint32(a), ToUint32(b)), ToUint32(c)), ToUint32(d)), ToUint32(e))
  {
    Uint32Sum(a, b);
    Uint32Sum(a + b, c);
    Uint32Sum(a + b + c, d);
    Uint32Sum(a + b + c + d, e);
  }

  /** T1 of section 6.2.2, left untruncated as in the source. */
  method T1(e: word, f: word, g: word, hh: word, k: word, w: word) returns (t1: Exact)
    ensures ToUint32(t1) == Add(Add(Add(Add(hh, BigSigma1(e)), Ch(e, f, g)), k), w)
    ensures -MODULUS <= t1 <= 4 * MODULUS
  {
    var sigma := BigSigmaJs(e, 6, 11, 25);
    var ch := ChJs(e, f, g);
    t1 := hh + sigma + ch + k + w;
    SumOfFive(hh, sigma, ch, k, w);
    WordOf(hh);
    WordOf(k);
    WordOf(w);
  }

  method T2(a: word, b: word, c: word) returns (t2: Exact)
    ensures ToUint32(t2) == Add(BigSigma0(a), Maj(a, b, c))
    ensures -MODULUS <= t2 <= MODULUS
  {
    var sigma := BigSigmaJs(a, 2, 13, 22);
    var maj := MajJs(a, b, c);
    t2 := sigma + maj;
    Uint32Sum(sigma, maj);
  }

  /** One round: the eight working variables shift by one and two of them take a truncated sum. */
  method OneRound(v: Vars, k: word, w: word) returns (r: Vars)
    ensures r == Round(v, k, w)
  {
    var a, b, c, d, e, f, g, hh := v.a, v.b, v.c, v.d, v.e, v.f, v.g, v.h;
    var t1 := T1(e, f, g, hh, k, w);
    var t2 := T2(a, b, c);
    hh := g;
    g := f;
    f := e;
    e := TruncatedSum(d, t1);
    WordOf(d);
    d := c;
    c := b;
    b := a;
    a := TruncatedSum(t1, t2);
    r := Vars(a, b, c, d, e, f, g, hh);
  }

  /** `(x + y) >>> 0` */
  method TruncatedSum(x: Exact, y: Exact) returns (r: word)
    requires -0x10_0000_0000 <= x <= 0x10_0000_0000 && -0x10_0000_0000 <= y <= 0x10_0000_0000
    ensures r == Add(ToUint32(x), ToUint32(y))
  {
    var sum: Exact := x + y;
    Uint32Sum(x, y);
    r := ToUint32(sum);
  }

  method RunRounds(v: Vars, w: array<word>) returns (r: Vars)
    requires w.Length == 64
    ensures r == Rounds(v, w[..], 64)
  {
    r := v;
    for i := 0 to 64
      invariant r == Rounds(v, w[..], i)
    {
      r := OneRound(r, K[i], w[i]);
    }
  }

  /** Writes `h[k] += x` for the eight words: a Uint32Array store truncates. */
  method AddInto(h: array<word>, v: Vars)
    requires h.Length == 8
    modifies h
    ensures h[..] == Words(AddVars(v, VarsOf(old(h[..]))))
  {
    h[0] := Add(h[0], v.a);
    h[1] := Add(h[1], v.b);
    h[2] := Add(h[2], v.c);
    h[3] := Add(h[3], v.d);
    h[4] := Add(h[4], v.e);
    h[5] := Add(h[5], v.f);
    h[6] := Add(h[6], v.g);
    h[7] := Add(h[7], v.h);
  }

  function VarsOf(ws: seq<word>): Vars
    requires |ws| == 8
  {
    Vars(ws[0], ws[1], ws[2], ws[3], ws[4], ws[5], ws[6], ws[7])
  }

  method ProcessBlock(padded: array<byte>, off: nat, w: array<word>, h: array<word>)
    requires off + 64 <= padded.Length && w.Length == 64 && h.Length == 8 && w != h
    modifies w, h
    ensures VarsOf(h[..]) == Compress(VarsOf(old(h[..])), padded[..], off)
  {
    hide Schedule, Rounds, Add;
    FillSchedule(padded, off, w);
    var v := RunRounds(VarsOf(h[..]), w);
    AddInto(h, v);
  }

  method HashPadded(padded: array<byte>) returns (h: array<word>)
    requires padded.Length % 64 == 0
    ensures fresh(h) && h.Length == 8
    ensures VarsOf(h[..]) == HashBlocks(padded[..], padded.Length / 64)
  {
    hide Compress;
    ghost var p := padded[..];
    h := new word[8] [H0.a, H0.b, H0.c, H0.d, H0.e, H0.f, H0.g, H0.h];
    var w := new word[64](_ => 0);
    var off := 0;
    ghost var n := 0;
    assert VarsOf(h[..]) == HashBlocks(p, 0);
    while off < padded.Length
      invariant off == 64 * n <= padded.Length && padded[..] == p
      invariant VarsOf(h[..]) == HashBlocks(p, n)
    {
      ProcessBlock(padded, off, w, h);
      assert HashBlocks(p, n + 1) == Compress(HashBlocks(p, n), p, 64 * n);
      off := off + 64;
      n := n + 1;
    }
  }

  /**
    * SHA-256 of a byte message in lowercase hexadecimal. Where the padded length leaves the
    * signed 32-bit range the typed-array constructor or `set` throws; otherwise the result is
    * the standard's hash.
    */
  method Sha256Hex(msg: seq<byte>) returns (r: Result<string>)
    ensures |msg| + 72 < 0x8000_0000 ==> r == Ok(HexJoin(Words(Hash(msg))))
    ensures |msg| + 72 >= 0x8000_0000 ==> r == RangeError
  {
    hide HashBlocks, HexJoin;
    var pad := PadMessage(msg);
    if pad.RangeError? {
      return RangeError;
    }
    var h := HashPadded(pad.value);
    assert h[..] == Words(VarsOf(h[..]));
    r := Ok(HexJoin(h[..]));
  }
}
