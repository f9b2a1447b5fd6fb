/** The functions of FIPS 180-4, restated: bit by bit, as sums of integers, and as recurrences over whole runs of rounds. */
module Fips180Meaning {

  import opened Fips180

  // --- Section 4.1.2 ---

  /** Bit i of x rotated right by n. */
  predicate RotrBit(x: word, n: nat, i: nat)
    requires n <= 32 && i < 32
  {
    Bit(x, if i + n < 32 then i + n else i + n - 32)
  }

  lemma ThreeWayXor(x: word, y: word, z: word, i: nat)
    ensures Bit(Xor(Xor(x, y), z), i) == ((Bit(x, i) != Bit(y, i)) != Bit(z, i))
  {
    hide Bit, Xor;
    BitXor(Xor(x, y), z, i);
    BitXor(x, y, i);
  }

  lemma BigSigmaBits(x: word, i: nat)
    requires i < 32
    ensures Bit(BigSigma0(x), i) == ((RotrBit(x, 2, i) != RotrBit(x, 13, i)) != RotrBit(x, 22, i))
    ensures Bit(BigSigma1(x), i) == ((RotrBit(x, 6, i) != RotrBit(x, 11, i)) != RotrBit(x, 25, i))
  {
    hide Bit, Xor, Rotr;
    ThreeWayXor(Rotr(x, 2), Rotr(x, 13), Rotr(x, 22), i);
    ThreeWayXor(Rotr(x, 6), Rotr(x, 11), Rotr(x, 25), i);
    RotrRotates(x, 2, i);
    RotrRotates(x, 13, i);
    RotrRotates(x, 22, i);
    RotrRotates(x, 6, i);
    RotrRotates(x, 11, i);
    RotrRotates(x, 25, i);
  }

  lemma SmallSigmaBits(x: word, i: nat)
    requires i < 32
    ensures Bit(SmallSigma0(x), i) == ((RotrBit(x, 7, i) != RotrBit(x, 18, i)) != Bit(x, i + 3))
    ensures Bit(SmallSigma1(x), i) == ((RotrBit(x, 17, i) != RotrBit(x, 19, i)) != Bit(x, i + 10))
  {
    hide Bit, Xor, Rotr, Shr;
    ThreeWayXor(Rotr(x, 7), Rotr(x, 18), Shr(x, 3), i);
    ThreeWayXor(Rotr(x, 17), Rotr(x, 19), Shr(x, 10), i);
    RotrRotates(x, 7, i);
    RotrRotates(x, 18, i);
    RotrRotates(x, 17, i);
    RotrRotates(x, 19, i);
    BitShr(x, 3, i);
    BitShr(x, 10, i);
  }

  // --- Section 5.1.1: what makes a byte string the padding of a message ---

  /** The number whose base-256 digits the bytes are. */
  function Number(s: seq<byte>): nat
  {
    if s == [] then 0 else 0x100 * Number(s[..|s| - 1]) + s[|s| - 1]
  }

  lemma {:induction false} NumberOfBigEndian(n: nat, k: nat)
    requires n < Pow256(k)
    ensures Number(BigEndian(n, k)) == n
    decreases k
  {
    if k > 0 {
      NumberOfBigEndian(n / 0x100, k - 1);
      assert BigEndian(n, k)[..k - 1] == BigEndian(n / 0x100, k - 1);
    }
  }

  /** The padding is the message, the byte 0x80, zeros, and the bit count in eight bytes, in whole blocks and no more. */
  lemma PadMeans(msg: seq<byte>, i: nat)
    requires Countable(msg)
    ensures var p := Pad(msg);
            && |p| % 64 == 0 && |msg| + 9 <= |p| < |msg| + 73
            && p[..|msg|] == msg && p[|msg|] == 0x80
            && (|msg| < i < |p| - 8 ==> p[i] == 0)
            && Number(p[|p| - 8..]) == 8 * |msg|
  {
    var p := Pad(msg);
    assert p[|p| - 8..] == BigEndian(8 * |msg|, 8);
    NumberOfBigEndian(8 * |msg|, 8);
  }

  // --- Section 6.2.2: the message schedule ---

  lemma {:induction false} SchedulePrefix(p: seq<byte>, off: nat, m: nat, n: nat)
    requires off + 64 <= |p| && m <= n <= 64
    ensures Schedule(p, off, n)[..m] == Schedule(p, off, m)
  {
    hide Extend, Be32;
    if m < n {
      SchedulePrefix(p, off, m, n - 1);
      assert Schedule(p, off, n)[..m] == Schedule(p, off, n - 1)[..m];
    }
  }

  /** The first 16 words are the block's 32-bit numbers; each later one is a sum of four modulo 2^32. */
  lemma ScheduleMeans(p: seq<byte>, off: nat, t: nat)
    requires off + 64 <= |p| && t < 64
    ensures var w := Schedule(p, off, 64);
            if t < 16 then w[t] == Number(p[off + 4 * t..off + 4 * t + 4])
            else w[t] == (SmallSigma1(w[t - 2]) + w[t - 7] + SmallSigma0(w[t - 15]) + w[t - 16]) % MODULUS
  {
    hide SmallSigma0, SmallSigma1;
    var w, v := Schedule(p, off, 64), Schedule(p, off, t);
    SchedulePrefix(p, off, t + 1, 64);
    SchedulePrefix(p, off, t, 64);
    assert w[t] == Schedule(p, off, t + 1)[t];
    if t < 16 {
      NumberOfFour(p, off + 4 * t);
    } else {
      assert v[t - 2] == w[t - 2] && v[t - 7] == w[t - 7] && v[t - 15] == w[t - 15] && v[t - 16] == w[t - 16];
      hide Schedule;
      SumOfWords(SmallSigma1(w[t - 2]), w[t - 7], SmallSigma0(w[t - 15]), w[t - 16]);
    }
  }

  lemma NumberOfFour(p: seq<byte>, i: nat)
    requires i + 4 <= |p|
    ensures Be32(p, i) == Number(p[i..i + 4])
  {
    var s := p[i..i + 4];
    assert s[..3][..2] == s[..2] && s[..2][..1] == s[..1] && s[..1][..0] == [];
    var a, b, c: int := s[0], s[1], s[2];
    assert Number(s[..1]) == a && Number(s[..2]) == 0x100 * a + b;
    assert Number(s[..3]) == 0x1_0000 * a + 0x100 * b + c;
  }

  lemma SumOfWords(a: word, b: word, c: word, d: word)
    ensures Add(Add(Add(a, b), c), d) == (a + b + c + d) % MODULUS
  {
  }

  // --- Section 6.2.2: the rounds, as a recurrence on two registers ---

  function A(v: Vars, w: seq<word>, t: nat): word
    requires |w| == 64 && t <= 64
  {
    Rounds(v, w, t).a
  }

  function E(v: Vars, w: seq<word>, t: nat): word
    requires |w| == 64 && t <= 64
  {
    Rounds(v, w, t).e
  }

  /** The eight working variables are the last four values of two registers. */
  lemma RoundsShift(v: Vars, w: seq<word>, t: nat)
    requires |w| == 64 && 3 <= t <= 64
    ensures Rounds(v, w, t) == Vars(A(v, w, t), A(v, w, t - 1), A(v, w, t - 2), A(v, w, t - 3),
                                    E(v, w, t), E(v, w, t - 1), E(v, w, t - 2), E(v, w, t - 3))
  {
    hide Add, BigSigma0, BigSigma1, Ch, Maj;
    assert Rounds(v, w, t) == Round(Rounds(v, w, t - 1), K[t - 1], w[t - 1]);
    assert Rounds(v, w, t - 1) == Round(Rounds(v, w, t - 2), K[t - 2], w[t - 2]);
    assert Rounds(v, w, t - 2) == Round(Rounds(v, w, t - 3), K[t - 3], w[t - 3]);
  }

  /** The sum called T1, before any reduction. */
  function Sum1(v: Vars, w: seq<word>, t: nat): nat
    requires |w| == 64 && 3 <= t < 64
  {
    E(v, w, t - 3) + BigSigma1(E(v, w, t)) + Ch(E(v, w, t), E(v, w, t - 1), E(v, w, t - 2)) + K[t] + w[t]
  }

  function Sum2(v: Vars, w: seq<word>, t: nat): nat
    requires |w| == 64 && 3 <= t < 64
  {
    BigSigma0(A(v, w, t)) + Maj(A(v, w, t), A(v, w, t - 1), A(v, w, t - 2))
  }

  /** T1 with its reductions, kept apart so that the sums below stay small. */
  function FiveAdd(a: word, b: word, c: word, d: word, e: word): word { Add(Add(Add(Add(a, b), c), d), e) }

  lemma RoundIs(s: Vars, k: word, w: word)
    ensures var t1 := FiveAdd(s.h, BigSigma1(s.e), Ch(s.e, s.f, s.g), k, w);
            && Round(s, k, w).a == Add(t1, Add(BigSigma0(s.a), Maj(s.a, s.b, s.c)))
            && Round(s, k, w).e == Add(s.d, t1)
  {
    hide BigSigma0, BigSigma1, Ch, Maj;
  }

  /** The next value of each register, modulo 2^32. */
  lemma RoundsRecur(v: Vars, w: seq<word>, t: nat)
    requires |w| == 64 && 3 <= t < 64
    ensures A(v, w, t + 1) == (Sum1(v, w, t) + Sum2(v, w, t)) % MODULUS
    ensures E(v, w, t + 1) == (A(v, w, t - 3) + Sum1(v, w, t)) % MODULUS
  {
    hide Add, BigSigma0, BigSigma1, Ch, Maj, A, E, Round, FiveAdd;
    RoundsShift(v, w, t);
    NextRegisters(v, w, t);
    var s := Rounds(v, w, t);
    RoundIs(s, K[t], w[t]);
    FiveAddIs(s.h, BigSigma1(s.e), Ch(s.e, s.f, s.g), K[t], w[t]);
    LastSums(Sum1(v, w, t), FiveAdd(s.h, BigSigma1(s.e), Ch(s.e, s.f, s.g), K[t], w[t]), BigSigma0(s.a), Maj(s.a, s.b, s.c), s.d);
  }

  lemma NextRegisters(v: Vars, w: seq<word>, t: nat)
    requires |w| == 64 && t < 64
    ensures A(v, w, t + 1) == Round(Rounds(v, w, t), K[t], w[t]).a && E(v, w, t + 1) == Round(Rounds(v, w, t), K[t], w[t]).e
  {
    hide Round;
  }

  /** Reducing early or late makes no difference. */
  lemma AddsUp(m: nat, x: word, n: nat, y: word)
    requires x == m % MODULUS && y == n % MODULUS
    ensures Add(x, y) == (m + n) % MODULUS
  {
  }

  lemma FiveAddIs(a: word, b: word, c: word, d: word, e: word)
    ensures FiveAdd(a, b, c, d, e) == (a + b + c + d + e) % MODULUS
  {
    SumOfWords(a, b, c, d);
    var four := Add(Add(Add(a, b), c), d);
    AddsUp(a + b + c + d, four, e, e);
  }

  lemma LastSums(sum: nat, t1: word, s0: word, maj: word, d: word)
    requires t1 == sum % MODULUS
    ensures Add(t1, Add(s0, maj)) == (sum + (s0 + maj)) % MODULUS && Add(d, t1) == (d + sum) % MODULUS
  {
    AddsUp(sum, t1, s0 + maj, Add(s0, maj));
    AddsUp(d, d, sum, t1);
  }

  /** The next hash value: the sums, modulo 2^32, of the hash value and the variables after 64 rounds of the block at `off`. */
  predicate IsNext(h: Vars, next: Vars, p: seq<byte>, off: nat)
    requires off + 64 <= |p|
  {
    var v := Rounds(h, Schedule(p, off, 64), 64);
    && next.a == (h.a + v.a) % MODULUS && next.b == (h.b + v.b) % MODULUS && next.c == (h.c + v.c) % MODULUS
    && next.d == (h.d + v.d) % MODULUS && next.e == (h.e + v.e) % MODULUS && next.f == (h.f + v.f) % MODULUS
    && next.g == (h.g + v.g) % MODULUS && next.h == (h.h + v.h) % MODULUS
  }

  /** A series of hash values that takes every block of the padded message in turn, from H0 on, ends in the digest. */
  lemma {:induction false} HashMeans(msg: seq<byte>, hs: seq<Vars>)
    requires 64 * |hs| == |Pad(msg)| + 64 && hs[0] == H0
    requires forall i :: 0 < i < |hs| ==> IsNext(hs[i - 1], hs[i], Pad(msg), 64 * (i - 1))
    ensures Hash(msg) == hs[|hs| - 1]
  {
    hide Pad, Rounds, Schedule;
    for i := 1 to |hs|
      invariant HashBlocks(Pad(msg), i - 1) == hs[i - 1]
    {
      NextIs(hs[i - 1], hs[i], Pad(msg), 64 * (i - 1));
    }
  }

  lemma NextIs(h: Vars, next: Vars, p: seq<byte>, off: nat)
    requires off + 64 <= |p| && IsNext(h, next, p, off)
    ensures Compress(h, p, off) == next
  {
    hide Rounds, Schedule;
  }
}
