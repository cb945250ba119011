/**
 The random number generator (src/xoroshiro.cpp): its state map is linear over
 GF(2) and reversible, the jumps apply fixed sums of its powers, and seeds survive
 being written and read.
 */
module Xoroshiro {
  import opened Numerals

  // ---- One word ----

  /** Addition over GF(2). */
  function Add(x: bv64, y: bv64): bv64 {
    x ^ y
  }

  function Turn49(x: bv64): bv64 {
    x.RotateLeft(49)
  }

  function Turn28(x: bv64): bv64 {
    x.RotateLeft(28)
  }

  function Shift21(x: bv64): bv64 {
    x << 21
  }

  function Back49(x: bv64): bv64 {
    x.RotateRight(49)
  }

  function Back28(x: bv64): bv64 {
    x.RotateRight(28)
  }

  function Result(s0: bv64, s1: bv64): bv64 {
    (s0 + s1).RotateLeft(17) + s0
  }

  lemma AddLaws(x: bv64, y: bv64, z: bv64)
    ensures Add(Add(x, y), z) == Add(x, Add(y, z)) && Add(x, y) == Add(y, x) && Add(x, 0) == x && Add(x, x) == 0
  {
  }

  lemma TurnsAreLinear(x: bv64, y: bv64)
    ensures Turn49(Add(x, y)) == Add(Turn49(x), Turn49(y))
    ensures Turn28(Add(x, y)) == Add(Turn28(x), Turn28(y))
  {
  }

  lemma ShiftIsLinear(x: bv64, y: bv64)
    ensures Shift21(Add(x, y)) == Add(Shift21(x), Shift21(y))
  {
  }

  lemma TurnsGoBack(x: bv64)
    ensures Back49(Turn49(x)) == x && Turn49(Back49(x)) == x && Back28(Turn28(x)) == x && Turn28(Back28(x)) == x
  {
  }

  lemma ZeroWord()
    ensures Turn49(0) == 0 && Turn28(0) == 0 && Shift21(0) == 0
  {
  }

  /** Sums can be taken pairwise. */
  lemma AddPairs(a: bv64, b: bv64, c: bv64, d: bv64)
    ensures Add(Add(a, b), Add(c, d)) == Add(Add(a, c), Add(b, d))
  {
    hide Add;
    AddLaws(a, b, Add(c, d));
    AddLaws(b, c, d);
    AddLaws(c, b, d);
    AddLaws(a, c, Add(b, d));
  }

  /** What is added twice is gone. */
  lemma AddTwice(a: bv64, t: bv64)
    ensures Add(Add(a, t), t) == a
  {
    hide Add;
    AddLaws(a, t, t);
    AddLaws(t, t, t);
    AddLaws(a, a, a);
  }

  function Low(s0: bv64, s1: bv64): bv64 {
    Mixed(s0, Add(s1, s0))
  }

  function High(s0: bv64, s1: bv64): bv64 {
    Turn28(Add(s1, s0))
  }

  function Mixed(s0: bv64, t: bv64): bv64 {
    Add(Add(Turn49(s0), t), Shift21(t))
  }

  function FormerLow(low: bv64, high: bv64): bv64 {
    Back49(Add(Add(low, Shift21(Back28(high))), Back28(high)))
  }

  function FormerHigh(low: bv64, high: bv64): bv64 {
    Add(Back28(high), FormerLow(low, high))
  }

  lemma MixedIsLinear(a: bv64, t: bv64, b: bv64, u: bv64)
    ensures Mixed(Add(a, b), Add(t, u)) == Add(Mixed(a, t), Mixed(b, u))
  {
    hide Add, Turn49, Shift21;
    TurnsAreLinear(a, b);
    ShiftIsLinear(t, u);
    AddPairs(Turn49(a), Turn49(b), t, u);
    AddPairs(Add(Turn49(a), t), Add(Turn49(b), u), Shift21(t), Shift21(u));
  }

  lemma WordsAreLinear(x0: bv64, x1: bv64, y0: bv64, y1: bv64)
    ensures Low(Add(x0, y0), Add(x1, y1)) == Add(Low(x0, x1), Low(y0, y1))
    ensures High(Add(x0, y0), Add(x1, y1)) == Add(High(x0, x1), High(y0, y1))
  {
    hide Add, Turn28, Mixed;
    AddPairs(x1, y1, x0, y0);
    MixedIsLinear(x0, Add(x1, x0), y0, Add(y1, y0));
    TurnsAreLinear(Add(x1, x0), Add(y1, y0));
  }

  lemma Undone(s0: bv64, s1: bv64)
    ensures FormerLow(Low(s0, s1), High(s0, s1)) == s0 && FormerHigh(Low(s0, s1), High(s0, s1)) == s1
  {
    hide Add, Turn49, Turn28, Back49, Back28, Shift21;
    var t := Add(s1, s0);
    TurnsGoBack(t);
    TurnsGoBack(s0);
    AddTwice(Add(Turn49(s0), t), Shift21(t));
    AddTwice(Turn49(s0), t);
    AddTwice(s1, s0);
  }

  lemma Redone(s0: bv64, s1: bv64)
    ensures Low(FormerLow(s0, s1), FormerHigh(s0, s1)) == s0 && High(FormerLow(s0, s1), FormerHigh(s0, s1)) == s1
  {
    hide Add, Turn49, Turn28, Back49, Back28, Shift21;
    var t := Back28(s1);
    AddTwice(t, FormerLow(s0, s1));
    TurnsGoBack(s1);
    TurnsGoBack(Add(Add(s0, Shift21(t)), t));
    AddTwice(Add(s0, Shift21(t)), t);
    AddTwice(s0, Shift21(t));
  }

  lemma NextOfZeroWords()
    ensures Low(0, 0) == 0 && High(0, 0) == 0
  {
    hide Add, Turn49, Turn28, Shift21;
    ZeroWord();
    AddLaws(0, 0, 0);
  }

  // ---- The state map ----

  datatype Seed = Seed(s0: bv64, s1: bv64) {
    function Xor(t: Seed): Seed {
      Seed(Add(s0, t.s0), Add(s1, t.s1))
    }
  }

  const ZERO := Seed(0, 0)

  function Next(s: Seed): Seed {
    Seed(Low(s.s0, s.s1), High(s.s0, s.s1))
  }

  function Previous(s: Seed): Seed {
    Seed(FormerLow(s.s0, s.s1), FormerHigh(s.s0, s.s1))
  }

  function Output(s: Seed): bv64 {
    Result(s.s0, s.s1)
  }

  lemma NextIsLinear(s: Seed, t: Seed)
    ensures Next(s.Xor(t)) == Next(s).Xor(Next(t))
  {
    hide Add, Low, High;
    WordsAreLinear(s.s0, s.s1, t.s0, t.s1);
  }

  /** Every state has exactly one predecessor. */
  lemma NextIsBijective(s: Seed)
    ensures Previous(Next(s)) == s && Next(Previous(s)) == s
  {
    hide Low, High, FormerLow, FormerHigh;
    Undone(s.s0, s.s1);
    Redone(s.s0, s.s1);
  }

  lemma NextOfZero()
    ensures Next(ZERO) == ZERO
  {
    hide Low, High;
    NextOfZeroWords();
  }

  /** The all-zero state, and only it, is stuck from the start. */
  lemma ZeroStaysZero(s: Seed)
    ensures Next(s) == ZERO <==> s == ZERO
  {
    hide Next, Previous;
    NextOfZero();
    NextIsBijective(s);
    NextIsBijective(ZERO);
  }

  lemma XorLaws(a: Seed, b: Seed, c: Seed)
    ensures a.Xor(b).Xor(c) == a.Xor(b.Xor(c)) && a.Xor(b) == b.Xor(a) && a.Xor(ZERO) == a && a.Xor(a) == ZERO
  {
    hide Add;
    AddLaws(a.s0, b.s0, c.s0);
    AddLaws(a.s1, b.s1, c.s1);
  }

  /** Sums can be taken pairwise. */
  lemma XorPairs(a: Seed, b: Seed, c: Seed, d: Seed)
    ensures a.Xor(b).Xor(c.Xor(d)) == a.Xor(c).Xor(b.Xor(d))
  {
    hide a.Xor;
    XorLaws(a, b, c.Xor(d));
    XorLaws(b, c, d);
    XorLaws(c, b, d);
    XorLaws(a, c, b.Xor(d));
  }

  function Iterate(s: Seed, n: nat): Seed {
    if n == 0 then s else Next(Iterate(s, n - 1))
  }

  /** No number of steps takes a state that is not all zero to the all-zero one, which
      the generator would never leave. */
  lemma {:induction false} ZeroIsNeverReached(s: Seed, n: nat)
    ensures Iterate(s, n) == ZERO <==> s == ZERO
  {
    hide Next;
    if n > 0 {
      ZeroIsNeverReached(s, n - 1);
      ZeroStaysZero(Iterate(s, n - 1));
    }
  }

  lemma {:induction false} IterateNext(s: Seed, n: nat)
    ensures Iterate(Next(s), n) == Next(Iterate(s, n))
  {
    hide Next;
    if n > 0 {
      IterateNext(s, n - 1);
    }
  }

  lemma {:induction false} IterateIsLinear(s: Seed, t: Seed, n: nat)
    ensures Iterate(s.Xor(t), n) == Iterate(s, n).Xor(Iterate(t, n))
  {
    hide Next, s.Xor;
    if n > 0 {
      IterateIsLinear(s, t, n - 1);
      NextIsLinear(Iterate(s, n - 1), Iterate(t, n - 1));
    }
  }

  // ---- Sums of powers of the state map ----

  /** The sum of the e-th powers of the map, for the e that are set. */
  function Powers(chosen: seq<bool>, s: Seed): Seed {
    if chosen == [] then ZERO
    else
      var n := |chosen| - 1;
      Powers(chosen[..n], s).Xor(if chosen[n] then Iterate(s, n) else ZERO)
  }

  /** Such a sum commutes with the map. */
  lemma {:induction false} PowersCommute(chosen: seq<bool>, s: Seed)
    ensures Powers(chosen, Next(s)) == Next(Powers(chosen, s))
  {
    hide Next, s.Xor;
    NextOfZero();
    if chosen != [] {
      var n := |chosen| - 1;
      PowersCommute(chosen[..n], s);
      IterateNext(s, n);
      NextIsLinear(Powers(chosen[..n], s), if chosen[n] then Iterate(s, n) else ZERO);
    }
  }

  /** And is linear itself. */
  lemma {:induction false} PowersAreLinear(chosen: seq<bool>, s: Seed, t: Seed)
    ensures Powers(chosen, s.Xor(t)) == Powers(chosen, s).Xor(Powers(chosen, t))
  {
    hide Next, s.Xor;
    XorLaws(ZERO, ZERO, ZERO);
    if chosen != [] {
      var n := |chosen| - 1;
      PowersAreLinear(chosen[..n], s, t);
      IterateIsLinear(s, t, n);
      XorPairs(Powers(chosen[..n], s), Powers(chosen[..n], t), if chosen[n] then Iterate(s, n) else ZERO,
               if chosen[n] then Iterate(t, n) else ZERO);
    }
  }

  /** One application of the map raises every power by one. */
  lemma {:induction false} PowersRaised(chosen: seq<bool>, s: Seed)
    ensures Powers([false] + chosen, s) == Next(Powers(chosen, s))
  {
    hide Next, s.Xor;
    NextOfZero();
    XorLaws(ZERO, ZERO, ZERO);
    var more := [false] + chosen;
    if chosen == [] {
      assert more[..0] == [];
    } else {
      var n := |chosen| - 1;
      PowersRaised(chosen[..n], s);
      assert more[..n + 1] == [false] + chosen[..n];
      NextIsLinear(Powers(chosen[..n], s), if chosen[n] then Iterate(s, n) else ZERO);
    }
  }

  /** Adding the start itself flips the power 0. */
  lemma {:induction false} PowersPlusStart(chosen: seq<bool>, s: Seed)
    requires chosen != []
    ensures Powers(chosen[0 := !chosen[0]], s) == Powers(chosen, s).Xor(s)
  {
    hide Next, s.Xor;
    var flipped := chosen[0 := !chosen[0]];
    var n := |chosen| - 1;
    if n > 0 {
      PowersPlusStart(chosen[..n], s);
      assert flipped[..n] == chosen[..n][0 := !chosen[..n][0]];
      var top := if chosen[n] then Iterate(s, n) else ZERO;
      XorLaws(Powers(chosen[..n], s), s, top);
      XorLaws(s, top, top);
      XorLaws(Powers(chosen[..n], s), top, s);
    } else {
      assert chosen[..0] == [] && flipped[..0] == [];
      XorLaws(ZERO, s, s);
      XorLaws(s, s, ZERO);
    }
  }

  // ---- Jumps ----

  predicate Bit(word: bv64, b: nat)
    requires b < 64
  {
    word & ((1 as bv64) << b) != 0
  }

  predicate JumpBit(words: seq<bv64>, k: nat)
    requires |words| == 2 && k < 128
  {
    Bit(words[k / 64], k % 64)
  }

  const JUMP_64: seq<bv64> := [0x180ec6d33cfd0aba, 0xd5a61266f0c9392c]
  const JUMP_96: seq<bv64> := [0x360fd5f2cf8d5d99, 0x9c6e6877736c46e3]

  /** The state after k bits of a jump: where a bit is set, the state the jump started
      from is added before the step. */
  function JumpState(words: seq<bv64>, s: Seed, k: nat): Seed
    requires |words| == 2 && k <= 128
  {
    if k == 0 then s
    else
      var r := JumpState(words, s, k - 1);
      Next(if JumpBit(words, k - 1) then r.Xor(s) else r)
  }

  function Jump(words: seq<bv64>, s: Seed): Seed
    requires |words| == 2
  {
    JumpState(words, s, 128)
  }

  /** The powers that k bits of a jump add up. */
  function JumpPowers(words: seq<bv64>, k: nat): (powers: seq<bool>)
    requires |words| == 2 && k <= 128
    ensures |powers| == k + 1
  {
    if k == 0 then [true]
    else
      var p := JumpPowers(words, k - 1);
      [false] + (if JumpBit(words, k - 1) then p[0 := !p[0]] else p)
  }

  lemma StartIsPower(s: Seed)
    ensures Powers([true], s) == s
  {
    hide Next, s.Xor;
    assert Powers([true][..0], s) == ZERO;
    XorLaws(ZERO, s, s);
    XorLaws(s, s, s);
  }

  lemma {:induction false} JumpIsPowers(words: seq<bv64>, s: Seed, k: nat)
    requires |words| == 2 && k <= 128
    ensures JumpState(words, s, k) == Powers(JumpPowers(words, k), s)
  {
    hide Next, Bit, s.Xor, Powers, JumpBit;
    if k == 0 {
      StartIsPower(s);
    } else {
      var p := JumpPowers(words, k - 1);
      JumpIsPowers(words, s, k - 1);
      PowersPlusStart(p, s);
      PowersRaised(if JumpBit(words, k - 1) then p[0 := !p[0]] else p, s);
    }
  }

  /** Power e is added for bit k - e of the jump word, and power k itself for the state
      that the jump starts with; no jump adds the start as it is. */
  lemma {:induction false} JumpPowersAre(words: seq<bv64>, k: nat, e: nat)
    requires |words| == 2 && 1 <= k <= 128 && e <= k
    ensures JumpPowers(words, k)[e] == (e != 0 && (JumpBit(words, k - e) != (e == k)))
    decreases k
  {
    hide Bit;
    var p := JumpPowers(words, k - 1);
    if e > 1 {
      JumpPowersAre(words, k - 1, e - 1);
    } else if e == 1 && k > 1 {
      JumpPowersAre(words, k - 1, 0);
    }
  }

  /** A jump is a fixed linear combination of powers of the state map, so it commutes
      with taking a random number: jumping from the next state is the next state of
      the jump. */
  lemma JumpCommutes(words: seq<bv64>, s: Seed)
    requires |words| == 2
    ensures Jump(words, Next(s)) == Next(Jump(words, s))
  {
    hide Next, JumpState, JumpPowers, Powers;
    JumpIsPowers(words, s, 128);
    JumpIsPowers(words, Next(s), 128);
    PowersCommute(JumpPowers(words, 128), s);
  }

  lemma JumpIsLinear(words: seq<bv64>, s: Seed, t: Seed)
    requires |words| == 2
    ensures Jump(words, s.Xor(t)) == Jump(words, s).Xor(Jump(words, t))
  {
    hide JumpState, JumpPowers, Powers, s.Xor;
    JumpIsPowers(words, s, 128);
    JumpIsPowers(words, t, 128);
    JumpIsPowers(words, s.Xor(t), 128);
    PowersAreLinear(JumpPowers(words, 128), s, t);
  }

  /** Two jumps can be made in either order. */
  lemma JumpsCommute(s: Seed)
    ensures Jump(JUMP_64, Jump(JUMP_96, s)) == Jump(JUMP_96, Jump(JUMP_64, s))
  {
    hide JumpState, JumpPowers, Powers;
    JumpIsPowers(JUMP_64, Jump(JUMP_96, s), 128);
    JumpIsPowers(JUMP_64, s, 128);
    JumpOfPowers(JUMP_96, JumpPowers(JUMP_64, 128), s);
  }

  lemma {:induction false} JumpOfPowers(words: seq<bv64>, chosen: seq<bool>, s: Seed)
    requires |words| == 2
    ensures Powers(chosen, Jump(words, s)) == Jump(words, Powers(chosen, s))
  {
    hide Jump, s.Xor;
    JumpOfZero(words);
    if chosen != [] {
      var n := |chosen| - 1;
      JumpOfPowers(words, chosen[..n], s);
      JumpOfIterate(words, s, n);
      JumpIsLinear(words, Powers(chosen[..n], s), if chosen[n] then Iterate(s, n) else ZERO);
    }
  }

  lemma JumpOfZero(words: seq<bv64>)
    requires |words| == 2
    ensures Jump(words, ZERO) == ZERO
  {
    hide Jump, ZERO.Xor;
    JumpIsLinear(words, ZERO, ZERO);
    XorLaws(ZERO, ZERO, ZERO);
    XorLaws(Jump(words, ZERO), ZERO, ZERO);
  }

  lemma {:induction false} JumpOfIterate(words: seq<bv64>, s: Seed, n: nat)
    requires |words| == 2
    ensures Jump(words, Iterate(s, n)) == Iterate(Jump(words, s), n)
  {
    hide Next, Jump;
    if n > 0 {
      JumpOfIterate(words, s, n - 1);
      JumpCommutes(words, Iterate(s, n - 1));
    }
  }

  // ---- The generator ----

  class Xoroshiro128PP {
    var seed: Seed

    constructor (seed: Seed)
      ensures this.seed == seed
    {
      this.seed := seed;
    }

    method TakeNext() returns (result: bv64)
      modifies this
      ensures seed == Next(old(seed)) && result == Output(old(seed))
    {
      hide Add, Turn49, Turn28, Shift21, Result;
      var s0 := seed.s0;
      var s1 := seed.s1;
      result := Result(s0, s1);
      s1 := Add(s1, s0);
      seed := Seed(Add(Add(Turn49(s0), s1), Shift21(s1)), Turn28(s1));
    }

    /** jump64 and jump96, which differ in their constants. */
    method JumpBy(words: seq<bv64>) returns (r: Xoroshiro128PP)
      requires |words| == 2
      ensures fresh(r) && r.seed == Jump(words, seed)
    {
      hide Next, Bit, Output, Add;
      r := new Xoroshiro128PP(seed);
      for i := 0 to 2
        invariant fresh(r) && r.seed == JumpState(words, seed, 64 * i)
      {
        for b := 0 to 64
          invariant fresh(r) && r.seed == JumpState(words, seed, 64 * i + b)
        {
          assert (64 * i + b) / 64 == i && (64 * i + b) % 64 == b;
          if Bit(words[i], b) {
            r.seed := Seed(Add(r.seed.s0, seed.s0), Add(r.seed.s1, seed.s1));
          }
          var _ := r.TakeNext();
        }
      }
    }
  }

  // ---- Outputs ----

  /** With the first word 0, the output is the second one turned; with words whose sum is
      0, it is the first one. */
  lemma OutputsOfOneWord(x: bv64)
    ensures Output(Seed(0, x)) == x.RotateLeft(17) && Output(Seed(x, 0 - x)) == x
  {
  }

  /** The first two numbers from the seed 1, 2, and the states after them. */
  lemma FirstNumbers()
    ensures Output(Seed(1, 2)) == 0x60001
    ensures Next(Seed(1, 2)) == Seed(0x2000000600003, 0x30000000)
    ensures Output(Seed(0x2000000600003, 0x30000000)) == 0x260c000660007
    ensures Next(Seed(0x2000000600003, 0x30000000)) == Seed(0x20c04300000c3, 0x306000030002000)
  {
  }

  // ---- Seeds as text ----

  predicate IsHex(c: char) {
    '0' <= c <= '9' || 'a' <= c <= 'f' || 'A' <= c <= 'F'
  }

  function HexValue(c: char): (d: nat)
    requires IsHex(c)
    ensures d < 16
  {
    if c <= '9' then c as int - '0' as int
    else if c <= 'F' then c as int - 'A' as int + 10
    else c as int - 'a' as int + 10
  }

  predicate AllHex(s: string) {
    forall i :: 0 <= i < |s| ==> IsHex(s[i])
  }

  function Pow16(n: nat): (p: nat)
    ensures p > 0
  {
    if n == 0 then 1 else 16 * Pow16(n - 1)
  }

  function ParseHex(s: string): (v: nat)
    requires AllHex(s)
    ensures v < Pow16(|s|)
  {
    if s == [] then 0 else ParseHex(s[..|s| - 1]) * 16 + HexValue(s[|s| - 1])
  }

  /** Exactly n lower-case digits. */
  function FixedHex(v: nat, n: nat): (s: string)
    ensures |s| == n
  {
    if n == 0 then [] else FixedHex(v / 16, n - 1) + [DigitOf(v % 16)]
  }

  lemma {:induction false} FixedHexDenotes(v: nat, n: nat)
    requires v < Pow16(n)
    ensures AllHex(FixedHex(v, n)) && ParseHex(FixedHex(v, n)) == v
  {
    if n > 0 {
      FixedHexDenotes(v / 16, n - 1);
      DigitIsHex(v % 16);
      var s := FixedHex(v / 16, n - 1);
      assert (s + [DigitOf(v % 16)])[..n - 1] == s;
    }
  }

  lemma DigitIsHex(d: nat)
    requires d < 16
    ensures IsHex(DigitOf(d)) && HexValue(DigitOf(d)) == d
  {
    assert DIGITS == ['0', '1', '2', '3', '4', '5', '6', '7', '8', '9', 'a', 'b', 'c', 'd', 'e', 'f'];
  }

  function Lower(c: char): char {
    if 'A' <= c <= 'F' then (c as int - 'A' as int + 'a' as int) as char else c
  }

  function LowerAll(s: string): string {
    seq(|s|, i requires 0 <= i < |s| => Lower(s[i]))
  }

  lemma HexDigit(c: char)
    requires IsHex(c)
    ensures DigitOf(HexValue(c)) == Lower(c)
  {
    assert DIGITS == ['0', '1', '2', '3', '4', '5', '6', '7', '8', '9', 'a', 'b', 'c', 'd', 'e', 'f'];
  }

  lemma {:induction false} ParseThenWrite(s: string)
    requires AllHex(s)
    ensures FixedHex(ParseHex(s), |s|) == LowerAll(s)
  {
    hide HexValue, Lower, DigitOf, IsHex;
    if s != [] {
      var n := |s| - 1;
      ParseThenWrite(s[..n]);
      HexDigit(s[n]);
      assert ParseHex(s) / 16 == ParseHex(s[..n]) && ParseHex(s) % 16 == HexValue(s[n]);
      assert LowerAll(s) == LowerAll(s[..n]) + [Lower(s[n])];
    }
  }

  function ToString(seed: Seed): (s: string)
    ensures |s| == 32
  {
    FixedHex(seed.s0 as int, 16) + FixedHex(seed.s1 as int, 16)
  }

  predicate IsRaw(s: string) {
    |s| == 32 && AllHex(s)
  }

  lemma Pow16Is64Bits()
    ensures Pow16(16) == 0x1_0000_0000_0000_0000
  {
    assert Pow16(4) == 0x1_0000;
    assert Pow16(8) == 0x1_0000_0000;
    assert Pow16(12) == 0x1_0000_0000_0000;
  }

  function Word(s: string): bv64
    requires |s| == 16 && AllHex(s)
  {
    Pow16Is64Bits();
    ParseHex(s) as bv64
  }

  /** What any other text is stirred into. */
  function Stirred(s: string): Seed {
    if s == [] then Seed(0xfcc3a80ff25bae88, 0x78ac504431a5b8e6) else Stir(Stirred(s[..|s| - 1]), s[|s| - 1])
  }

  function Stir(seed: Seed, c: char): Seed {
    var b := (c as int % 256) as bv64;
    Seed((seed.s0 ^ b) * 0xb2209ed48ff3455b, (seed.s1 ^ b) * 0x9f9a70d28f55f29f)
  }

  method FromString(s: string) returns (seed: Seed)
    ensures seed == if IsRaw(s) then Seed(Word(s[..16]), Word(s[16..])) else Stirred(s)
  {
    hide Stir, ParseHex, Word;
    var raw := IsRawSeedFormat(s);
    if raw {
      return Seed(Word(s[..16]), Word(s[16..]));
    }
    seed := Seed(0xfcc3a80ff25bae88, 0x78ac504431a5b8e6);
    for i := 0 to |s|
      invariant seed == Stirred(s[..i])
    {
      assert s[..i + 1][..i] == s[..i];
      seed := Stir(seed, s[i]);
    }
    assert s[..|s|] == s;
  }

  method IsRawSeedFormat(s: string) returns (r: bool)
    ensures r <==> IsRaw(s)
  {
    if |s| != 32 {
      return false;
    }
    for i := 0 to 32
      invariant AllHex(s[..i])
    {
      if !IsHex(s[i]) {
        return false;
      }
    }
    assert s[..32] == s;
    return true;
  }

  /** Digits count from the highest on. */
  lemma {:induction false} HexIsPositional(high: string, low: string)
    requires AllHex(high) && AllHex(low)
    ensures AllHex(high + low) && ParseHex(high + low) == ParseHex(high) * Pow16(|low|) + ParseHex(low)
  {
    if low == [] {
      assert high + low == high;
    } else {
      var n := |low| - 1;
      HexIsPositional(high, low[..n]);
      assert (high + low)[..|high + low| - 1] == high + low[..n];
      Distribute(ParseHex(high), Pow16(n), ParseHex(low[..n]));
    }
  }

  lemma Distribute(a: nat, p: nat, b: nat)
    ensures (a * p + b) * 16 == a * (16 * p) + b * 16
  {
  }

  /** The empty text gives the start of the stirring, and each byte changes it like this one. */
  lemma StirringStarts()
    ensures Stirred("") == Seed(0xfcc3a80ff25bae88, 0x78ac504431a5b8e6)
    ensures Stir(Seed(0xfcc3a80ff25bae88, 0x78ac504431a5b8e6), 'a') == Seed(0x2e5df4ad0ae6f9d3, 0xaa28ce212c3039d9)
  {
    assert ('a' as int % 256) as bv64 == 97;
  }

  /** Every seed is read back from what is written. */
  lemma SeedRoundTrip(seed: Seed)
    ensures IsRaw(ToString(seed))
    ensures Seed(Word(ToString(seed)[..16]), Word(ToString(seed)[16..])) == seed
  {
    Pow16Is64Bits();
    FixedHexDenotes(seed.s0 as int, 16);
    FixedHexDenotes(seed.s1 as int, 16);
    assert ToString(seed)[..16] == FixedHex(seed.s0 as int, 16);
    assert ToString(seed)[16..] == FixedHex(seed.s1 as int, 16);
  }
}
