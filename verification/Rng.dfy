/** The SplitMix64 generator on 64-bit words: its output mix and its state walk. */
module Rng {
  type Word = bv64

  const GAMMA: Word := 0x9e3779b97f4a7c15

  // ---- Word arithmetic, named so that proofs can treat it as algebra ----

  function Plus(x: Word, y: Word): Word {
    x + y
  }

  function Minus(x: Word, y: Word): Word {
    x - y
  }

  function Mul(x: Word, y: Word): Word {
    x * y
  }

  lemma PlusAssociates(x: Word, y: Word, z: Word)
    ensures Plus(Plus(x, y), z) == Plus(x, Plus(y, z))
  {
    assert Plus(x + y, z) == Plus(x, y + z);
  }

  lemma MulAssociates(x: Word, y: Word, z: Word)
    ensures Mul(Mul(x, y), z) == Mul(x, Mul(y, z))
  {
    assert Mul(x * y, z) == Mul(x, y * z);
  }

  lemma DoubleInside(x: Word, y: Word)
    ensures Mul(x, Mul(2, y)) == Mul(2, Mul(x, y))
  {
    assert Mul(x, 2 * y) == Mul(2, x * y);
  }

  lemma TwiceIsSum(x: Word)
    ensures Plus(x, x) == Mul(2, x)
  {
    assert Plus(x, x) == 2 * x;
  }

  lemma TwiceIsShift(x: Word, y: Word)
    ensures Mul(Plus(x, x), y) == Mul(x, Mul(2, y))
  {
    TwiceIsSum(x);
    MulAssociates(2, x, y);
    DoubleInside(x, y);
  }

  // ---- The output mix ----

  function Fold30(z: Word): Word {
    z ^ (z >> 30)
  }

  function Fold27(z: Word): Word {
    z ^ (z >> 27)
  }

  function Fold31(z: Word): Word {
    z ^ (z >> 31)
  }

  function Unfold30(z: Word): Word {
    z ^ (z >> 30) ^ (z >> 60)
  }

  function Unfold27(z: Word): Word {
    z ^ (z >> 27) ^ (z >> 54)
  }

  function Unfold31(z: Word): Word {
    z ^ (z >> 31) ^ (z >> 62)
  }

  lemma FoldsUnfold(z: Word)
    ensures Unfold30(Fold30(z)) == z == Fold30(Unfold30(z))
    ensures Unfold27(Fold27(z)) == z == Fold27(Unfold27(z))
    ensures Unfold31(Fold31(z)) == z == Fold31(Unfold31(z))
  {
    assert Unfold30(z ^ (z >> 30)) == z == Fold30(z ^ (z >> 30) ^ (z >> 60));
    assert Unfold27(z ^ (z >> 27)) == z == Fold27(z ^ (z >> 27) ^ (z >> 54));
    assert Unfold31(z ^ (z >> 31)) == z == Fold31(z ^ (z >> 31) ^ (z >> 62));
  }

  const FIRST_FACTOR: Word := 0xbf58476d1ce4e5b9
  const FIRST_INVERSE: Word := 0x96de1b173f119089
  const SECOND_FACTOR: Word := 0x94d049bb133111eb
  const SECOND_INVERSE: Word := 0x319642b2d24d8ec3

  /** Odd factors have inverses modulo 2^64. */
  lemma FactorsInvert(z: Word)
    ensures Mul(Mul(z, FIRST_FACTOR), FIRST_INVERSE) == z == Mul(Mul(z, FIRST_INVERSE), FIRST_FACTOR)
    ensures Mul(Mul(z, SECOND_FACTOR), SECOND_INVERSE) == z == Mul(Mul(z, SECOND_INVERSE), SECOND_FACTOR)
  {
    FirstFactorInverts(z);
    SecondFactorInverts(z);
  }

  lemma InversesCancel(z: Word, f: Word, g: Word)
    requires Mul(f, g) == 1 == Mul(g, f)
    ensures Mul(Mul(z, f), g) == z == Mul(Mul(z, g), f)
  {
    MulAssociates(z, f, g);
    MulAssociates(z, g, f);
    assert Mul(z, 1) == z;
  }

  lemma FirstFactorInverts(z: Word)
    ensures Mul(Mul(z, FIRST_FACTOR), FIRST_INVERSE) == z == Mul(Mul(z, FIRST_INVERSE), FIRST_FACTOR)
  {
    assert Mul(0xbf58476d1ce4e5b9, 0x96de1b173f119089) == 1 == Mul(0x96de1b173f119089, 0xbf58476d1ce4e5b9);
    InversesCancel(z, FIRST_FACTOR, FIRST_INVERSE);
  }

  lemma SecondFactorInverts(z: Word)
    ensures Mul(Mul(z, SECOND_FACTOR), SECOND_INVERSE) == z == Mul(Mul(z, SECOND_INVERSE), SECOND_FACTOR)
  {
    assert Mul(0x94d049bb133111eb, 0x319642b2d24d8ec3) == 1 == Mul(0x319642b2d24d8ec3, 0x94d049bb133111eb);
    InversesCancel(z, SECOND_FACTOR, SECOND_INVERSE);
  }

  function Mix(w: Word): Word {
    Fold31(Mul(Fold27(Mul(Fold30(w), FIRST_FACTOR)), SECOND_FACTOR))
  }

  /** Undoes Mix. */
  function Unmix(w: Word): Word {
    Unfold30(Mul(Unfold27(Mul(Unfold31(w), SECOND_INVERSE)), FIRST_INVERSE))
  }

  lemma MixIsInvertible(w: Word)
    ensures Unmix(Mix(w)) == w
  {
    var a := Fold30(w);
    var b := Fold27(Mul(a, FIRST_FACTOR));
    FoldsUnfold(Mul(b, SECOND_FACTOR));
    FactorsInvert(b);
    FoldsUnfold(Mul(a, FIRST_FACTOR));
    FactorsInvert(a);
    FoldsUnfold(w);
  }

  lemma MixIsOnto(w: Word)
    ensures Mix(Unmix(w)) == w
  {
    var a := Unfold31(w);
    var b := Unfold27(Mul(a, SECOND_INVERSE));
    FoldsUnfold(Mul(b, FIRST_INVERSE));
    FactorsInvert(b);
    FoldsUnfold(Mul(a, SECOND_INVERSE));
    FactorsInvert(a);
    FoldsUnfold(w);
  }

  lemma MixIsInjective(v: Word, w: Word)
    requires Mix(v) == Mix(w)
    ensures v == w
  {
    MixIsInvertible(v);
    MixIsInvertible(w);
  }

  // ---- The state walk ----

  /** The state after k steps. */
  ghost function State(seed: Word, k: nat): Word {
    if k == 0 then seed else Plus(State(seed, k - 1), GAMMA)
  }

  /** Output number k of the generator, the first being number 0. */
  ghost function Output(seed: Word, k: nat): Word {
    Mix(State(seed, k + 1))
  }

  /** k modulo 2^64. */
  ghost function WordOf(k: nat): Word {
    if k == 0 then 0 else Plus(WordOf(k - 1), 1)
  }

  ghost function PowerOfTwo(k: nat): nat {
    if k == 0 then 1 else 2 * PowerOfTwo(k - 1)
  }

  /** 2^k modulo 2^64. */
  ghost function BitWord(k: nat): Word {
    if k == 0 then 1 else Mul(2, BitWord(k - 1))
  }

  lemma {:induction false} WordOfSum(a: nat, b: nat)
    ensures WordOf(a + b) == Plus(WordOf(a), WordOf(b))
  {
    if b == 0 {
      assert Plus(WordOf(a), 0) == WordOf(a);
    } else {
      WordOfSum(a, b - 1);
      PlusAssociates(WordOf(a), WordOf(b - 1), 1);
    }
  }

  lemma {:induction false} BitProduct(j: nat, k: nat)
    ensures Mul(BitWord(j), BitWord(k)) == BitWord(j + k)
  {
    if k == 0 {
      assert Mul(BitWord(j), 1) == BitWord(j);
    } else {
      BitProduct(j, k - 1);
      DoubleInside(BitWord(j), BitWord(k - 1));
    }
  }

  const TOP: Word := 0x8000_0000_0000_0000

  lemma BitsAdd(j: nat, x: Word, k: nat, y: Word, z: Word)
    requires BitWord(j) == x && BitWord(k) == y && Mul(x, y) == z
    ensures BitWord(j + k) == z
  {
    BitProduct(j, k);
  }

  lemma LowBits()
    ensures BitWord(16) == 0x1_0000
  {
    assert BitWord(1) == 2;
    BitsAdd(1, 2, 1, 2, 4);
    BitsAdd(2, 4, 2, 4, 16);
    BitsAdd(4, 16, 4, 16, 0x100);
    BitsAdd(8, 0x100, 8, 0x100, 0x1_0000);
  }

  lemma HalfOf16()
    ensures BitWord(15) == 0x8000
  {
    assert BitWord(1) == 2 && BitWord(3) == 8;
    BitsAdd(3, 8, 3, 8, 64);
    BitsAdd(6, 64, 6, 64, 0x1000);
    BitsAdd(12, 0x1000, 3, 8, 0x8000);
  }

  lemma HighBits()
    ensures BitWord(48) == 0x1_0000_0000_0000
  {
    LowBits();
    BitsAdd(16, 0x1_0000, 16, 0x1_0000, 0x1_0000_0000);
    BitsAdd(32, 0x1_0000_0000, 16, 0x1_0000, 0x1_0000_0000_0000);
  }

  lemma TopBit()
    ensures BitWord(63) == TOP
  {
    HighBits();
    HalfOf16();
    BitsAdd(48, 0x1_0000_0000_0000, 15, 0x8000, TOP);
  }

  function Odd(x: Word): Word {
    Plus(Plus(x, x), 1)
  }

  lemma OddTimesTop(x: Word)
    ensures Mul(Odd(x), TOP) == TOP
  {
    assert Mul(x + x + 1, TOP) == TOP;
  }

  lemma DoubledZero(x: Word, y: Word)
    requires Mul(x, y) == 0
    ensures Mul(x, Mul(2, y)) == 0
  {
    DoubleInside(x, y);
    assert Mul(2, 0) == 0;
  }

  /** An odd word shifted by fewer than 64 places is not zero: shifted on to 63 places it would have to be. */
  lemma {:induction false} OddSurvives(x: Word, j: nat)
    requires j < 64
    ensures Mul(Odd(x), BitWord(j)) != 0
    decreases 64 - j
  {
    if j == 63 {
      TopBit();
      OddTimesTop(x);
    } else {
      OddSurvives(x, j + 1);
      if Mul(Odd(x), BitWord(j)) == 0 {
        DoubledZero(Odd(x), BitWord(j));
      }
    }
  }

  lemma {:induction false} VanishesOnlyAtZero(k: nat, w: nat, j: nat)
    requires w + j == 64 && k < PowerOfTwo(w) && Mul(WordOf(k), BitWord(j)) == 0
    ensures k == 0
    decreases w
  {
    if w > 0 {
      var h := k / 2;
      WordOfSum(h, h);
      if k % 2 == 1 {
        assert WordOf(k) == Odd(WordOf(h));
        OddSurvives(WordOf(h), j);
      } else {
        TwiceIsShift(WordOf(h), BitWord(j));
        VanishesOnlyAtZero(h, w - 1, j + 1);
      }
    }
  }

  lemma GammaDistributes(x: Word, y: Word)
    ensures Mul(GAMMA, Plus(x, y)) == Plus(Mul(GAMMA, x), Mul(GAMMA, y))
  {
    assert Mul(0x9e3779b97f4a7c15, x + y) == Plus(0x9e3779b97f4a7c15 * x, 0x9e3779b97f4a7c15 * y);
  }

  lemma {:induction false} StateIsAffine(seed: Word, k: nat)
    ensures State(seed, k) == Plus(seed, Mul(GAMMA, WordOf(k)))
  {
    if k == 0 {
      assert Mul(GAMMA, 0) == 0 && Plus(seed, 0) == seed;
    } else {
      StateIsAffine(seed, k - 1);
      GammaDistributes(WordOf(k - 1), 1);
      assert Mul(GAMMA, 1) == GAMMA;
      PlusAssociates(seed, Mul(GAMMA, WordOf(k - 1)), GAMMA);
    }
  }

  lemma GammaCancels(x: Word)
    requires Mul(GAMMA, x) == 0
    ensures x == 0
  {
    MulAssociates(0xf1de83e19937733d, GAMMA, x);
    assert Mul(0xf1de83e19937733d, GAMMA) == 1 && Mul(1, x) == x && Mul(0xf1de83e19937733d, 0) == 0;
  }

  lemma NoStep(s: Word, a: Word, b: Word)
    requires Plus(s, a) == Plus(s, Plus(a, b))
    ensures b == 0
  {
    PlusAssociates(s, a, b);
    var t := Plus(s, a);
    assert Minus(t + b, t) == b && Minus(t, t) == 0;
  }

  lemma {:induction false} StateAfter(seed: Word, i: nat, d: nat)
    ensures State(seed, i + d) == Plus(seed, Plus(Mul(GAMMA, WordOf(i)), Mul(GAMMA, WordOf(d))))
  {
    StateIsAffine(seed, i + d);
    WordOfSum(i, d);
    GammaDistributes(WordOf(i), WordOf(d));
  }

  lemma ReturnedState(seed: Word, i: nat, d: nat)
    requires State(seed, i) == State(seed, i + d)
    ensures WordOf(d) == 0
  {
    StateIsAffine(seed, i);
    StateAfter(seed, i, d);
    NoStep(seed, Mul(GAMMA, WordOf(i)), Mul(GAMMA, WordOf(d)));
    GammaCancels(WordOf(d));
  }

  lemma {:induction false} ZeroWord(d: nat)
    requires WordOf(d) == 0 && d < PowerOfTwo(64)
    ensures d == 0
  {
    assert Mul(0, BitWord(0)) == 0;
    VanishesOnlyAtZero(d, 64, 0);
  }

  /** Among any 2^64 consecutive states there are no two alike: the walk has full period. */
  lemma {:induction false} StatesDiffer(seed: Word, i: nat, j: nat)
    requires i < j < i + PowerOfTwo(64)
    ensures State(seed, i) != State(seed, j)
  {
    if State(seed, i) == State(seed, j) {
      ReturnedState(seed, i, j - i);
      ZeroWord(j - i);
    }
  }

  /** Any 2^64 consecutive outputs are pairwise different. */
  lemma OutputsDiffer(seed: Word, i: nat, j: nat)
    requires i < j < i + PowerOfTwo(64)
    ensures Output(seed, i) != Output(seed, j)
  {
    StatesDiffer(seed, i + 1, j + 1);
    if Output(seed, i) == Output(seed, j) {
      MixIsInjective(State(seed, i + 1), State(seed, j + 1));
    }
  }

  // ---- Known outputs ----

  lemma FirstMix()
    ensures Mix(0x9e3779b97f4a7c15) == 0xe220a8397b1dcdaf
  {
    assert Fold30(0x9e3779b97f4a7c15) == 0x9e3779bb07979af0;
    assert Mul(0x9e3779bb07979af0, 0xbf58476d1ce4e5b9) == 0x6f68261b57e7a770;
    assert Fold27(0x6f68261b57e7a770) == 0x6f682616bae3641a;
    assert Mul(0x6f682616bae3641a, 0x94d049bb133111eb) == 0xe220a838bf5c9dde;
    assert Fold31(0xe220a838bf5c9dde) == 0xe220a8397b1dcdaf;
  }

  lemma SecondMix()
    ensures Mix(0x3c6ef372fe94f82a) == 0x6e789e6aa1b965f4
  {
    assert Fold30(0x3c6ef372fe94f82a) == 0x3c6ef3720f2f35e1;
    assert Mul(0x3c6ef3720f2f35e1, 0xbf58476d1ce4e5b9) == 0x2a94fcbfccb43499;
    assert Fold27(0x2a94fcbfccb43499) == 0x2a94fcba9e2ba360;
    assert Mul(0x2a94fcba9e2ba360, 0x94d049bb133111eb) == 0x6e789e6a7d485920;
    assert Fold31(0x6e789e6a7d485920) == 0x6e789e6aa1b965f4;
  }

  lemma ThirdMix()
    ensures Mix(0xdaa66d2c7ddf743f) == 0x6c45d188009454f
  {
    assert Fold30(0xdaa66d2c7ddf743f) == 0xdaa66d2f1746c08e;
    assert Mul(0xdaa66d2f1746c08e, 0xbf58476d1ce4e5b9) == 0xf1c3dd6322d82c9e;
    assert Fold27(0xf1c3dd6322d82c9e) == 0xf1c3dd7d1aa380fa;
    assert Mul(0xf1c3dd7d1aa380fa, 0x94d049bb133111eb) == 0x6c45d188d81ff7e;
    assert Fold31(0x6c45d188d81ff7e) == 0x6c45d188009454f;
  }

  /** The first three outputs from seed 0, as the published generator gives them. */
  lemma KnownOutputs()
    ensures Output(0, 0) == 0xe220a8397b1dcdaf
    ensures Output(0, 1) == 0x6e789e6aa1b965f4
    ensures Output(0, 2) == 0x06c45d188009454f
  {
    assert State(0, 1) == Plus(State(0, 0), 0x9e3779b97f4a7c15) == 0x9e3779b97f4a7c15;
    assert State(0, 2) == Plus(State(0, 1), 0x9e3779b97f4a7c15) == 0x3c6ef372fe94f82a;
    assert State(0, 3) == Plus(State(0, 2), 0x9e3779b97f4a7c15) == 0xdaa66d2c7ddf743f;
    FirstMix();
    SecondMix();
    ThirdMix();
  }
}
