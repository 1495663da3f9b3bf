/** How a child generator's seed depends on its coordinates. */
module ChildSeeds {
  import opened Rng

  const EPOCH_FACTOR: Word := 0x517cc1b727220a95
  const BRANCH_FACTOR: Word := 0x6c62272e07bb0142

  function Xor(x: Word, y: Word): Word {
    x ^ y
  }

  lemma XorCancels(x: Word, y: Word)
    ensures Xor(Xor(x, y), y) == x
  {
    assert Xor(x ^ y, y) == x;
  }

  lemma XorCommutes(x: Word, y: Word)
    ensures Xor(x, y) == Xor(y, x)
  {
    assert Xor(x, y) == x ^ y;
  }

  function Combined(output: Word, e: Word, b: Word, g: Word): Word {
    Xor(Xor(Xor(output, e), b), g)
  }

  /** Seed of the child with the given coordinates, from a parent output. */
  function ChildSeed(output: Word, epoch: Word, branch: Word, routine: Word): Word {
    Mix(Combined(output, Mul(epoch, EPOCH_FACTOR), Mul(branch, BRANCH_FACTOR), Mul(routine, GAMMA)))
  }

  lemma LastPartCancels(p: Word, x: Word, y: Word)
    requires Xor(p, x) == Xor(p, y)
    ensures x == y
  {
    XorCommutes(p, x);
    XorCommutes(p, y);
    XorCancels(x, p);
    XorCancels(y, p);
  }

  lemma EpochPartCancels(output: Word, e: Word, b: Word, g: Word, x: Word)
    requires Combined(output, e, b, g) == Combined(output, x, b, g)
    ensures e == x
  {
    XorCancels(Xor(Xor(output, e), b), g);
    XorCancels(Xor(Xor(output, x), b), g);
    XorCancels(Xor(output, e), b);
    XorCancels(Xor(output, x), b);
    LastPartCancels(output, e, x);
  }

  lemma BranchPartCancels(output: Word, e: Word, b: Word, g: Word, x: Word)
    requires Combined(output, e, b, g) == Combined(output, e, x, g)
    ensures b == x
  {
    XorCancels(Xor(Xor(output, e), b), g);
    XorCancels(Xor(Xor(output, e), x), g);
    LastPartCancels(Xor(output, e), b, x);
  }

  lemma RoutinePartCancels(output: Word, e: Word, b: Word, g: Word, x: Word)
    requires Combined(output, e, b, g) == Combined(output, e, b, x)
    ensures g == x
  {
    LastPartCancels(Xor(Xor(output, e), b), g, x);
  }

  lemma EpochFactorInverts(x: Word)
    ensures Mul(Mul(x, EPOCH_FACTOR), 0x2040003d780970bd) == x
  {
    MulAssociates(x, EPOCH_FACTOR, 0x2040003d780970bd);
    assert Mul(0x517cc1b727220a95, 0x2040003d780970bd) == 1 && Mul(x, 1) == x;
  }

  lemma GammaInverts(x: Word)
    ensures Mul(Mul(x, GAMMA), 0xf1de83e19937733d) == x
  {
    MulAssociates(x, GAMMA, 0xf1de83e19937733d);
    assert Mul(0x9e3779b97f4a7c15, 0xf1de83e19937733d) == 1 && Mul(x, 1) == x;
  }

  lemma BranchFactorIsEven(x: Word)
    ensures Mul(x, BRANCH_FACTOR) == Mul(Mul(x, 2), 0x3631139703dd80a1)
    ensures Mul(Mul(x, BRANCH_FACTOR), 0xebce78ed7bd46361) == Mul(x, 2)
  {
    MulAssociates(x, 2, 0x3631139703dd80a1);
    MulAssociates(x, BRANCH_FACTOR, 0xebce78ed7bd46361);
    assert Mul(2, 0x3631139703dd80a1) == 0x6c62272e07bb0142;
    assert Mul(0x6c62272e07bb0142, 0xebce78ed7bd46361) == 2;
  }

  /** Children that differ only in the epoch, or only in the routine, never share a seed. */
  lemma ChildrenDiffer(output: Word, epoch: Word, branch: Word, routine: Word, other: Word)
    ensures ChildSeed(output, epoch, branch, routine) == ChildSeed(output, other, branch, routine) ==> epoch == other
    ensures ChildSeed(output, epoch, branch, routine) == ChildSeed(output, epoch, branch, other) ==> routine == other
  {
    var e, b, g := Mul(epoch, EPOCH_FACTOR), Mul(branch, BRANCH_FACTOR), Mul(routine, GAMMA);
    if ChildSeed(output, epoch, branch, routine) == ChildSeed(output, other, branch, routine) {
      MixIsInjective(Combined(output, e, b, g), Combined(output, Mul(other, EPOCH_FACTOR), b, g));
      EpochPartCancels(output, e, b, g, Mul(other, EPOCH_FACTOR));
      EpochFactorInverts(epoch);
      EpochFactorInverts(other);
    }
    if ChildSeed(output, epoch, branch, routine) == ChildSeed(output, epoch, branch, other) {
      MixIsInjective(Combined(output, e, b, g), Combined(output, e, b, Mul(other, GAMMA)));
      RoutinePartCancels(output, e, b, g, Mul(other, GAMMA));
      GammaInverts(routine);
      GammaInverts(other);
    }
  }

  function Low63(x: Word): Word {
    x & 0x7fffffffffffffff
  }

  function Doubled(x: Word): Word {
    x << 1
  }

  function Halved(x: Word): Word {
    x >> 1
  }

  lemma DoubledIsTwice(x: Word)
    ensures Mul(x, 2) == Doubled(x)
  {
    assert Doubled(x) == x << 1;
  }

  lemma HalvedAgain(x: Word)
    ensures Halved(Doubled(x)) == Low63(x)
  {
    assert Low63(x) == (x << 1) >> 1;
  }

  lemma DoubledOfLow(x: Word)
    ensures Doubled(Low63(x)) == Doubled(x)
  {
    assert Doubled(x & 0x7fffffffffffffff) == x << 1;
  }

  lemma DoublingDropsTheTop(x: Word, y: Word)
    ensures Mul(x, 2) == Mul(y, 2) <==> Low63(x) == Low63(y)
  {
    DoubledIsTwice(x);
    DoubledIsTwice(y);
    HalvedAgain(x);
    HalvedAgain(y);
    DoubledOfLow(x);
    DoubledOfLow(y);
  }

  /** The branch factor is even: branches share a child exactly when they agree on their lower 63 bits. */
  lemma BranchesCollide(output: Word, epoch: Word, branch: Word, routine: Word, other: Word)
    ensures ChildSeed(output, epoch, branch, routine) == ChildSeed(output, epoch, other, routine)
       <==> Low63(branch) == Low63(other)
  {
    DoublingDropsTheTop(branch, other);
    var e, b, g := Mul(epoch, EPOCH_FACTOR), Mul(branch, BRANCH_FACTOR), Mul(routine, GAMMA);
    BranchFactorIsEven(branch);
    BranchFactorIsEven(other);
    if ChildSeed(output, epoch, branch, routine) == ChildSeed(output, epoch, other, routine) {
      MixIsInjective(Combined(output, e, b, g), Combined(output, e, Mul(other, BRANCH_FACTOR), g));
      BranchPartCancels(output, e, b, g, Mul(other, BRANCH_FACTOR));
    }
  }

  /** Branch 0 and the one with only the top bit set do. */
  lemma TopBranchCollides(output: Word, epoch: Word, routine: Word)
    ensures ChildSeed(output, epoch, 0, routine) == ChildSeed(output, epoch, 0x8000000000000000, routine)
  {
    BranchesCollide(output, epoch, 0, routine, 0x8000000000000000);
  }

  // ---- A known child ----

  lemma KnownChildMix()
    ensures Mix(0xb13e4afe2e96b181) == 0x8233801eb0a71b8f
  {
    assert Fold30(0xb13e4afe2e96b181) == 0xb13e4afcea6f9a79;
    assert Mul(0xb13e4afcea6f9a79, 0xbf58476d1ce4e5b9) == 0x67f1c34b0f98de71;
    assert Fold27(0x67f1c34b0f98de71) == 0x67f1c347f1a0b710;
    assert Mul(0x67f1c347f1a0b710, 0x94d049bb133111eb) == 0x8233801fb4c01bb0;
    assert Fold31(0x8233801fb4c01bb0) == 0x8233801eb0a71b8f;
  }

  /** The child at epoch 1, branch 2 and routine 3 of a parent whose output is the first one from seed 0. */
  lemma KnownChild()
    ensures ChildSeed(0xe220a8397b1dcdaf, 1, 2, 3) == 0x8233801eb0a71b8f
  {
    assert Mul(1, 0x517cc1b727220a95) == 0x517cc1b727220a95;
    assert Mul(2, 0x6c62272e07bb0142) == 0xd8c44e5c0f760284;
    assert Mul(3, 0x9e3779b97f4a7c15) == 0xdaa66d2c7ddf743f;
    assert Combined(0xe220a8397b1dcdaf, 0x517cc1b727220a95, 0xd8c44e5c0f760284, 0xdaa66d2c7ddf743f)
        == 0xb13e4afe2e96b181;
    KnownChildMix();
  }
}
