/** The 64-bit identity of a combination: bit n is set when number n is present. */
module ComboMasks {
  import opened Combinatorics

  const WIDTH := 64

  /** An unsigned 64-bit word, as its bits, lowest first. */
  type Word = w: seq<bool> | |w| == WIDTH witness seq(WIDTH, i => false)

  const ZERO: Word := seq(WIDTH, i => false)

  /** `mask |= 1 << n` */
  function WithBit(mask: Word, n: nat): Word
    requires n < WIDTH
  {
    mask[n := true]
  }

  /** The mask of a list of numbers; numbers outside 1..63 contribute nothing. */
  function Mask(nums: seq<int>): Word {
    seq(WIDTH, n requires 0 <= n < WIDTH => n > 0 && n in nums)
  }

  method ComboMask(nums: seq<int>) returns (mask: Word)
    ensures mask == Mask(nums)
  {
    mask := ZERO;
    for i := 0 to |nums|
      invariant mask == Mask(nums[..i])
    {
      var n := nums[i];
      assert nums[..i + 1] == nums[..i] + [n];
      if n > 0 && n < 64 {
        mask := WithBit(mask, n);
      }
    }
    assert nums[..|nums|] == nums;
  }

  ghost predicate Maskable(nums: seq<int>) { Within(nums, 1, 63) }

  /** The mask does not see order or repetition, whatever the numbers. */
  lemma SameElementsSameMask(a: seq<int>, b: seq<int>)
    requires Elements(a) == Elements(b)
    ensures Mask(a) == Mask(b)
  {
    forall n: int ensures n in a <==> n in b {
      assert n in Elements(a) <==> n in Elements(b);
    }
  }

  /** Two combinations have the same mask exactly when they are the same set of numbers. */
  lemma MaskIsSet(a: seq<int>, b: seq<int>)
    requires Maskable(a) && Maskable(b)
    ensures Mask(a) == Mask(b) <==> Elements(a) == Elements(b)
  {
    if Mask(a) == Mask(b) {
      forall n: int ensures n in Elements(a) <==> n in Elements(b) {
        if 0 < n < WIDTH {
          assert Mask(a)[n] == Mask(b)[n];
        }
      }
    } else if Elements(a) == Elements(b) {
      SameElementsSameMask(a, b);
    }
  }

  /** Past the word the mask is blind: 64 and 65 are not told apart. */
  lemma MaskWidthMatters()
    ensures Mask([64]) == Mask([65]) && Elements([64]) != Elements([65])
  {
    assert 64 in Elements([64]) && 64 !in Elements([65]);
  }
}
