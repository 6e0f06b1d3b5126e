/**
 The 64-bit flag word of oplus_debug_info.c as its bits, least significant first, with C's operators on an
 unsigned 64-bit value written out bit by bit, and the set of bit numbers a word stands for.
 */
module FlagWord {

  const WORD_BITS := 64

  type Word = w: seq<bool> | |w| == WORD_BITS witness seq(WORD_BITS, _ => false)

  function Zero(): Word {
    seq(WORD_BITS, _ => false)
  }

  function One(): Word {
    seq(WORD_BITS, i => i == 0)
  }

  function Not(w: Word): Word {
    seq(WORD_BITS, i requires 0 <= i < WORD_BITS => !w[i])
  }

  function And(v: Word, w: Word): Word {
    seq(WORD_BITS, i requires 0 <= i < WORD_BITS => v[i] && w[i])
  }

  function Or(v: Word, w: Word): Word {
    seq(WORD_BITS, i requires 0 <= i < WORD_BITS => v[i] || w[i])
  }

  /** `w << k`: what passes the top bit is lost. C leaves a shift by the width or more undefined. */
  function ShiftLeft(w: Word, k: nat): Word
    requires k < WORD_BITS
  {
    seq(k, _ => false) + w[..WORD_BITS - k]
  }

  /** `w >> k` for an unsigned word: zeros come in at the top. */
  function ShiftRight(w: Word, k: nat): Word
    requires k < WORD_BITS
  {
    w[k..] + seq(k, _ => false)
  }

  /** The set of bit numbers the word stands for. */
  ghost function Flags(w: Word): set<int> {
    set i | 0 <= i < WORD_BITS && w[i]
  }

  /** The set without its members from low to high, both included. */
  ghost function Without(s: set<int>, low: int, high: int): set<int> {
    set i | i in s && !(low <= i <= high)
  }

  /** The mask of a clear: the zeros are shifted in from the low end, then from the high end. */
  function Mask(low: nat, high: nat): Word
    requires low < WORD_BITS && high < WORD_BITS
  {
    var mask := ShiftLeft(ShiftRight(Not(Zero()), low), low);
    ShiftRight(ShiftLeft(mask, WORD_BITS - 1 - high), WORD_BITS - 1 - high)
  }

  /** The mask holds exactly the bits from low to high; it is empty when low is above high. */
  lemma MaskBits(low: nat, high: nat, i: nat)
    requires low < WORD_BITS && high < WORD_BITS && i < WORD_BITS
    ensures Mask(low, high)[i] <==> low <= i <= high
  {
    var k := WORD_BITS - 1 - high;
    var lowCut := ShiftLeft(ShiftRight(Not(Zero()), low), low);
    assert lowCut[i] <==> low <= i;
    var up := ShiftLeft(lowCut, k);
    if i <= high {
      assert ShiftRight(up, k)[i] == up[i + k] == lowCut[i];
    }
  }

  /** Masking a word by the complement removes exactly the numbers from low to high from its set. */
  lemma ClearIsRemoval(w: Word, low: nat, high: nat)
    requires low < WORD_BITS && high < WORD_BITS
    ensures Flags(And(w, Not(Mask(low, high)))) == Without(Flags(w), low, high)
  {
    forall i: nat | i < WORD_BITS
      ensures And(w, Not(Mask(low, high)))[i] <==> w[i] && !(low <= i <= high)
    {
      MaskBits(low, high, i);
    }
  }

  lemma SetIsInsertion(w: Word, k: nat)
    requires k < WORD_BITS
    ensures Flags(Or(w, ShiftLeft(One(), k))) == Flags(w) + {k}
  {
    var after := Or(w, ShiftLeft(One(), k));
    forall i: nat | i < WORD_BITS
      ensures after[i] <==> w[i] || i == k
    {
      OneBit(k, i);
    }
  }

  lemma OneBit(k: nat, i: nat)
    requires k < WORD_BITS && i < WORD_BITS
    ensures ShiftLeft(One(), k)[i] <==> i == k
  {
  }

  /** A bit test is non-zero exactly when the number is a member. */
  lemma TestIsMembership(w: Word, k: nat)
    requires k < WORD_BITS
    ensures And(w, ShiftLeft(One(), k)) != Zero() <==> k in Flags(w)
  {
    var tested := And(w, ShiftLeft(One(), k));
    forall i: nat | i < WORD_BITS
      ensures tested[i] <==> i == k && w[k]
    {
      OneBit(k, i);
    }
    if w[k] {
      assert tested[k] && !Zero()[k];
    } else {
      assert tested == Zero();
    }
  }

  lemma ZeroIsEmpty()
    ensures Flags(Zero()) == {}
  {
  }
}
