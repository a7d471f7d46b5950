/**
 * The free-cell bitmap of the evaluator: one bit per cell, 64 to a word.
 * `next_n_vacant_cells` looks for the first run of `n` clear bits that
 * fits inside one word, sets it, and returns the index of its first bit.
 * Bits are digits in base 2, as in the cell store.
 */
module Vacancy {
  import opened Packing
  import opened Memory

  /** `(uint)-1`: a word with all 64 bits set. */
  function AllOnes(): nat
  {
    Pow(2, BITS_PER_WORD) - 1
  }

  /** Bits `b` to `b + n - 1` of `word` are clear: `(word & mask) == 0` for the shifted mask. */
  predicate RunClear(word: nat, b: nat, n: nat)
    decreases n
  {
    n == 0 || (Digit(word, 2, b) == 0 && RunClear(word, b + 1, n - 1))
  }

  /** `word | mask`: bits `b` to `b + n - 1` set. */
  function SetRun(word: nat, b: nat, n: nat): nat
    decreases n
  {
    if n == 0 then word else SetRun(Update(word, 2, b, 1), b + 1, n - 1)
  }

  /** A run is clear exactly when each of its bits is. */
  lemma {:induction false} RunClearDigits(word: nat, b: nat, n: nat, j: nat)
    requires RunClear(word, b, n) && b <= j < b + n
    ensures Digit(word, 2, j) == 0
    decreases n
  {
    if j != b {
      RunClearDigits(word, b + 1, n - 1, j);
    }
  }

  /** Setting a run sets its bits and leaves every other bit alone. */
  lemma {:induction false} SetRunDigits(word: nat, b: nat, n: nat, j: nat)
    ensures Digit(SetRun(word, b, n), 2, j) == if b <= j < b + n then 1 else Digit(word, 2, j)
    decreases n
  {
    if n != 0 {
      SetRunDigits(Update(word, 2, b, 1), b + 1, n - 1, j);
      DigitUpdate(word, 2, b, 1, j);
    }
  }

  /** A run inside the word keeps the word within 64 bits. */
  lemma {:induction false} SetRunFits(word: nat, b: nat, n: nat)
    requires word < Pow(2, BITS_PER_WORD) && b + n <= BITS_PER_WORD
    ensures SetRun(word, b, n) < Pow(2, BITS_PER_WORD)
    decreases n
  {
    if n != 0 {
      UpdateBound(word, 2, b, 1, BITS_PER_WORD);
      SetRunFits(Update(word, 2, b, 1), b + 1, n - 1);
    }
  }

  /** A full word holds no clear run, so skipping it loses nothing. */
  lemma FullWordHasNoRun(b: nat, n: nat)
    requires 0 < n && b + n <= BITS_PER_WORD
    ensures !RunClear(AllOnes(), b, n)
  {
    AllOnesDigit(BITS_PER_WORD, b);
  }

  /** A zero word is clear everywhere. */
  lemma {:induction false} ZeroWordRun(b: nat, n: nat)
    ensures RunClear(0, b, n)
    decreases n
  {
    if n != 0 {
      DigitZero(2, b);
      ZeroWordRun(b + 1, n - 1);
    }
  }

  /** A run of `n` clear bits starts at bit `b` of word `w`. */
  ghost predicate Fits(words: seq<nat>, w: nat, b: nat, n: nat)
  {
    w < |words| && b + n <= BITS_PER_WORD && RunClear(words[w], b, n)
  }

  /** `(w, b)` is the first fitting run in word-then-bit order. */
  ghost predicate FirstFit(words: seq<nat>, w: nat, b: nat, n: nat)
  {
    Fits(words, w, b, n) &&
    forall w', b' :: Fits(words, w', b', n) ==> w < w' || (w == w' && b <= b')
  }

  ghost predicate HasFit(words: seq<nat>, n: nat)
  {
    exists w, b :: Fits(words, w, b, n)
  }

  /** The bitmap the search succeeds on: the same words, or twice as many with a zero upper half. */
  ghost function Widened(words: seq<nat>, n: nat): seq<nat>
  {
    if HasFit(words, n) then words else words + seq(|words|, _ => 0)
  }

  /** The first fit of a bitmap is unique. */
  lemma FirstFitUnique(words: seq<nat>, n: nat, w1: nat, b1: nat, w2: nat, b2: nat)
    requires FirstFit(words, w1, b1, n) && FirstFit(words, w2, b2, n)
    ensures w1 == w2 && b1 == b2
  {
  }

  /**
   * A bitmap without room gets its first fit at the start of the new half:
   * the old words still have no run and the first new word is zero.
   */
  lemma WidenedFirstFit(words: seq<nat>, n: nat)
    requires 0 < n < BITS_PER_WORD && 0 < |words| && !HasFit(words, n)
    ensures FirstFit(Widened(words, n), |words|, 0, n)
  {
    var wide := words + seq(|words|, _ => 0);
    assert Widened(words, n) == wide;
    ZeroWordRun(0, n);
    assert wide[|words|] == 0;
    forall w': nat, b': nat | w' < |words|
      ensures Fits(wide, w', b', n) == Fits(words, w', b', n)
    {
      assert wide[w'] == words[w'];
    }
  }

  /**
   * The reservation of `next_n_vacant_cells`: every bit of the chosen run
   * was clear and is now set, every other bit of the word is unchanged, and
   * the other words are untouched.
   */
  lemma ReservationBits(words: seq<nat>, w: nat, b: nat, n: nat, j: nat)
    requires FirstFit(words, w, b, n)
    ensures var words' := words[w := SetRun(words[w], b, n)];
      |words'| == |words| &&
      (b <= j < b + n ==> Digit(words[w], 2, j) == 0 && Digit(words'[w], 2, j) == 1) &&
      (!(b <= j < b + n) ==> Digit(words'[w], 2, j) == Digit(words[w], 2, j)) &&
      forall w' :: 0 <= w' < |words| && w' != w ==> words'[w'] == words[w']
  {
    if b <= j < b + n {
      RunClearDigits(words[w], b, n, j);
    }
    SetRunDigits(words[w], b, n, j);
  }

  /**
   * `next_n_vacant_cells(n)` took `words` to `words'` and returned `start`:
   * the first fit of the (possibly widened) bitmap starts at `start`, and
   * its run is now set.
   */
  ghost predicate Reserved(words: seq<nat>, n: nat, start: nat, words': seq<nat>)
  {
    var wide := Widened(words, n);
    var w, b := start / BITS_PER_WORD, start % BITS_PER_WORD;
    FirstFit(wide, w, b, n) && words' == wide[w := SetRun(wide[w], b, n)]
  }
}
