/**
  Rounding sizes up with bit masks, and the layout of a queue in shared memory that rests on it.
 */
module Layout {
  import opened Words
  import opened Wrappers

  const CACHE_LINE := 64
  const USIZE_SIZE := 8
  /** Four cache lines for the counters, the flag, and padding up to the word alignment. */
  const CONTROL_SIZE := 264

  function Pow2(k: nat): (r: nat)
    ensures r >= 1
  {
    if k == 0 then 1 else 2 * Pow2(k - 1)
  }

  /** Bitwise conjunction, binary digit by binary digit. */
  function And(a: nat, b: nat): nat {
    if a == 0 || b == 0 then 0
    else 2 * And(a / 2, b / 2) + if a % 2 == 1 && b % 2 == 1 then 1 else 0
  }

  /** Bitwise complement of a 64-bit word. */
  function Not(a: Word): Word {
    MAX_WORD - a
  }

  /** (x + (y - 1)) & !(y - 1) on 64-bit words. */
  function MaskUp(x: Word, y: Word): nat
    requires y > 0
  {
    And(Wrap(x + (y - 1)), Not(y - 1))
  }

  function Align(x: Word, y: Word): nat {
    if x > 0 && y > 0 then MaskUp(x, y) else 0
  }

  /** Complement means complement: the two share no digit. */
  lemma {:induction false} AndComplement(a: nat, w: nat)
    requires a < Pow2(w)
    ensures And(a, Pow2(w) - 1 - a) == 0
    decreases w
  {
    if w > 0 {
      var b := Pow2(w) - 1 - a;
      assert b / 2 == Pow2(w - 1) - 1 - a / 2;
      AndComplement(a / 2, w - 1);
    }
  }

  lemma {:induction false} Pow2Grows(k: nat, w: nat)
    requires k <= w
    ensures Pow2(k) <= Pow2(w)
    decreases w
  {
    if k < w {
      Pow2Grows(k, w - 1);
    }
  }

  lemma HalfMod(a: nat, n: nat)
    requires n > 0
    ensures a % (2 * n) == 2 * ((a / 2) % n) + a % 2
  {
    var q, r := (a / 2) / n, (a / 2) % n;
    assert a == 2 * (n * q + r) + a % 2;
    assert a == (2 * n) * q + (2 * r + a % 2);
    QuotientUnique(a, 2 * n, q, 2 * r + a % 2);
  }

  lemma QuotientUnique(a: int, n: int, q: int, r: int)
    requires n > 0 && a == n * q + r && 0 <= r < n
    ensures a % n == r
  {
    var d := a / n - q;
    assert n * d == r - a % n;
    assert d >= 1 ==> n * d >= n;
    assert d <= -1 ==> n * d <= -n;
  }

  /** A mask of all ones changes nothing. */
  lemma {:induction false} AndOnes(a: nat, w: nat)
    requires a < Pow2(w)
    ensures And(a, Pow2(w) - 1) == a
    decreases w
  {
    if w > 0 {
      AndOnes(a / 2, w - 1);
      AndOdd(a, Pow2(w - 1) - 1);
    }
  }

  lemma AndOdd(a: nat, b: nat)
    ensures And(a, 2 * b + 1) == 2 * And(a / 2, b) + a % 2
  {
  }

  /** The number that the low k digits of a stand for. */
  function Low(a: nat, k: nat): nat {
    if k == 0 then 0 else 2 * Low(a / 2, k - 1) + a % 2
  }

  lemma {:induction false} LowIsMod(a: nat, k: nat)
    ensures Low(a, k) == a % Pow2(k)
    decreases k
  {
    if k > 0 {
      LowIsMod(a / 2, k - 1);
      HalfMod(a, Pow2(k - 1));
    }
  }

  /** A mask of ones above digit k clears the low k digits. */
  lemma {:induction false} AndMask(a: nat, k: nat, w: nat)
    requires k <= w && Pow2(k) <= Pow2(w) && a < Pow2(w)
    ensures And(a, Pow2(w) - Pow2(k)) == a - Low(a, k)
    decreases w
  {
    if k == 0 {
      AndOnes(a, w);
    } else {
      Pow2Grows(k - 1, w - 1);
      AndMask(a / 2, k - 1, w - 1);
      AndEven(a, Pow2(w - 1) - Pow2(k - 1));
    }
  }

  lemma AndEven(a: nat, b: nat)
    ensures And(a, 2 * b) == 2 * And(a / 2, b)
  {
    assert (2 * b) / 2 == b && (2 * b) % 2 == 0;
  }

  lemma {:induction false} Pow2Add(k: nat, l: nat)
    ensures Pow2(k + l) == Pow2(k) * Pow2(l)
    decreases k
  {
    if k > 0 {
      Pow2Add(k - 1, l);
      assert 2 * (Pow2(k - 1) * Pow2(l)) == (2 * Pow2(k - 1)) * Pow2(l);
    }
  }

  lemma Pow2Word()
    ensures Pow2(64) == WORD && Pow2(6) == CACHE_LINE
  {
    assert Pow2(2) == 4;
    Pow2Add(2, 2);
    Pow2Add(4, 2);
    Pow2Add(4, 4);
    Pow2Add(8, 8);
    Pow2Add(16, 16);
    Pow2Add(32, 32);
  }

  lemma MaskWord(a: nat, y: nat, k: nat, all: nat, w: nat)
    requires y == Pow2(k) && all == Pow2(w) && k <= w && y <= all && a < all
    ensures And(a, all - y) == a - a % y
  {
    AndMask(a, k, w);
    LowIsMod(a, k);
  }

  /** The mask form for a power of two rounds down what is left after the sum wraps. */
  lemma MaskIsArithmetic(x: Word, k: nat)
    requires k < 64
    ensures 0 < Pow2(k) < WORD
    ensures var sum := Wrap(x + (Pow2(k) - 1));
            MaskUp(x, Pow2(k)) == sum - sum % Pow2(k)
  {
    Pow2Word();
    Pow2Grows(k, 63);
    MaskWord(Wrap(x + (Pow2(k) - 1)), Pow2(k), k, WORD, 64);
  }

  lemma RoundUpLeast(x: nat, y: nat, r: int, m: nat)
    requires y > 0 && r == x + (y - 1) - (x + (y - 1)) % y
    ensures r % y == 0
    ensures x <= r < x + y
    ensures m % y == 0 && x <= m ==> r <= m
  {
    var q := (x + (y - 1)) / y;
    assert r == y * q;
    QuotientUnique(r, y, q, 0);
    if m % y == 0 && x <= m {
      var d := q - m / y;
      assert m == y * (m / y);
      assert r - m == y * d;
      assert d >= 1 ==> y * d >= y;
      assert d <= 0 ==> y * d <= 0;
    }
  }

  lemma AlignRounds(x: Word, k: nat)
    requires 0 < x && k < 64
    requires 0 < Pow2(k) < WORD && x + (Pow2(k) - 1) < WORD
    ensures Align(x, Pow2(k)) == x + (Pow2(k) - 1) - (x + (Pow2(k) - 1)) % Pow2(k)
  {
    MaskIsArithmetic(x, k);
  }

  /** Without overflow, align gives the least multiple of the alignment that is large enough. */
  lemma AlignIsLeast(x: Word, k: nat, m: nat)
    requires k < 64
    requires 0 < Pow2(k) < WORD && x + (Pow2(k) - 1) < WORD
    ensures Align(x, Pow2(k)) % Pow2(k) == 0
    ensures x <= Align(x, Pow2(k)) < x + Pow2(k)
    ensures m % Pow2(k) == 0 && x <= m ==> Align(x, Pow2(k)) <= m
  {
    if x > 0 {
      AlignRounds(x, k);
      RoundUpLeast(x, Pow2(k), Align(x, Pow2(k)), m);
    }
  }

  /** Rounding up to whole words. */
  lemma AlignToWord(x: Word)
    requires x + (USIZE_SIZE - 1) < WORD
    ensures MaskUp(x, USIZE_SIZE) % 8 == 0
    ensures x <= MaskUp(x, USIZE_SIZE) < x + USIZE_SIZE
  {
    assert Pow2(3) == USIZE_SIZE;
    MaskIsArithmetic(x, 3);
    RoundDown(x + (USIZE_SIZE - 1));
  }

  lemma RoundDown(sum: nat)
    ensures (sum - sum % 8) % 8 == 0
  {
    QuotientUnique(sum - sum % 8, 8, sum / 8, 0);
  }

  /** align is large enough if and only if the addition inside it does not overflow. */
  lemma AlignCoversIffNoOverflow(x: Word, k: nat)
    requires k < 64 && 0 < Pow2(k) < WORD
    ensures x <= Align(x, Pow2(k)) <==> x + (Pow2(k) - 1) < WORD
  {
    MaskIsArithmetic(x, k);
    if x == 0 {
      Pow2Word();
    } else if x + (Pow2(k) - 1) < WORD {
      AlignIsLeast(x, k, 0);
    }
  }

  // ---------- the queue in memory ----------

  function ItemOffset(itemSize: Word): nat {
    Align(itemSize, CACHE_LINE)
  }

  /** None stands for a failed assertion or an overflow, on which the code stops. */
  function RequiredSize(itemSize: Word, itemCount: Word): (r: Option<nat>)
  {
    if itemCount == 0 || itemSize == 0 || itemCount >= HALF - 1 || itemSize + (CACHE_LINE - 1) >= WORD then None
    else
      var size := ItemOffset(itemSize) * itemCount + CONTROL_SIZE;
      if size < WORD then Some(size) else None
  }

  lemma RoundedUnique(x: nat, a: nat, b: nat)
    requires a % 64 == 0 && b % 64 == 0 && x <= a < x + 64 && x <= b < x + 64
    ensures a == b
  {
    var q := a / 64 - b / 64;
    assert a - b == 64 * q;
  }

  /**
    Sizes are accepted iff both are positive, the count stays below isize::MAX and nothing
    overflows, where m is the item size rounded up to cache lines.
   */
  lemma SizesAcceptedIff(itemSize: Word, itemCount: Word, m: nat)
    requires m % 64 == 0 && itemSize <= m < itemSize + 64
    ensures RequiredSize(itemSize, itemCount).Some? <==>
            && 0 < itemCount < 0x7FFF_FFFF_FFFF_FFFF
            && 0 < itemSize && itemSize + 63 < 0x1_0000_0000_0000_0000
            && m * itemCount + 264 < 0x1_0000_0000_0000_0000
    ensures RequiredSize(itemSize, itemCount).Some? ==> RequiredSize(itemSize, itemCount).value == m * itemCount + 264
  {
    if 0 < itemSize && itemSize + (CACHE_LINE - 1) < WORD {
      ItemOffsetFits(itemSize);
      RoundedUnique(itemSize, m, ItemOffset(itemSize));
    }
  }

  /** k steps of o bytes; by recursion, so that positions stay linear in proofs. */
  function Scale(k: nat, o: nat): nat {
    if k == 0 then 0 else Scale(k - 1, o) + o
  }

  lemma {:induction false} ScaleIsProduct(k: nat, o: nat)
    ensures Scale(k, o) == k * o
    decreases k
  {
    if k > 0 {
      ScaleIsProduct(k - 1, o);
      Successor(k - 1, o);
    }
  }

  lemma Successor(k: int, o: int)
    ensures (k + 1) * o == k * o + o
  {
  }

  /** Different steps are at least o apart. */
  lemma {:induction false} Stride(k: nat, l: nat, o: nat)
    requires k < l
    ensures Scale(k, o) + o <= Scale(l, o)
    decreases l - k
  {
    if k < l - 1 {
      Stride(k, l - 1, o);
    }
  }

  lemma ItemOffsetFits(itemSize: Word)
    requires 0 < itemSize && itemSize + (CACHE_LINE - 1) < WORD
    ensures itemSize <= ItemOffset(itemSize) < itemSize + CACHE_LINE
    ensures ItemOffset(itemSize) % 64 == 0
  {
    Pow2Word();
    AlignIsLeast(itemSize, 6, 0);
  }

  /** What a size that passes the checks provides. */
  lemma SizesFit(itemSize: Word, itemCount: Word)
    requires RequiredSize(itemSize, itemCount).Some?
    ensures 0 < itemSize <= ItemOffset(itemSize) && 0 < itemCount
    ensures Scale(itemCount, ItemOffset(itemSize)) + CONTROL_SIZE == RequiredSize(itemSize, itemCount).value
  {
    ItemOffsetFits(itemSize);
    ScaleIsProduct(itemCount, ItemOffset(itemSize));
  }

  /** Slots do not overlap, and end before the control block, which ends with the queue. */
  lemma SlotsDisjoint(itemSize: Word, itemCount: Word, k: nat, l: nat)
    requires RequiredSize(itemSize, itemCount).Some?
    requires k < l <= itemCount
    ensures var o := ItemOffset(itemSize);
            && Scale(k, o) + itemSize <= Scale(l, o) <= Scale(itemCount, o)
            && Scale(itemCount, o) + CONTROL_SIZE == RequiredSize(itemSize, itemCount).value
  {
    SizesFit(itemSize, itemCount);
    Stride(k, l, ItemOffset(itemSize));
    Stride(l - 1, itemCount, ItemOffset(itemSize));
  }

  /** The control block is word-aligned whenever the queue starts at a word-aligned address. */
  lemma ControlAligned(itemSize: Word, itemCount: Word, base: nat)
    requires 0 < itemSize && itemSize + (CACHE_LINE - 1) < WORD
    requires base % 8 == 0
    ensures (base + Scale(itemCount, ItemOffset(itemSize))) % 8 == 0
  {
    ItemOffsetFits(itemSize);
    ScaleAligned(itemCount, ItemOffset(itemSize), base);
  }

  lemma {:induction false} ScaleAligned(k: nat, o: nat, base: nat)
    requires o % 64 == 0 && base % 8 == 0
    ensures (base + Scale(k, o)) % 8 == 0
    decreases k
  {
    if k > 0 {
      ScaleAligned(k - 1, o, base);
      AlignedSum(base + Scale(k - 1, o), o);
    }
  }

  lemma AlignedSum(a: nat, o: nat)
    requires a % 8 == 0 && o % 64 == 0
    ensures (a + o) % 8 == 0
  {
    var q, r := a / 8, o / 64;
    assert a == 8 * q && o == 64 * r;
    QuotientUnique(a + o, 8, q + 8 * r, 0);
  }
}
