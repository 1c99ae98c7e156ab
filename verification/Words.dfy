/** The 64-bit machine words the shared counters are stored in. */
module Words {

  const WORD := 0x1_0000_0000_0000_0000
  const HALF := 0x8000_0000_0000_0000
  const MAX_WORD := 0xFFFF_FFFF_FFFF_FFFF

  type Word = x: int | 0 <= x < 0x1_0000_0000_0000_0000

  type Byte = x: int | 0 <= x < 256

  /** The word that a wrapping operation on two words stores for the mathematical result x. */
  function Wrap(x: int): Word
    requires -WORD <= x < 2 * WORD
  {
    if x < 0 then x + WORD else if x < WORD then x else x - WORD
  }

  /** A word read as a two's complement signed number (a cast to isize). */
  function Signed(w: Word): int {
    if w < 0x8000_0000_0000_0000 then w else w - 0x1_0000_0000_0000_0000
  }

  /** Casting a wrapped difference to a signed word loses nothing while the difference fits. */
  lemma SignedWrap(x: int)
    requires -HALF <= x < HALF
    ensures Signed(Wrap(x)) == x
  {
  }

  /** Two indices less than n apart never share a slot. */
  lemma {:induction false} DistinctSlots(i: int, j: int, n: int)
    requires i < j < i + n
    ensures i % n != j % n
  {
    var q := j / n - i / n;
    assert j - i == n * q + (j % n - i % n);
    assert q <= 0 ==> n * q <= 0;
    assert q >= 1 ==> n * q >= n;
  }

  /** As many of the bytes as there is room for, from the first on. */
  function Cut(bytes: seq<Byte>, room: nat): (r: seq<Byte>)
    ensures r <= bytes && |r| <= room && (r == bytes || |r| == room)
  {
    if |bytes| <= room then bytes else bytes[..room]
  }
}
