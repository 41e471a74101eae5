/** lgc.h: the colours of the collector as bits of the `marked` byte. */
module ColourBits {
  import opened Marking

  const WHITE0: bv8 := 1
  const WHITE1: bv8 := 2
  const WHITEBITS: bv8 := 3
  const BLACK: bv8 := 4
  const FIXED: bv8 := 32
  const MASKMARKS: bv8 := 0xF8

  /** The bits of a colour. */
  function Bits(c: Colour): bv8 {
    match c
    case White(bit) => if bit then WHITE1 else WHITE0
    case Gray => 0
    case Black => BLACK
  }

  /** The byte of an object has some colour, and any other bits. */
  predicate Has(marked: bv8, c: Colour) { marked & 7 == Bits(c) }

  /** `currentwhite` of a running collector: one white, and the fixed bit set by f_luaopen. */
  function CurrentWhite(bit: bool): bv8 { FIXED | Bits(White(bit)) }

  function OtherWhite(currentwhite: bv8): bv8 { currentwhite ^ WHITEBITS }

  predicate IsWhite(marked: bv8) { marked & WHITEBITS != 0 }

  predicate IsBlack(marked: bv8) { marked & BLACK != 0 }

  predicate IsDead(marked: bv8, currentwhite: bv8) { marked & OtherWhite(currentwhite) & WHITEBITS != 0 }

  predicate IsFixed(marked: bv8) { marked & FIXED != 0 }

  /** The test of sweeplist for objects that stay. */
  predicate SweepKeeps(marked: bv8, deadmask: bv8) { (marked ^ WHITEBITS) & deadmask != 0 }

  /** The tests on bits are the tests on colours. */
  lemma Tests(marked: bv8, c: Colour, bit: bool)
    requires Has(marked, c)
    ensures IsWhite(marked) <==> c.White?
    ensures IsBlack(marked) <==> c.Black?
    ensures IsDead(marked, CurrentWhite(bit)) <==> c == White(!bit)
  {
    LowBits(marked);
  }

  lemma LowBits(m: bv8)
    ensures (m & 3 != 0) <==> (m & 7 != 0 && m & 7 != 4)
    ensures m & 7 == 1 ==> m & 3 == 1 && m & 4 == 0 && m & 2 == 0 && m & 1 == 1
    ensures m & 7 == 2 ==> m & 3 == 2 && m & 4 == 0 && m & 1 == 0 && m & 2 == 2
    ensures m & 7 == 0 ==> m & 4 == 0 && m & 1 == 0 && m & 2 == 0
    ensures m & 7 == 4 ==> m & 4 == 4 && m & 1 == 0 && m & 2 == 0
  {
  }

  /** The sweep keeps exactly what is fixed or not dead: the fixed bit of `currentwhite` makes one
      test of two. */
  lemma SweepTest(marked: bv8, c: Colour, bit: bool)
    requires Has(marked, c)
    ensures SweepKeeps(marked, OtherWhite(CurrentWhite(bit))) <==> c != White(!bit) || IsFixed(marked)
  {
    if bit { SweepTest1(marked); } else { SweepTest0(marked); }
    LowBits(marked);
  }

  lemma SweepTest0(m: bv8)
    ensures ((m ^ 3) & ((32 | 1) ^ 3) != 0) <==> (m & 2 == 0 || m & 32 != 0)
  {
  }

  lemma SweepTest1(m: bv8)
    ensures ((m ^ 3) & ((32 | 2) ^ 3) != 0) <==> (m & 1 == 0 || m & 32 != 0)
  {
  }

  /** What every collectable object begins with. */
  class Header {
    var marked: bv8

    /** The bits that are no colour. */
    function Others(): bv8
      reads this
    {
      marked & MASKMARKS
    }

    method WhiteToGray(ghost bit: bool)
      requires Has(marked, White(bit))
      modifies this
      ensures Has(marked, Gray) && Others() == old(Others())
    {
      marked := marked & !WHITEBITS;
    }

    method GrayToBlack()
      requires Has(marked, Gray)
      modifies this
      ensures Has(marked, Black) && Others() == old(Others())
    {
      marked := marked | BLACK;
    }

    method BlackToGray()
      requires Has(marked, Black)
      modifies this
      ensures Has(marked, Gray) && Others() == old(Others())
    {
      marked := marked & !BLACK;
    }

    /** Resurrection. */
    method ChangeWhite(ghost bit: bool)
      requires Has(marked, White(bit))
      modifies this
      ensures Has(marked, White(!bit)) && Others() == old(Others())
    {
      marked := marked ^ WHITEBITS;
    }

    /** What the sweep does to an object that stays, whatever its colour. */
    method MakeWhite(currentwhite: bv8, ghost bit: bool)
      requires currentwhite == CurrentWhite(bit)
      modifies this
      ensures Has(marked, White(bit)) && Others() == old(Others())
    {
      marked := (marked & MASKMARKS) | (currentwhite & WHITEBITS);
    }
  }

  /** The flip of atomic keeps the fixed bit. */
  lemma Flip(bit: bool)
    ensures OtherWhite(CurrentWhite(bit)) == CurrentWhite(!bit)
  {
  }
}
