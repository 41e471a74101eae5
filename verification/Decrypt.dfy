/** decrypt-block.c: the key stream of the firmware cipher. Machine words are naturals below 2^32;
    shifts and masks are written as multiplications, divisions and remainders. */
module Decrypt {

  type Word = w: nat | w < 0x1_0000_0000

  const MULTIPLIER: nat := 0xFF80_3FE1

  /** The cast of a 64-bit product to long long. */
  function ToInt64(x: nat): int {
    var w := x % 0x1_0000_0000_0000_0000;
    if w >= 0x8000_0000_0000_0000 then w - 0x1_0000_0000_0000_0000 else w
  }

  /** The upper half of the product; the shift keeps the sign and the result is cut to 32 bits. */
  function HighBits(base: Word): Word {
    ToInt64(base * MULTIPLIER) / 0x1_0000_0000 % 0x1_0000_0000
  }

  function Offset1(base: Word): Word {
    base * 0x80_0000 % 0x1_0000_0000 / 0x80_0000
  }

  function Offset2(base: Word): Word {
    var high := HighBits(base);
    (base - (high / 0x200 + (high - high % 0x200)) % 0x1_0000_0000) % 0x1_0000_0000
  }

  // ---- The offsets -------------------------------------------------------------------------

  lemma HighIsQuotient(base: Word)
    ensures HighBits(base) == base * MULTIPLIER / 0x1_0000_0000
  {
    var x := base * MULTIPLIER;
    assert 0 <= x < 0x1_0000_0000 * MULTIPLIER;
    assert x % 0x1_0000_0000_0000_0000 == x;
    var q := x / 0x1_0000_0000;
    assert 0 <= q < 0x1_0000_0000;
    if x >= 0x8000_0000_0000_0000 {
      assert ToInt64(x) / 0x1_0000_0000 == q - 0x1_0000_0000;
    }
  }

  /** 513 times the multiplier is 2^41 + 481. */
  lemma QuotientBy513(base: Word)
    ensures HighBits(base) / 0x200 == base / 513
  {
    HighIsQuotient(base);
    var x := base * MULTIPLIER;
    var q, m := base / 513, base % 513;
    assert x / 0x1_0000_0000 / 0x200 == x / 0x200_0000_0000;
    assert 513 * x == base * 0x200_0000_0000 + base * 481;
    assert base == 513 * q + m;
    assert 513 * x == 513 * q * 0x200_0000_0000 + (m * 0x200_0000_0000 + base * 481);
    assert m * 0x200_0000_0000 + base * 481 < 513 * 0x200_0000_0000;
    assert q * 0x200_0000_0000 <= x < (q + 1) * 0x200_0000_0000;
  }

  lemma LowBits(base: Word)
    ensures Offset1(base) == base % 512
  {
    var q, m := base / 512, base % 512;
    assert base * 0x80_0000 == q * 0x1_0000_0000 + m * 0x80_0000;
    assert base * 0x80_0000 % 0x1_0000_0000 == m * 0x80_0000;
  }

  lemma ExactDivision(base: Word)
    ensures Offset2(base) == base % 513
  {
    hide HighBits;
    QuotientBy513(base);
    var high := HighBits(base);
    assert high - high % 0x200 == 512 * (base / 513);
    assert high / 0x200 + (high - high % 0x200) == 513 * (base / 513);
  }

  /** getoffsets: the remainders by 512 and by 513, without a division. */
  method GetOffsets(base: Word) returns (o1: Word, o2: Word)
    ensures o1 == base % 512
    ensures o2 == base % 513
  {
    LowBits(base);
    ExactDivision(base);
    return Offset1(base), Offset2(base);
  }

  // ---- The cipher --------------------------------------------------------------------------

  /** The two key tables. */
  datatype Keys = Keys(crypt1: seq<bv8>, crypt2: seq<bv8>) {
    predicate Valid() { |crypt1| == 512 && |crypt2| == 513 }

    /** The key of the byte at `pos`. */
    function At(pos: nat): bv8
      requires Valid()
    {
      crypt1[pos % 512] ^ crypt2[pos % 513] ^ 0x37
    }
  }

  /** The bytes of a stream that starts at `base`, each under its own key. */
  function Decrypted(k: Keys, s: seq<bv8>, base: nat): (r: seq<bv8>)
    requires k.Valid()
    ensures |r| == |s|
  {
    seq(|s|, i requires 0 <= i < |s| => s[i] ^ k.At(base + i))
  }

  /** Byte i is under the keys of its place in the stream, one of each table, and the constant 0x37. */
  lemma ByteMeaning(k: Keys, s: seq<bv8>, base: nat, i: nat)
    requires |k.crypt1| == 512 && |k.crypt2| == 513 && i < |s|
    ensures k.Valid() && Decrypted(k, s, base)[i] == s[i] ^ (k.crypt1[(base + i) % 512] ^ k.crypt2[(base + i) % 513] ^ 0x37)
  {
    assert Decrypted(k, s, base)[i] == s[i] ^ k.At(base + i);
  }

  lemma XorTwice(a: bv8, b: bv8)
    ensures a ^ b ^ b == a
  {
  }

  /** Decrypting is encrypting. */
  lemma SelfInverse(k: Keys, s: seq<bv8>, base: nat)
    requires k.Valid()
    ensures Decrypted(k, Decrypted(k, s, base), base) == s
  {
    forall i: nat | i < |s| ensures Decrypted(k, Decrypted(k, s, base), base)[i] == s[i] {
      XorTwice(s[i], k.At(base + i));
    }
  }

  lemma Split(k: Keys, s: seq<bv8>, t: seq<bv8>, base: nat)
    requires k.Valid()
    ensures Decrypted(k, s + t, base) == Decrypted(k, s, base) + Decrypted(k, t, base + |s|)
  {
    forall i: nat | i < |s + t|
      ensures Decrypted(k, s + t, base)[i] == (Decrypted(k, s, base) + Decrypted(k, t, base + |s|))[i]
    {
      assert i >= |s| ==> base + |s| + (i - |s|) == base + i;
    }
  }

  /** decrypt_block: the counters never leave the tables and stay equal to the remainders. */
  method DecryptBlock(k: Keys, buf: array<bv8>, bytes: nat, base: Word)
    requires k.Valid() && bytes <= buf.Length && bytes < 0x1_0000_0000
    modifies buf
    ensures buf[..] == Decrypted(k, old(buf[..bytes]), base) + old(buf[bytes..])
  {
    hide *;
    var offset1, offset2 := GetOffsets(base);
    KeysValid(k);
    ghost var was := buf[..];
    var i := 0;
    while i < bytes
      invariant i <= bytes && offset1 == (base + i) % 512 && offset2 == (base + i) % 513
      invariant buf[..] == Decrypted(k, was[..i], base) + was[i..]
    {
      NextKey(k, was, i, base);
      Advance(base + i);
      buf[i] := buf[i] ^ (k.crypt1[offset1] ^ k.crypt2[offset2] ^ 0x37);
      offset1 := offset1 + 1;
      if offset1 >= 512 { offset1 := 0; }
      offset2 := offset2 + 1;
      if offset2 >= 513 { offset2 := 0; }
      i := i + 1;
    }
  }

  lemma KeysValid(k: Keys)
    ensures k.Valid() <==> |k.crypt1| == 512 && |k.crypt2| == 513
  {
  }

  lemma Advance(pos: nat)
    ensures (pos + 1) % 512 == if pos % 512 + 1 >= 512 then 0 else pos % 512 + 1
    ensures (pos + 1) % 513 == if pos % 513 + 1 >= 513 then 0 else pos % 513 + 1
  {
  }

  lemma One(k: Keys, b: bv8, pos: nat)
    requires k.Valid()
    ensures Decrypted(k, [b], pos) == [b ^ (k.crypt1[pos % 512] ^ k.crypt2[pos % 513] ^ 0x37)]
  {
    assert Decrypted(k, [b], pos)[0] == [b][0] ^ k.At(pos + 0);
  }

  lemma NextKey(k: Keys, s: seq<bv8>, i: nat, base: nat)
    requires k.Valid() && i < |s|
    ensures
      var a := Decrypted(k, s[..i], base) + s[i..];
      |a| == |s| && a[i] == s[i] &&
      a[i := s[i] ^ (k.crypt1[(base + i) % 512] ^ k.crypt2[(base + i) % 513] ^ 0x37)] == Decrypted(k, s[..i + 1], base) + s[i + 1..]
  {
    hide Decrypted;
    One(k, s[i], base + i);
    Split(k, s[..i], [s[i]], base);
    assert s[..i + 1] == s[..i] + [s[i]];
  }

  // ---- The stream --------------------------------------------------------------------------

  /** The bytes that successive reads deliver; an empty read ends the stream. */
  function Stream(chunks: seq<seq<bv8>>): seq<bv8> {
    if chunks == [] || chunks[0] == [] then [] else chunks[0] + Stream(chunks[1..])
  }

  /** What main writes for these chunks; the offset is a 32-bit word. */
  function Pieces(k: Keys, chunks: seq<seq<bv8>>, offset: Word): seq<bv8>
    requires k.Valid()
  {
    if chunks == [] || chunks[0] == [] then []
    else Decrypted(k, chunks[0], offset) + Pieces(k, chunks[1..], (offset + |chunks[0]|) % 0x1_0000_0000)
  }

  /** However a stream is cut into pieces, the output is that of one call, as long as the offset does
      not pass 2^32 before the last byte. */
  lemma {:induction false} PiecesAreOne(k: Keys, chunks: seq<seq<bv8>>, offset: Word)
    requires k.Valid() && offset + |Stream(chunks)| <= 0x1_0000_0000
    ensures Pieces(k, chunks, offset) == Decrypted(k, Stream(chunks), offset)
  {
    if chunks != [] && chunks[0] != [] {
      var next := offset + |chunks[0]|;
      if next < 0x1_0000_0000 {
        PiecesAreOne(k, chunks[1..], next);
      } else {
        assert Stream(chunks[1..]) == [];
        PiecesAreOne(k, chunks[1..], 0);
      }
      Split(k, chunks[0], Stream(chunks[1..]), offset);
    }
  }

  /** The bound is needed: past 2^32 a new piece starts in another place of the second table. */
  lemma OffsetWraps(base: Word, n: Word)
    ensures ((base + n) % 0x1_0000_0000) % 513 == (base + n) % 513 <==> base + n < 0x1_0000_0000
  {
    if base + n >= 0x1_0000_0000 {
      var r := base + n - 0x1_0000_0000;
      assert (base + n) % 0x1_0000_0000 == r;
      var q := r / 513;
      assert base + n == 513 * (q + 8372255) + (r % 513 + 481);
      var m := r % 513;
      assert (base + n) % 513 == if m + 481 >= 513 then m - 32 else m + 481;
    }
  }

  lemma Rest(chunks: seq<seq<bv8>>, i: nat)
    requires i < |chunks|
    ensures chunks[i..] != [] && chunks[i..][0] == chunks[i] && chunks[i..][1..] == chunks[i + 1..]
  {
  }

  lemma Together(a: seq<bv8>, b: seq<bv8>, c: seq<bv8>)
    ensures a + (b + c) == a + b + c
  {
  }

  lemma PiecesStep(k: Keys, chunks: seq<seq<bv8>>, offset: Word)
    requires k.Valid()
    ensures Pieces(k, chunks, offset) ==
      if chunks == [] || chunks[0] == [] then []
      else Decrypted(k, chunks[0], offset) + Pieces(k, chunks[1..], (offset + |chunks[0]|) % 0x1_0000_0000)
  {
  }

  /** One turn of the loop of main: what is read into the buffer, and what is then written. */
  method ReadAndDecrypt(k: Keys, buf: array<bv8>, input: seq<bv8>, offset: Word) returns (output: seq<bv8>)
    requires k.Valid() && |input| <= buf.Length < 0x1_0000_0000
    modifies buf
    ensures output == Decrypted(k, input, offset)
  {
    hide *;
    var rc := |input|;
    forall j | 0 <= j < rc { buf[j] := input[j]; }
    assert buf[..rc] == input;
    DecryptBlock(k, buf, rc, offset);
    output := buf[..rc];
  }

  /** main: the input comes in pieces of at most 4096 bytes into one buffer. */
  method Run(k: Keys, chunks: seq<seq<bv8>>, start: Word) returns (out: seq<bv8>)
    requires k.Valid() && forall i :: 0 <= i < |chunks| ==> |chunks[i]| <= 4096
    ensures out == Pieces(k, chunks, start)
    ensures start + |Stream(chunks)| <= 0x1_0000_0000 ==> out == Decrypted(k, Stream(chunks), start)
  {
    hide *;
    var buf := new bv8[4096](_ => 0);
    var offset: Word := start;
    var i := 0;
    out := [];
    while i < |chunks| && chunks[i] != []
      invariant 0 <= i <= |chunks|
      invariant out + Pieces(k, chunks[i..], offset) == Pieces(k, chunks, start)
    {
      Rest(chunks, i);
      PiecesStep(k, chunks[i..], offset);
      var piece := ReadAndDecrypt(k, buf, chunks[i], offset);
      offset := (offset + |chunks[i]|) % 0x1_0000_0000;
      Together(out, piece, Pieces(k, chunks[i + 1..], offset));
      out := out + piece;
      i := i + 1;
    }
    PiecesStep(k, chunks[i..], offset);
    if start + |Stream(chunks)| <= 0x1_0000_0000 { PiecesAreOne(k, chunks, start); }
  }

  /** Running the program on its own output gives the input back, however either was cut. */
  lemma RunTwice(k: Keys, chunks: seq<seq<bv8>>, again: seq<seq<bv8>>, start: Word)
    requires k.Valid() && start + |Stream(chunks)| <= 0x1_0000_0000
    requires Stream(again) == Pieces(k, chunks, start)
    ensures Pieces(k, again, start) == Stream(chunks)
  {
    PiecesAreOne(k, chunks, start);
    PiecesAreOne(k, again, start);
    SelfInverse(k, Stream(chunks), start);
  }
}
