/** shard/geode/encodings.c: base32 as in section 6 of RFC 4648, in groups of five octets and eight characters. */
module Base32 {
  import opened Paging

  type Octet = bv8

  const PADDING: Octet := 61   // '='

  // ---------- one character ----------

  /** Letters A to Z for 0 to 25, digits 2 to 7 for 26 to 31; only five bits count. */
  function EncodeChar(c: Octet): Octet {
    var v := c & 0x1F;
    if v < 26 then 65 + v else 24 + v
  }

  predicate InAlphabet(c: Octet) {
    65 <= c <= 90 || 50 <= c <= 55
  }

  /** The value of a character of the alphabet. */
  function DecodeChar(c: Octet): Octet
    requires InAlphabet(c)
  {
    if c >= 65 then c - 65 else c - 50 + 26
  }

  lemma CharRoundTrip(c: Octet)
    ensures InAlphabet(EncodeChar(c)) && DecodeChar(EncodeChar(c)) == c & 0x1F && !InAlphabet(PADDING)
  {
  }

  /** Table 3 of RFC 4648. */
  const ALPHABET := "ABCDEFGHIJKLMNOPQRSTUVWXYZ234567"

  /** Each value has the character the RFC gives it, the alphabet has no other, and padding is '='. */
  lemma AlphabetIs(c: Octet)
    ensures var v := c & 0x1F; (v as int) < |ALPHABET| && EncodeChar(c) as int == ALPHABET[v as int] as int
    ensures InAlphabet(c) ==>
              var v := DecodeChar(c) as int; v < |ALPHABET| && ALPHABET[v] as int == c as int
    ensures PADDING as int == '=' as int
  {
  }

  // ---------- blocks of five bits ----------

  /** The octet a block starts in. */
  function GetOctet(block: nat): nat { block * 5 / 8 }

  /** Bits to drop after the block in that octet; negative when the block goes on in the next one. */
  function GetOffset(block: nat): int { 8 - 5 - 5 * block % 8 }

  /** The source's shift: to the left when the offset is negative. */
  function ShiftRight(b: Octet, offset: int): Octet
    requires -8 < offset < 8
  {
    if offset > 0 then b >> offset else b << -offset
  }

  function ShiftLeft(b: Octet, offset: int): Octet
    requires -8 < offset < 8
  {
    ShiftRight(b, -offset)
  }

  /** Octet i of a group, zero past its end. */
  function OctetAt(g: seq<Octet>, i: nat): Octet {
    if i < |g| then g[i] else 0
  }

  /** A block, from the octet it starts in and the next one, as the RFC's figure cuts it. */
  function Cut(a: Octet, b: Octet, block: nat): Octet {
    0x1F & (if block == 0 then a >> 3
            else if block == 1 then (a << 2) | (b >> 6)
            else if block == 2 then a >> 1
            else if block == 3 then (a << 4) | (b >> 4)
            else if block == 4 then (a << 1) | (b >> 7)
            else if block == 5 then a >> 2
            else if block == 6 then (a << 3) | (b >> 5)
            else a)
  }

  /** The group as one number of forty bits, first octet first. */
  function Bits(g: seq<Octet>): bv40 {
    ((OctetAt(g, 0) as bv40) << 32) | ((OctetAt(g, 1) as bv40) << 24) | ((OctetAt(g, 2) as bv40) << 16)
    | ((OctetAt(g, 3) as bv40) << 8) | (OctetAt(g, 4) as bv40)
  }

  function BlockOf(g: seq<Octet>, block: nat): Octet {
    Cut(OctetAt(g, GetOctet(block)), OctetAt(g, GetOctet(block) + 1), block)
  }

  /** Five of the forty bits, counted from the first. */
  function Five(n: bv40, b: nat): Octet {
    var from := if b == 0 then n >> 35
                else if b == 1 then n >> 30
                else if b == 2 then n >> 25
                else if b == 3 then n >> 20
                else if b == 4 then n >> 15
                else if b == 5 then n >> 10
                else if b == 6 then n >> 5
                else n;
    (from & 0x1F) as Octet
  }

  lemma EightBlocks(g: seq<Octet>)
    ensures var n := Bits(g);
      && BlockOf(g, 0) == Five(n, 0) && BlockOf(g, 1) == Five(n, 1) && BlockOf(g, 2) == Five(n, 2)
      && BlockOf(g, 3) == Five(n, 3) && BlockOf(g, 4) == Five(n, 4) && BlockOf(g, 5) == Five(n, 5)
      && BlockOf(g, 6) == Five(n, 6) && BlockOf(g, 7) == Five(n, 7)
  {
  }

  /** The blocks of a group are its bits, five at a time. */
  lemma BlocksAreBits(g: seq<Octet>, b: nat)
    requires b < 8
    ensures BlockOf(g, b) == Five(Bits(g), b)
  {
    hide BlockOf, Five, Bits;
    EightBlocks(g);
  }

  /** What block b of value c adds to octet i, by the same figure. */
  function Piece(c: Octet, b: nat, i: nat): Octet {
    if b == 0 && i == 0 then c << 3
    else if b == 1 && i == 0 then c >> 2
    else if b == 1 && i == 1 then c << 6
    else if b == 2 && i == 1 then c << 1
    else if b == 3 && i == 1 then c >> 4
    else if b == 3 && i == 2 then c << 4
    else if b == 4 && i == 2 then c >> 1
    else if b == 4 && i == 3 then c << 7
    else if b == 5 && i == 3 then c << 2
    else if b == 6 && i == 3 then c >> 3
    else if b == 6 && i == 4 then c << 5
    else if b == 7 && i == 4 then c
    else 0
  }

  /** The octet that some first blocks make. */
  function OctetOf(vs: seq<Octet>, i: nat): Octet {
    if vs == [] then 0 else OctetOf(vs[..|vs| - 1], i) | Piece(vs[|vs| - 1], |vs| - 1, i)
  }

  /** The source's two parts of a block. */
  function SourceCut(a: Octet, b: Octet, block: nat): Octet
    requires block < 8
  {
    var junk := GetOffset(block);
    0x1F & (if junk < 0 then ShiftRight(a, junk) | ShiftRight(b, 8 + junk) else ShiftRight(a, junk))
  }

  lemma Cuts01(a: Octet, b: Octet)
    ensures SourceCut(a, b, 0) == Cut(a, b, 0) && SourceCut(a, b, 1) == Cut(a, b, 1)
  {
  }

  lemma Cuts23(a: Octet, b: Octet)
    ensures SourceCut(a, b, 2) == Cut(a, b, 2) && SourceCut(a, b, 3) == Cut(a, b, 3)
  {
  }

  lemma Cuts4(a: Octet, b: Octet)
    ensures SourceCut(a, b, 4) == Cut(a, b, 4)
  {
  }

  lemma Cuts5(a: Octet, b: Octet)
    ensures SourceCut(a, b, 5) == Cut(a, b, 5)
  {
  }

  lemma Cuts6(a: Octet, b: Octet)
    ensures SourceCut(a, b, 6) == Cut(a, b, 6)
  {
  }

  lemma Cuts7(a: Octet, b: Octet)
    ensures SourceCut(a, b, 7) == Cut(a, b, 7)
  {
  }

  /** What the source computes for a block is what the figure shows. */
  lemma SourceCutIs(a: Octet, b: Octet, block: nat)
    requires block < 8
    ensures SourceCut(a, b, block) == Cut(a, b, block)
  {
    hide SourceCut, Cut;
    Cuts01(a, b);
    Cuts23(a, b);
    Cuts4(a, b);
    Cuts5(a, b);
    Cuts6(a, b);
    Cuts7(a, b);
  }

  // ---------- decoding, block by block ----------

  lemma Pieces01(c: Octet)
    ensures ShiftLeft(c, GetOffset(0)) == Piece(c, 0, 0) && ShiftLeft(c, GetOffset(1)) == Piece(c, 1, 0)
    ensures ShiftLeft(c, 8 + GetOffset(1)) == Piece(c, 1, 1)
  {
  }

  lemma Pieces23(c: Octet)
    ensures ShiftLeft(c, GetOffset(2)) == Piece(c, 2, 1) && ShiftLeft(c, GetOffset(3)) == Piece(c, 3, 1)
    ensures ShiftLeft(c, 8 + GetOffset(3)) == Piece(c, 3, 2)
  {
  }

  lemma Pieces45(c: Octet)
    ensures ShiftLeft(c, GetOffset(4)) == Piece(c, 4, 2) && ShiftLeft(c, 8 + GetOffset(4)) == Piece(c, 4, 3)
    ensures ShiftLeft(c, GetOffset(5)) == Piece(c, 5, 3)
  {
  }

  lemma Pieces67(c: Octet)
    ensures ShiftLeft(c, GetOffset(6)) == Piece(c, 6, 3) && ShiftLeft(c, 8 + GetOffset(6)) == Piece(c, 6, 4)
    ensures ShiftLeft(c, GetOffset(7)) == Piece(c, 7, 4)
  {
  }

  /** What the source adds for a block is what the figure shows, in one octet or two. */
  lemma SourcePieces(c: Octet, block: nat)
    requires block < 8
    ensures GetOctet(block) < 5 && -8 < GetOffset(block) < 8
    ensures ShiftLeft(c, GetOffset(block)) == Piece(c, block, GetOctet(block))
    ensures GetOffset(block) < 0 ==>
              GetOctet(block) + 1 < 5 && ShiftLeft(c, 8 + GetOffset(block)) == Piece(c, block, GetOctet(block) + 1)
  {
    hide ShiftLeft, Piece;
    if block < 2 {
      Pieces01(c);
    } else if block < 4 {
      Pieces23(c);
    } else if block < 6 {
      Pieces45(c);
    } else {
      Pieces67(c);
    }
  }

  /** A block adds nothing elsewhere. */
  lemma NoPiece(c: Octet, block: nat, i: nat)
    requires block < 8 && i != GetOctet(block) && !(i == GetOctet(block) + 1 && GetOffset(block) < 0)
    ensures Piece(c, block, i) == 0
  {
  }

  /** Octets the blocks so far do not reach. */
  lemma {:induction false} Unreached(vs: seq<Octet>, i: nat)
    requires |vs| <= 8 && 8 * i >= 5 * |vs|
    ensures OctetOf(vs, i) == 0
  {
    if vs != [] {
      Unreached(vs[..|vs| - 1], i);
      NoPiece(vs[|vs| - 1], |vs| - 1, i);
    }
  }

  /** One more block. */
  lemma OctetMore(vs: seq<Octet>, c: Octet, i: nat)
    ensures OctetOf(vs + [c], i) == OctetOf(vs, i) | Piece(c, |vs|, i)
  {
    assert (vs + [c])[..|vs|] == vs;
  }

  // ---------- one group there and back ----------

  /** The blocks that hold bits of the group. */
  function BlockCount(n: nat): nat { (8 * n + 4) / 5 }

  function Blocks(g: seq<Octet>): seq<Octet> {
    seq(BlockCount(|g|), b requires 0 <= b < BlockCount(|g|) => BlockOf(g, b))
  }

  /** Piece b of octet i, nothing for blocks that are missing. */
  function PieceOf(vs: seq<Octet>, b: nat, i: nat): Octet {
    if b < |vs| then Piece(vs[b], b, i) else 0
  }

  function Pieces(vs: seq<Octet>, i: nat): Octet {
    PieceOf(vs, 0, i) | PieceOf(vs, 1, i) | PieceOf(vs, 2, i) | PieceOf(vs, 3, i)
    | PieceOf(vs, 4, i) | PieceOf(vs, 5, i) | PieceOf(vs, 6, i) | PieceOf(vs, 7, i)
  }

  lemma {:induction false} OctetIsPieces(vs: seq<Octet>, i: nat)
    requires |vs| <= 8
    ensures OctetOf(vs, i) == Pieces(vs, i)
  {
    if vs != [] {
      var n := |vs| - 1;
      OctetIsPieces(vs[..n], i);
      LastPiece(vs, i);
      hide Pieces, Piece;
    }
  }

  lemma LastPiece(vs: seq<Octet>, i: nat)
    requires 0 < |vs| <= 8
    ensures Pieces(vs, i) == Pieces(vs[..|vs| - 1], i) | Piece(vs[|vs| - 1], |vs| - 1, i)
  {
    hide Piece;
  }

  /** Only the blocks of the figure count for an octet. */
  lemma PiecesIs(vs: seq<Octet>, i: nat)
    requires i < 5
    ensures Pieces(vs, i) ==
            if i == 0 then PieceOf(vs, 0, 0) | PieceOf(vs, 1, 0)
            else if i == 1 then PieceOf(vs, 1, 1) | PieceOf(vs, 2, 1) | PieceOf(vs, 3, 1)
            else if i == 2 then PieceOf(vs, 3, 2) | PieceOf(vs, 4, 2)
            else if i == 3 then PieceOf(vs, 4, 3) | PieceOf(vs, 5, 3) | PieceOf(vs, 6, 3)
            else PieceOf(vs, 6, 4) | PieceOf(vs, 7, 4)
  {
    hide PieceOf;
    NoPieces(vs, i);
  }

  lemma NoPieces(vs: seq<Octet>, i: nat)
    requires i < 5
    ensures i != 0 ==> PieceOf(vs, 0, i) == 0
    ensures i != 0 && i != 1 ==> PieceOf(vs, 1, i) == 0
    ensures i != 1 ==> PieceOf(vs, 2, i) == 0
    ensures i != 1 && i != 2 ==> PieceOf(vs, 3, i) == 0
    ensures i != 2 && i != 3 ==> PieceOf(vs, 4, i) == 0
    ensures i != 3 ==> PieceOf(vs, 5, i) == 0
    ensures i != 3 && i != 4 ==> PieceOf(vs, 6, i) == 0
    ensures i != 4 ==> PieceOf(vs, 7, i) == 0
  {
  }

  // The bits of each octet, cut and put together again.

  lemma Join0(a: Octet, b: Octet, x: Octet)
    ensures Piece(Cut(a, x, 0), 0, 0) | Piece(Cut(a, b, 1), 1, 0) == a
  {
  }

  lemma Join1(a: Octet, b: Octet, c: Octet, x: Octet)
    ensures Piece(Cut(a, b, 1), 1, 1) | Piece(Cut(b, x, 2), 2, 1) | Piece(Cut(b, c, 3), 3, 1) == b
  {
  }

  lemma Join2(b: Octet, c: Octet, d: Octet)
    ensures Piece(Cut(b, c, 3), 3, 2) | Piece(Cut(c, d, 4), 4, 2) == c
  {
  }

  lemma Join3(c: Octet, d: Octet, e: Octet, x: Octet)
    ensures Piece(Cut(c, d, 4), 4, 3) | Piece(Cut(d, x, 5), 5, 3) | Piece(Cut(d, e, 6), 6, 3) == d
  {
  }

  lemma Join4(d: Octet, e: Octet, x: Octet)
    ensures Piece(Cut(d, e, 6), 6, 4) | Piece(Cut(e, x, 7), 7, 4) == e
  {
  }

  lemma BlockPiece(g: seq<Octet>, b: nat, i: nat)
    requires b < BlockCount(|g|)
    ensures PieceOf(Blocks(g), b, i) == Piece(Cut(OctetAt(g, GetOctet(b)), OctetAt(g, GetOctet(b) + 1), b), b, i)
  {
    hide Piece, Cut;
  }

  /** Every octet of a group comes back from its blocks. */
  lemma GroupRoundTrip(g: seq<Octet>, i: nat)
    requires i < |g| <= 5
    ensures OctetOf(Blocks(g), i) == g[i]
  {
    hide Piece, PieceOf, Pieces, Cut, OctetOf, Blocks;
    assert |Blocks(g)| == BlockCount(|g|) by { CountBlocks(g); }
    OctetIsPieces(Blocks(g), i);
    PiecesIs(Blocks(g), i);
    if i == 0 {
      BlockPiece(g, 0, 0);
      BlockPiece(g, 1, 0);
      Join0(g[0], OctetAt(g, 1), OctetAt(g, 1));
    } else if i == 1 {
      BlockPiece(g, 1, 1);
      BlockPiece(g, 2, 1);
      BlockPiece(g, 3, 1);
      Join1(g[0], g[1], OctetAt(g, 2), OctetAt(g, 2));
    } else if i == 2 {
      BlockPiece(g, 3, 2);
      BlockPiece(g, 4, 2);
      Join2(g[1], g[2], OctetAt(g, 3));
    } else if i == 3 {
      BlockPiece(g, 4, 3);
      BlockPiece(g, 5, 3);
      BlockPiece(g, 6, 3);
      Join3(g[2], g[3], OctetAt(g, 4), OctetAt(g, 4));
    } else {
      BlockPiece(g, 6, 4);
      BlockPiece(g, 7, 4);
      Join4(g[3], g[4], OctetAt(g, 5));
    }
  }

  lemma CountBlocks(g: seq<Octet>)
    ensures |Blocks(g)| == BlockCount(|g|)
  {
  }

  // ---------- encoding ----------

  /** Eight characters for a group, padded. */
  function EncodeGroup(g: seq<Octet>): seq<Octet> {
    seq(8, b requires 0 <= b < 8 => if GetOctet(b) < |g| then EncodeChar(BlockOf(g, b)) else PADDING)
  }

  function Encode(x: seq<Octet>): seq<Octet> {
    if x == [] then [] else EncodeGroup(x[..Min(5, |x|)]) + Encode(x[Min(5, |x|)..])
  }

  lemma {:induction false} EncodeLength(x: seq<Octet>)
    ensures |Encode(x)| == 8 * ((|x| + 4) / 5)
  {
    if x != [] {
      EncodeLength(x[Min(5, |x|)..]);
    }
  }

  /** The k-th character of an encoding, by the RFC: of the table, for five bits of its group, or padding. */
  function RfcChar(x: seq<Octet>, k: nat): char
    requires k / 8 * 5 < |x|
  {
    RfcGroup(x[k / 8 * 5..Min(k / 8 * 5 + 5, |x|)], k % 8)
  }

  function RfcGroup(g: seq<Octet>, b: nat): char {
    if 8 * |g| <= 5 * b then '=' else
      FiveIsSmall(Bits(g), b);
      ALPHABET[Five(Bits(g), b) as int]
  }

  lemma FiveIsSmall(n: bv40, b: nat)
    ensures Five(n, b) & 0x1F == Five(n, b) && (Five(n, b) as int) < |ALPHABET|
  {
    AlphabetIs(Five(n, b));
  }

  /** Section 6 of RFC 4648, character by character. */
  lemma {:induction false} EncodeIsRfc(x: seq<Octet>, k: nat)
    requires k < |Encode(x)|
    ensures k / 8 * 5 < |x| && Encode(x)[k] as int == RfcChar(x, k) as int
    decreases |x|
  {
    hide RfcGroup, EncodeGroup;
    var n := Min(5, |x|);
    EightCharacters(x[..n]);
    if k < 8 {
      assert x[0..n] == x[..n];
      GroupIsRfc(x[..n], k);
    } else {
      assert n == 5;
      EncodeIsRfc(x[n..], k - 8);
      var q := (k - 8) / 8;
      assert k / 8 == q + 1 && k % 8 == (k - 8) % 8;
      assert x[n..][q * 5..Min(q * 5 + 5, |x| - n)] == x[(q + 1) * 5..Min((q + 1) * 5 + 5, |x|)];
    }
  }

  lemma GroupIsRfc(g: seq<Octet>, b: nat)
    requires |g| <= 5 && b < 8
    ensures |EncodeGroup(g)| == 8 && EncodeGroup(g)[b] as int == RfcGroup(g, b) as int
  {
    hide Five, Bits, BlockOf, EncodeChar;
    BlocksAreBits(g, b);
    AlphabetIs(BlockOf(g, b));
    FiveIsSmall(Bits(g), b);
  }

  lemma OnlyFiveBits(c: Octet)
    ensures EncodeChar(0x1F & c) == EncodeChar(c)
  {
  }

  lemma ShiftedZero(k: int)
    requires -8 < k < 8
    ensures ShiftRight(0, k) == 0
  {
  }

  /** The character the source writes for a block. */
  lemma SourceChar(g: seq<Octet>, block: nat)
    requires |g| <= 5 && block < 8 && GetOctet(block) < |g|
    ensures var o, junk := GetOctet(block), GetOffset(block);
      var first := ShiftRight(g[o], junk);
      EncodeChar(if junk < 0 && o < |g| - 1 then first | ShiftRight(g[o + 1], 8 + junk) else first) ==
      EncodeChar(BlockOf(g, block))
  {
    hide ShiftRight, Cut, EncodeChar;
    var o, junk := GetOctet(block), GetOffset(block);
    var a, b := g[o], OctetAt(g, o + 1);
    SourceCutIs(a, b, block);
    if junk < 0 {
      ShiftedZero(8 + junk);
      OnlyFiveBits(ShiftRight(a, junk) | ShiftRight(b, 8 + junk));
      assert ShiftRight(a, junk) | 0 == ShiftRight(a, junk);
    } else {
      OnlyFiveBits(ShiftRight(a, junk));
    }
  }

  /** `pad`. */
  method Pad(buf: array<Octet>, at: nat, len: nat)
    requires at + len <= buf.Length
    modifies buf
    ensures forall k :: 0 <= k < buf.Length ==> buf[k] == if at <= k < at + len then PADDING else old(buf[k])
  {
    for i := 0 to len
      invariant forall k :: 0 <= k < buf.Length ==> buf[k] == if at <= k < at + i then PADDING else old(buf[k])
    {
      buf[at + i] := PADDING;
    }
  }

  /** `encode_sequence`: one group, and nothing else. */
  method EncodeSequence(plain: seq<Octet>, coded: array<Octet>, j: nat)
    requires |plain| <= 5 && j + 8 <= coded.Length
    modifies coded
    ensures coded[j..j + 8] == EncodeGroup(plain)
    ensures forall k :: 0 <= k < coded.Length && !(j <= k < j + 8) ==> coded[k] == old(coded[k])
  {
    hide ShiftRight, BlockOf, EncodeChar;
    var len := |plain|;
    for block := 0 to 8
      invariant forall b :: 0 <= b < block ==> GetOctet(b) < len && coded[j + b] == EncodeChar(BlockOf(plain, b))
      invariant forall k :: 0 <= k < coded.Length && !(j <= k < j + 8) ==> coded[k] == old(coded[k])
    {
      var octet, junk := GetOctet(block), GetOffset(block);
      if octet >= len {
        Pad(coded, j + block, 8 - block);
        return;
      }
      SourceChar(plain, block);
      var c := ShiftRight(plain[octet], junk);
      if junk < 0 && octet < len - 1 {
        c := c | ShiftRight(plain[octet + 1], 8 + junk);
      }
      coded[j + block] := EncodeChar(c);
    }
  }

  /** `base32_encode`. */
  method Base32Encode(coded: array<Octet>, src: seq<Octet>)
    requires |Encode(src)| <= coded.Length
    modifies coded
    ensures coded[..|Encode(src)|] == Encode(src)
    ensures coded[|Encode(src)|..] == old(coded[|Encode(src)|..])
  {
    hide EncodeGroup, Encode;
    var i: nat, j: nat := 0, 0;
    assert src[0..] == src;
    while i < |src|
      invariant i <= |src| && j + |Encode(src[i..])| == |Encode(src)|
      invariant coded[..j] + Encode(src[i..]) == Encode(src)
      invariant coded[|Encode(src)|..] == old(coded[|Encode(src)|..])
      decreases |src| - i
    {
      var n := Min(|src| - i, 5);
      EncodeStep(src, i, n);
      ghost var before := coded[..j];
      EncodeSequence(src[i..i + n], coded, j);
      assert coded[..j + 8] == before + EncodeGroup(src[i..i + n]);
      i, j := i + n, j + 8;
    }
    NothingLeft(src);
  }

  lemma EncodeStep(src: seq<Octet>, i: nat, n: nat)
    requires i < |src| && n == Min(|src| - i, 5)
    ensures Encode(src[i..]) == EncodeGroup(src[i..i + n]) + Encode(src[i + n..]) && |EncodeGroup(src[i..i + n])| == 8
  {
    var rest := src[i..];
    assert rest[..n] == src[i..i + n] && rest[n..] == src[i + n..];
  }

  lemma NothingLeft(src: seq<Octet>)
    ensures Encode(src[|src|..]) == []
  {
  }

  // ---------- decoding ----------

  /** How many of the first eight characters are of the alphabet. */
  function Leading(coded: seq<Octet>, limit: nat): (k: nat)
    ensures k <= limit && k <= |coded| && (forall b :: 0 <= b < k ==> InAlphabet(coded[b]))
    ensures k < limit && k < |coded| ==> !InAlphabet(coded[k])
  {
    if limit == 0 || coded == [] || !InAlphabet(coded[0]) then 0 else 1 + Leading(coded[1..], limit - 1)
  }

  function Values(coded: seq<Octet>, k: nat): seq<Octet>
    requires k <= |coded| && forall b :: 0 <= b < k ==> InAlphabet(coded[b])
  {
    seq(k, b requires 0 <= b < k => DecodeChar(coded[b]))
  }

  /** Whole octets in k blocks. */
  function OctetCount(k: nat): nat { 5 * k / 8 }

  /** The group of up to eight characters at the start of coded, decoded. */
  function DecodeGroup(coded: seq<Octet>): seq<Octet> {
    var k := Leading(coded, 8);
    seq(OctetCount(k), i requires 0 <= i < OctetCount(k) => OctetOf(Values(coded, k), i))
  }

  /** Octets reached by the first `block` blocks hold what these make; the rest is as it was. */
  ghost predicate Decoded(plain: seq<Octet>, before: seq<Octet>, j: nat, vs: seq<Octet>) {
    && |plain| == |before| && |vs| <= 8
    && (forall i :: 0 <= i < 5 && (i == 0 || 8 * i < 5 * |vs|) ==> j + i < |plain| && plain[j + i] == OctetOf(vs, i))
    && (forall p :: 0 <= p < |plain| && (p < j || p > j + OctetCount(|vs|) || p >= j + 5) ==> plain[p] == before[p])
  }

  lemma DecodedMore(plain: seq<Octet>, before: seq<Octet>, j: nat, vs: seq<Octet>, c: Octet, plain': seq<Octet>)
    requires Decoded(plain, before, j, vs) && |vs| < 8 && |plain'| == |plain|
    requires var o, off := GetOctet(|vs|), GetOffset(|vs|);
      && j + o + (if off < 0 then 1 else 0) < |plain|
      && plain'[j + o] == plain[j + o] | Piece(c, |vs|, o)
      && (off < 0 ==> plain'[j + o + 1] == Piece(c, |vs|, o + 1))
      && forall p :: 0 <= p < |plain| && p != j + o && !(off < 0 && p == j + o + 1) ==> plain'[p] == plain[p]
    ensures Decoded(plain', before, j, vs + [c])
  {
    hide Piece, OctetOf;
    var o, off, vs' := GetOctet(|vs|), GetOffset(|vs|), vs + [c];
    forall i | 0 <= i < 5 && (i == 0 || 8 * i < 5 * |vs'|)
      ensures j + i < |plain'| && plain'[j + i] == OctetOf(vs', i)
    {
      OctetMore(vs, c, i);
      if i == o + 1 && off < 0 {
        Unreached(vs, i);
      } else if i != o {
        NoPiece(c, |vs|, i);
      }
    }
  }

  /** `decode_sequence`: the octets of one group; the octet behind them may be touched, no other. */
  method DecodeSequence(coded: seq<Octet>, at: nat, plain: array<Octet>, j: nat) returns (n: nat)
    requires at <= |coded|
    requires var k := Leading(coded[at..], 8);
      (k == 8 || k < |coded[at..]|) && j + OctetCount(k) + (if k == 8 then 0 else 1) <= plain.Length
    modifies plain
    ensures n == |DecodeGroup(coded[at..])| && j + n <= plain.Length && plain[j..j + n] == DecodeGroup(coded[at..])
    ensures forall p :: 0 <= p < plain.Length && (p < j || p > j + n || p >= j + 5) ==> plain[p] == old(plain[p])
  {
    hide DecodeChar, InAlphabet, Decoded, DecodeGroup, Values;
    ghost var c, k := coded[at..], Leading(coded[at..], 8);
    plain[j] := 0;
    Cleared(plain[..], old(plain[..]), j);
    NoValues(c);
    for block := 0 to 8
      invariant block <= k && Decoded(plain[..], old(plain[..]), j, Values(c, block))
    {
      assert c[block] == coded[at + block];
      if !InAlphabet(coded[at + block]) {
        Complete(plain[..], old(plain[..]), j, c);
        return GetOctet(block);
      }
      MoreValues(c, block);
      DecodeBlock(plain, j, DecodeChar(coded[at + block]), block, old(plain[..]), Values(c, block));
    }
    Complete(plain[..], old(plain[..]), j, c);
    n := 5;
  }

  /** One turn of the loop of `decode_sequence`. */
  method DecodeBlock(plain: array<Octet>, j: nat, v: Octet, block: nat, ghost before: seq<Octet>, ghost vs: seq<Octet>)
    requires block == |vs| < 8 && Decoded(plain[..], before, j, vs)
    requires j + GetOctet(block) + (if GetOffset(block) < 0 then 1 else 0) < plain.Length
    modifies plain
    ensures Decoded(plain[..], before, j, vs + [v])
  {
    hide ShiftLeft, Piece, Decoded;
    var octet, offset := GetOctet(block), GetOffset(block);
    SourcePieces(v, block);
    ghost var was := plain[..];
    plain[j + octet] := plain[j + octet] | ShiftLeft(v, offset);
    if offset < 0 {
      plain[j + octet + 1] := ShiftLeft(v, 8 + offset);
    }
    DecodedMore(was, before, j, vs, v, plain[..]);
  }

  lemma NoValues(c: seq<Octet>)
    ensures Values(c, 0) == []
  {
  }

  lemma MoreValues(c: seq<Octet>, k: nat)
    requires k < |c| && forall b :: 0 <= b <= k ==> InAlphabet(c[b])
    ensures |Values(c, k)| == k && Values(c, k) + [DecodeChar(c[k])] == Values(c, k + 1)
  {
  }

  lemma Cleared(plain: seq<Octet>, before: seq<Octet>, j: nat)
    requires j < |plain| == |before| && plain == before[j := 0]
    ensures Decoded(plain, before, j, [])
  {
  }

  lemma Complete(plain: seq<Octet>, before: seq<Octet>, j: nat, c: seq<Octet>)
    requires var k := Leading(c, 8); Decoded(plain, before, j, Values(c, k)) && j + OctetCount(k) <= |plain|
    ensures plain[j..j + |DecodeGroup(c)|] == DecodeGroup(c) && |DecodeGroup(c)| == OctetCount(Leading(c, 8))
    ensures forall p :: 0 <= p < |plain| && (p < j || p > j + |DecodeGroup(c)| || p >= j + 5) ==> plain[p] == before[p]
  {
    hide OctetOf, InAlphabet;
    var k := Leading(c, 8);
    forall i | 0 <= i < OctetCount(k) ensures plain[j + i] == OctetOf(Values(c, k), i) {
      assert 8 * i < 5 * k;
    }
  }

  /** Groups until one is short. */
  function Decode(coded: seq<Octet>): seq<Octet> {
    var g := DecodeGroup(coded);
    if Leading(coded, 8) < 8 then g else g + Decode(coded[8..])
  }

  /** Some character is not of the alphabet. */
  ghost predicate Terminated(coded: seq<Octet>) {
    exists i :: 0 <= i < |coded| && !InAlphabet(coded[i])
  }

  lemma GroupEnds(coded: seq<Octet>)
    requires Terminated(coded)
    ensures var k := Leading(coded, 8); |DecodeGroup(coded)| == OctetCount(k) && (k == 8 || k < |coded|)
    ensures Leading(coded, 8) == 8 ==> Terminated(coded[8..]) && |DecodeGroup(coded)| == 5
  {
    var i :| 0 <= i < |coded| && !InAlphabet(coded[i]);
    if Leading(coded, 8) == 8 {
      assert coded[8..][i - 8] == coded[i];
    }
  }

  /** `base32_decode`: the decoded octets; the one behind them may be touched, no other. */
  method Base32Decode(plain: array<Octet>, coded: seq<Octet>) returns (written: nat)
    requires Terminated(coded) && |Decode(coded)| < plain.Length
    modifies plain
    ensures written == |Decode(coded)| && plain[..written] == Decode(coded)
    ensures forall p :: written < p < plain.Length ==> plain[p] == old(plain[p])
  {
    hide Leading, DecodeGroup, Terminated, Decode;
    written := 0;
    var i: nat := 0;
    assert coded[0..] == coded;
    while true
      invariant i <= |coded| && Terminated(coded[i..]) && written + |Decode(coded[i..])| == |Decode(coded)|
      invariant written <= plain.Length && plain[..written] + Decode(coded[i..]) == Decode(coded)
      invariant forall p :: |Decode(coded)| < p < plain.Length ==> plain[p] == old(plain[p])
      decreases |coded| - i
    {
      GroupEnds(coded[i..]);
      DecodeStep(coded[i..]);
      ghost var done, g, k := plain[..written], DecodeGroup(coded[i..]), Leading(coded[i..], 8);
      assert k == 8 ==> coded[i..][8..] == coded[i + 8..];
      var n := DecodeSequence(coded, i, plain, written);
      assert plain[..written + n] == done + g;
      written := written + n;
      if n < 5 {
        return;
      }
      FullGroup(coded[i..]);
      i := i + 8;
    }
  }

  lemma DecodeStep(coded: seq<Octet>)
    ensures Leading(coded, 8) < 8 ==> Decode(coded) == DecodeGroup(coded)
    ensures Leading(coded, 8) == 8 ==> |coded| >= 8 && Decode(coded) == DecodeGroup(coded) + Decode(coded[8..])
  {
    hide DecodeGroup;
  }

  lemma FullGroup(coded: seq<Octet>)
    requires |DecodeGroup(coded)| >= 5
    ensures Leading(coded, 8) == 8 && |coded| >= 8
  {
  }

  // ---------- the round trip ----------

  lemma GroupDecodes(g: seq<Octet>, tail: seq<Octet>)
    requires 0 < |g| <= 5
    ensures Leading(EncodeGroup(g) + tail, 8) == BlockCount(|g|)
    ensures DecodeGroup(EncodeGroup(g) + tail) == g
  {
    hide Cut, OctetOf;
    var coded, k := EncodeGroup(g) + tail, BlockCount(|g|);
    assert forall b :: 0 <= b < 8 ==> coded[b] == EncodeGroup(g)[b];
    forall b | 0 <= b < k ensures InAlphabet(coded[b]) && DecodeChar(coded[b]) == BlockOf(g, b) {
      CharRoundTrip(BlockOf(g, b));
      FiveBits(g, b);
    }
    LeadingIs(coded, 8, k);
    assert Values(coded, k) == Blocks(g);
    forall i | 0 <= i < |g| ensures OctetOf(Blocks(g), i) == g[i] {
      GroupRoundTrip(g, i);
    }
  }

  lemma FiveBits(g: seq<Octet>, b: nat)
    ensures BlockOf(g, b) & 0x1F == BlockOf(g, b)
  {
  }

  lemma {:induction false} LeadingIs(coded: seq<Octet>, limit: nat, k: nat)
    requires k <= limit && k <= |coded| && (forall b :: 0 <= b < k ==> InAlphabet(coded[b]))
    requires k < limit ==> k < |coded| && !InAlphabet(coded[k])
    ensures Leading(coded, limit) == k
  {
    hide InAlphabet;
    if k > 0 {
      LeadingIs(coded[1..], limit - 1, k - 1);
    }
  }

  /**
   Section 6 of RFC 4648: the encoding of any octets, followed by any character outside the alphabet, decodes to
   them.
   */
  lemma {:induction false} RoundTrip(x: seq<Octet>, t: Octet, rest: seq<Octet>)
    requires !InAlphabet(t)
    ensures Decode(Encode(x) + ([t] + rest)) == x
  {
    hide EncodeGroup, DecodeGroup, InAlphabet, Leading;
    var coded := Encode(x) + ([t] + rest);
    if x == [] {
      assert coded[0] == t;
      LeadingIs(coded, 8, 0);
      ShortGroup(coded);
    } else {
      var n := Min(5, |x|);
      var g, tail := x[..n], Encode(x[n..]) + ([t] + rest);
      assert coded == EncodeGroup(g) + tail;
      EightCharacters(g);
      GroupDecodes(g, tail);
      RoundTrip(x[n..], t, rest);
      if n == 5 {
        assert coded[8..] == tail;
      } else {
        assert g == x;
      }
    }
  }

  lemma ShortGroup(coded: seq<Octet>)
    requires Leading(coded, 8) == 0
    ensures DecodeGroup(coded) == []
  {
  }

  lemma EightCharacters(g: seq<Octet>)
    ensures |EncodeGroup(g)| == 8
  {
  }
}
