/**
 One BC7 block (src/backend/bcn.c:220-343; chapter 20, BPTC, of the Khronos
 Data Format Specification 1.3). The decoder reads a block through a cursor; here
 it is proved against the position every field has in its mode's layout.
 */
module Bc7Block {
  import opened Bc7Tables
  import opened Octets

  /** Bits past the end of the source read as zero. */
  function Bit(b: seq<Byte>, i: nat): nat {
    if i / 8 < |b| then (b[i / 8] as int / Pow2(i % 8)) % 2 else 0
  }

  function Pow2(n: nat): (p: nat)
    ensures p > 0
  {
    if n == 0 then 1 else 2 * Pow2(n - 1)
  }

  /** The n bits from a position on, the first one lowest. */
  function Field(b: seq<Byte>, start: nat, n: nat): (v: nat)
    ensures v < Pow2(n)
  {
    if n == 0 then 0 else Field(b, start, n - 1) + Bit(b, start + n - 1) * Pow2(n - 1)
  }

  /** kind: 0 without parity bits, 1 with one for each subset, 2 with one for each endpoint. */
  datatype Mode = Mode(subsets: nat, partitionBits: nat, rotationBits: nat, selectBits: nat, colourBits: nat,
                       alphaBits: nat, kind: nat, indexBits: nat, secondBits: nat)
  {
    function Endpoints(): nat {
      2 * subsets
    }

    function Parities(): nat {
      if kind == 1 then subsets else if kind == 2 then 2 * subsets else 0
    }
  }

  function ModeOf(n: nat): (m: Mode)
    ensures 1 <= m.subsets <= 3 && 2 <= m.indexBits <= 4 && m.kind <= 2
    ensures m.secondBits > 0 ==> m.subsets == 1 && m.indexBits == 2
    ensures m.partitionBits > 0 <==> m.subsets > 1
  {
    match n
    case 0 => Mode(3, 4, 0, 0, 4, 0, 2, 3, 0)
    case 1 => Mode(2, 6, 0, 0, 6, 0, 1, 3, 0)
    case 2 => Mode(3, 6, 0, 0, 5, 0, 0, 2, 0)
    case 3 => Mode(2, 6, 0, 0, 7, 0, 2, 2, 0)
    case 4 => Mode(1, 0, 2, 1, 5, 6, 0, 2, 3)
    case 5 => Mode(1, 0, 2, 0, 7, 8, 0, 2, 2)
    case 6 => Mode(1, 0, 0, 0, 7, 7, 2, 4, 0)
    case _ => Mode(2, 6, 0, 0, 5, 5, 2, 2, 0)
  }

  // ---- where the fields are ----

  function ColourAt(n: nat): nat {
    var m := ModeOf(n);
    n + 1 + m.partitionBits + m.rotationBits + m.selectBits
  }

  function AlphaAt(n: nat): nat {
    ColourAt(n) + 3 * ModeOf(n).Endpoints() * ModeOf(n).colourBits
  }

  function ParityAt(n: nat): nat {
    AlphaAt(n) + ModeOf(n).Endpoints() * ModeOf(n).alphaBits
  }

  function IndexAt(n: nat): nat {
    ParityAt(n) + ModeOf(n).Parities()
  }

  function SecondAt(n: nat): int {
    IndexAt(n) + 16 * ModeOf(n).indexBits - ModeOf(n).subsets
  }

  function EndOf(n: nat): int {
    SecondAt(n) + if ModeOf(n).secondBits > 0 then 16 * ModeOf(n).secondBits - 1 else 0
  }

  /** Every mode accounts for each of the 128 bits. */
  lemma EveryBitCounts(n: nat)
    requires n < 8
    ensures EndOf(n) == 128 && SecondAt(n) <= 128
  {
  }

  // ---- subsets and anchors ----

  function Subset(m: Mode, part: nat, k: nat): nat
    requires k < 16
  {
    if m.subsets == 2 then (if Two(part).row[k] == '1' then 1 else 0)
    else if m.subsets == 3 then (if Three(part).row[k] == '2' then 2 else if Three(part).row[k] == '1' then 1 else 0)
    else 0
  }

  function Anchor(m: Mode, part: nat, sub: nat): nat {
    if sub == 0 then 0
    else if m.subsets == 2 then Two(part).second
    else if sub == 1 then Three(part).second else Three(part).third
  }

  predicate IsAnchor(m: Mode, part: nat, k: nat)
    requires k < 16
  {
    k == Anchor(m, part, Subset(m, part, k))
  }

  function AnchorsBefore(m: Mode, part: nat, k: nat): (n: nat)
    requires k <= 16
    ensures n <= k
  {
    if k == 0 then 0 else AnchorsBefore(m, part, k - 1) + if IsAnchor(m, part, k - 1) then 1 else 0
  }

  /** A pixel is an anchor exactly when it is one of its partition's, because every anchor lies in its own subset. */
  lemma AnchorIff(m: Mode, part: nat, k: nat)
    requires 1 <= m.subsets <= 3 && k < 16
    ensures IsAnchor(m, part, k) <==>
            k == 0 || (m.subsets > 1 && k == Anchor(m, part, 1)) || (m.subsets > 2 && k == Anchor(m, part, 2))
    ensures m.subsets > 1 ==> 0 < Anchor(m, part, 1) < 16
    ensures m.subsets > 2 ==> 0 < Anchor(m, part, 2) < 16 && Anchor(m, part, 1) != Anchor(m, part, 2)
  {
    hide Two, Three;
    assert TwoAnchored(Two(part)) && ThreeAnchored(Three(part));
  }

  lemma {:induction false} AnchorsPassed(m: Mode, part: nat, k: nat)
    requires 1 <= m.subsets <= 3 && k <= 16
    ensures AnchorsBefore(m, part, k) ==
            (if k > 0 then 1 else 0) + (if m.subsets > 1 && k > Anchor(m, part, 1) then 1 else 0)
            + (if m.subsets > 2 && k > Anchor(m, part, 2) then 1 else 0)
  {
    hide IsAnchor, Anchor;
    if k > 0 {
      AnchorIff(m, part, k - 1);
      AnchorsPassed(m, part, k - 1);
    }
  }

  /** Each subset has one anchor. */
  lemma AllAnchors(m: Mode, part: nat)
    requires 1 <= m.subsets <= 3
    ensures AnchorsBefore(m, part, 16) == m.subsets
  {
    hide IsAnchor, Anchor;
    AnchorIff(m, part, 0);
    AnchorsPassed(m, part, 16);
  }

  // ---- the values ----

  function PartitionOf(b: seq<Byte>, n: nat): nat {
    Field(b, n + 1, ModeOf(n).partitionBits)
  }

  function RotationOf(b: seq<Byte>, n: nat): nat {
    Field(b, n + 1 + ModeOf(n).partitionBits, ModeOf(n).rotationBits)
  }

  function SelectOf(b: seq<Byte>, n: nat): nat {
    Field(b, n + 1 + ModeOf(n).partitionBits + ModeOf(n).rotationBits, ModeOf(n).selectBits)
  }

  /** Where channel c of endpoint e is; 3 is alpha. */
  function StoredAt(n: nat, c: nat, e: nat): nat {
    var m := ModeOf(n);
    if c < 3 then ColourAt(n) + (c * m.Endpoints() + e) * m.colourBits else AlphaAt(n) + e * m.alphaBits
  }

  function Width(n: nat, c: nat): nat {
    if c < 3 then ModeOf(n).colourBits else ModeOf(n).alphaBits
  }

  function Stored(b: seq<Byte>, n: nat, c: nat, e: nat): nat {
    Field(b, StoredAt(n, c, e), Width(n, c))
  }

  function Parity(b: seq<Byte>, n: nat, e: nat): nat {
    var m := ModeOf(n);
    if m.kind == 1 then Field(b, ParityAt(n) + e / 2, 1)
    else if m.kind == 2 then Field(b, ParityAt(n) + e, 1)
    else 0
  }

  /** Widens a value to eight bits by repeating its high bits below it. */
  function Unquantised(v: nat, bits: nat): nat {
    if bits >= 8 then v % 256 else v * Pow2(8 - bits) + v * Pow2(8 - bits) / Pow2(bits)
  }

  function Channel(b: seq<Byte>, n: nat, c: nat, e: nat): nat {
    if c == 3 && Width(n, 3) == 0 then 255
    else if ModeOf(n).kind > 0 then Unquantised(2 * Stored(b, n, c, e) + Parity(b, n, e), Width(n, c) + 1)
    else Unquantised(Stored(b, n, c, e), Width(n, c))
  }

  function IndexAtPixel(b: seq<Byte>, n: nat, k: nat): int
    requires k <= 16
  {
    IndexAt(n) + k * ModeOf(n).indexBits - AnchorsBefore(ModeOf(n), PartitionOf(b, n), k)
  }

  function IndexWidth(b: seq<Byte>, n: nat, k: nat): nat
    requires k < 16
  {
    ModeOf(n).indexBits - if IsAnchor(ModeOf(n), PartitionOf(b, n), k) then 1 else 0
  }

  function SecondAtPixel(n: nat, k: nat): int {
    SecondAt(n) + k * ModeOf(n).secondBits - if k > 0 then 1 else 0
  }

  /** The first of the low eight bits that is set is the mode; 8 is no mode. */
  function ModeFrom(b: seq<Byte>, i: nat): (n: nat)
    requires i <= 8
    ensures i <= n <= 8
    ensures forall j :: i <= j < n ==> Bit(b, j) == 0
    ensures n < 8 ==> Bit(b, n) == 1
    decreases 8 - i
  {
    if i == 8 then 8 else if Bit(b, i) == 1 then i else ModeFrom(b, i + 1)
  }

  function Weight(bits: nat, i: nat): (w: nat)
    ensures w <= 64
  {
    if bits == 2 then
      match i { case 0 => 0 case 1 => 21 case 2 => 43 case _ => 64 }
    else if bits == 3 then
      match i { case 0 => 0 case 1 => 9 case 2 => 18 case 3 => 27 case 4 => 37 case 5 => 46 case 6 => 55 case _ => 64 }
    else
      match i {
        case 0 => 0 case 1 => 4 case 2 => 9 case 3 => 13 case 4 => 17 case 5 => 21 case 6 => 26 case 7 => 30
        case 8 => 34 case 9 => 38 case 10 => 43 case 11 => 47 case 12 => 51 case 13 => 55 case 14 => 60 case _ => 64
      }
  }

  /** The weights run from one endpoint to the other the same way in both directions. */
  lemma WeightsMirror(bits: nat, i: nat)
    requires 2 <= bits <= 4 && i < Pow2(bits)
    ensures Pow2(2) == 4 && Pow2(3) == 8 && Pow2(4) == 16
    ensures Weight(bits, Pow2(bits) - 1 - i) == 64 - Weight(bits, i)
    ensures i + 1 < Pow2(bits) ==> Weight(bits, i) < Weight(bits, i + 1)
  {
  }

  function Interpolated(a: nat, b: nat, w: nat): int {
    (a * (64 - w) + b * w + 32) / 64
  }

  /** A blend stays between its endpoints, reaches both of them, and so never needs clamping. */
  lemma BlendStaysBetween(a: nat, b: nat, w: nat)
    requires w <= 64
    ensures (if a < b then a else b) <= Interpolated(a, b, w) <= if a < b then b else a
    ensures Interpolated(a, b, 0) == a && Interpolated(a, b, 64) == b
  {
    var lo, hi := if a < b then a else b, if a < b then b else a;
    Scaled(lo, a, 64 - w);
    Scaled(lo, b, w);
    Scaled(a, hi, 64 - w);
    Scaled(b, hi, w);
    assert 64 * lo <= a * (64 - w) + b * w <= 64 * hi;
  }

  lemma Scaled(x: nat, y: nat, w: nat)
    requires x <= y
    ensures x * w <= y * w
  {
  }

  /** Widening keeps eight bits, black and full value. */
  lemma UnquantisedFits(v: nat, bits: nat)
    requires 5 <= bits <= 8 && v < Pow2(bits)
    ensures Unquantised(v, bits) < 256
    ensures v == 0 ==> Unquantised(v, bits) == 0
    ensures v == Pow2(bits) - 1 ==> Unquantised(v, bits) == 255
  {
    assert Pow2(0) == 1 && Pow2(1) == 2 && Pow2(2) == 4 && Pow2(3) == 8;
    assert Pow2(4) == 16 && Pow2(5) == 32 && Pow2(6) == 64 && Pow2(7) == 128 && Pow2(8) == 256;
    if bits == 5 {
      assert v * 8 / 32 == v / 4;
    } else if bits == 6 {
      assert v * 4 / 64 == v / 16;
    } else if bits == 7 {
      assert v * 2 / 128 == v / 64;
    }
  }

  datatype Rgba = Rgba(r: int, g: int, b: int, a: int)

  /** The rotation exchanges alpha with one colour channel. */
  function Rotated(p: Rgba, rotation: nat): Rgba {
    if rotation == 1 then Rgba(p.a, p.g, p.b, p.r)
    else if rotation == 2 then Rgba(p.r, p.a, p.b, p.g)
    else if rotation == 3 then Rgba(p.r, p.g, p.a, p.b)
    else p
  }

  function FirstIndex(b: seq<Byte>, n: nat, k: nat): nat
    requires k < 16 && n < 8
  {
    IndexFits(b, n, k);
    Field(b, IndexAtPixel(b, n, k), IndexWidth(b, n, k))
  }

  function SecondIndex(b: seq<Byte>, n: nat, k: nat): nat
    requires k < 16 && n < 8
  {
    var bits := ModeOf(n).secondBits;
    if bits == 0 then 0
    else
      SecondFits(n, k);
      Field(b, SecondAtPixel(n, k), bits - if k == 0 then 1 else 0)
  }

  /** The first endpoint of pixel k's subset. */
  function EndpointOf(b: seq<Byte>, n: nat, k: nat): nat
    requires k < 16
  {
    2 * Subset(ModeOf(n), PartitionOf(b, n), k)
  }

  /** Whether the index sets of colour and alpha are exchanged. */
  predicate Swapped(b: seq<Byte>, n: nat) {
    ModeOf(n).secondBits > 0 && SelectOf(b, n) != 0
  }

  function FirstWeight(b: seq<Byte>, n: nat, k: nat): nat
    requires k < 16 && n < 8
  {
    Weight(ModeOf(n).indexBits, FirstIndex(b, n, k))
  }

  function SecondWeight(b: seq<Byte>, n: nat, k: nat): nat
    requires k < 16 && n < 8
  {
    Weight(ModeOf(n).secondBits, SecondIndex(b, n, k))
  }

  function Blended(b: seq<Byte>, n: nat, k: nat, c: nat): int
    requires k < 16 && n < 8
  {
    var first := if c < 3 then !Swapped(b, n) else ModeOf(n).secondBits == 0 || Swapped(b, n);
    Interpolated(Channel(b, n, c, EndpointOf(b, n, k)), Channel(b, n, c, EndpointOf(b, n, k) + 1),
                 if first then FirstWeight(b, n, k) else SecondWeight(b, n, k))
  }

  /** The colour of pixel k, each field taken from its place in the block. */
  function Texel(b: seq<Byte>, k: nat): Rgba
    requires k < 16
  {
    var n := ModeFrom(b, 0);
    if n == 8 then Rgba(0, 0, 0, 0)
    else
      Rotated(Rgba(Blended(b, n, k, 0), Blended(b, n, k, 1), Blended(b, n, k, 2), Blended(b, n, k, 3)), RotationOf(b, n))
  }

  lemma {:induction false} AnchorsRemain(m: Mode, part: nat, k: nat)
    requires 1 <= m.subsets <= 3 && k <= 16
    ensures m.subsets - AnchorsBefore(m, part, k) <= 16 - k
    decreases 16 - k
  {
    hide IsAnchor;
    if k == 16 {
      AllAnchors(m, part);
    } else {
      AnchorsRemain(m, part, k + 1);
    }
  }

  lemma IndexFits(b: seq<Byte>, n: nat, k: nat)
    requires n < 8 && k < 16
    ensures 0 <= IndexAtPixel(b, n, k) && IndexAtPixel(b, n, k) + IndexWidth(b, n, k) == IndexAtPixel(b, n, k + 1)
    ensures IndexAtPixel(b, n, k + 1) <= SecondAt(n) <= 128
  {
    hide ModeOf, IsAnchor, IndexAt, PartitionOf;
    var m := ModeOf(n);
    AnchorsRemain(m, PartitionOf(b, n), k + 1);
    EveryBitCounts(n);
    assert k * m.indexBits >= k && (k + 1) * m.indexBits == k * m.indexBits + m.indexBits;
    assert (15 - k) * m.indexBits >= 15 - k;
  }

  lemma SecondFits(n: nat, k: nat)
    requires n < 8 && k < 16 && ModeOf(n).secondBits > 0
    ensures 0 <= SecondAtPixel(n, k)
    ensures SecondAtPixel(n, k) + ModeOf(n).secondBits - (if k == 0 then 1 else 0) == SecondAtPixel(n, k + 1) <= 128
  {
  }
}
