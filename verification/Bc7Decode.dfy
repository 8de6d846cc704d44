/** Decoding one BC7 block through a bit cursor (src/backend/bcn.c:231-343). */
module Bc7Decode {
  import opened Bc7Block
  import opened Bc7Tables
  import opened Octets

  class Cursor {
    const b: seq<Byte>
    var pos: nat

    constructor (b: seq<Byte>)
      ensures this.b == b && pos == 0
    {
      this.b, pos := b, 0;
    }

    /** The cursor returns the bits from its position, lowest first, and moves on by as many. */
    method Get(n: nat) returns (v: nat)
      modifies this
      ensures pos == old(pos) + n && v == Field(b, old(pos), n)
    {
      v := 0;
      var weight := 1;
      for i := 0 to n
        invariant pos == old(pos) && v == Field(b, pos, i) && weight == Pow2(i)
      {
        v := v + Bit(b, pos + i) * weight;
        weight := 2 * weight;
      }
      pos := pos + n;
    }
  }

  method FindMode(s: Cursor) returns (mode: nat)
    requires s.pos == 0
    modifies s
    ensures mode == ModeFrom(s.b, 0) && s.pos == if mode < 8 then mode + 1 else 8
  {
    mode := 8;
    for m: nat := 0 to 8
      invariant s.pos == m && mode == 8 && ModeFrom(s.b, 0) == ModeFrom(s.b, m)
    {
      var bit := s.Get(1);
      assert Field(s.b, m, 1) == Field(s.b, m, 0) + Bit(s.b, m) * Pow2(0);
      if bit == 1 {
        return m;
      }
    }
  }

  /** The endpoints read so far: all of the channels before c, and e of channel c. */
  ghost predicate ReadSoFar(ep: array2<nat>, b: seq<Byte>, n: nat, c: nat, e: nat)
    requires ep.Length0 == 6 && ep.Length1 == 4
    reads ep
  {
    forall i, j :: 0 <= i < 6 && 0 <= j < 4 && ((j < c && i < ModeOf(n).Endpoints()) || (j == c && i < e)) ==>
      ep[i, j] == Stored(b, n, j, i)
  }

  lemma NextStored(n: nat, c: nat, e: nat)
    requires n < 8 && c < 4
    ensures StoredAt(n, c, e) + Width(n, c) == StoredAt(n, c, e + 1)
    ensures c < 2 ==> StoredAt(n, c, ModeOf(n).Endpoints()) == StoredAt(n, c + 1, 0)
    ensures c == 2 ==> StoredAt(n, c, ModeOf(n).Endpoints()) == StoredAt(n, 3, 0)
    ensures c == 3 ==> StoredAt(n, c, ModeOf(n).Endpoints()) == ParityAt(n)
  {
  }

  /** Reads the quantised endpoints, one channel after the other; without alpha bits there is no alpha to read. */
  method ReadEndpoints(s: Cursor, n: nat) returns (ep: array2<nat>)
    requires n < 8 && s.pos == ColourAt(n)
    modifies s
    ensures fresh(ep) && ep.Length0 == 6 && ep.Length1 == 4
    ensures ReadSoFar(ep, s.b, n, 4, 0) && s.pos == ParityAt(n)
  {
    hide ModeOf, StoredAt, Stored, Field;
    ep := new nat[6, 4];
    StartsAtColour(n);
    for c: nat := 0 to 4
      invariant s.pos == if c < 4 then StoredAt(n, c, 0) else ParityAt(n)
      invariant ReadSoFar(ep, s.b, n, c, 0)
    {
      var endpoints := ModeOf(n).Endpoints();
      EndpointsFit(n);
      for e: nat := 0 to endpoints
        invariant s.pos == StoredAt(n, c, e) && ReadSoFar(ep, s.b, n, c, e)
      {
        NextStored(n, c, e);
        StoredIsField(s.b, n, c, e);
        ep[e, c] := s.Get(Width(n, c));
      }
      NextStored(n, c, 0);
    }
  }

  lemma StartsAtColour(n: nat)
    ensures StoredAt(n, 0, 0) == ColourAt(n)
  {
  }

  lemma EndpointsFit(n: nat)
    ensures 2 <= ModeOf(n).Endpoints() <= 6
  {
  }

  lemma StoredIsField(b: seq<Byte>, n: nat, c: nat, e: nat)
    ensures Stored(b, n, c, e) == Field(b, StoredAt(n, c, e), Width(n, c))
  {
  }

  /** Reads the parity bits: none, one for both endpoints of a subset, or one for each endpoint. */
  method ReadParities(s: Cursor, n: nat) returns (parity: seq<nat>)
    requires n < 8 && s.pos == ParityAt(n)
    modifies s
    ensures |parity| == 6 && s.pos == IndexAt(n)
    ensures forall e :: 0 <= e < ModeOf(n).Endpoints() ==> parity[e] == Parity(s.b, n, e)
  {
    hide Field;
    var m := ModeOf(n);
    EndpointsFit(n);
    parity := [0, 0, 0, 0, 0, 0];
    if m.kind == 1 {
      for i := 0 to m.subsets
        invariant s.pos == ParityAt(n) + i && |parity| == 6
        invariant forall e :: 0 <= e < 2 * i ==> parity[e] == Field(s.b, ParityAt(n) + e / 2, 1)
      {
        var p := s.Get(1);
        parity := parity[2 * i := p][2 * i + 1 := p];
      }
    } else if m.kind == 2 {
      for e := 0 to m.Endpoints()
        invariant s.pos == ParityAt(n) + e && |parity| == 6
        invariant forall i :: 0 <= i < e ==> parity[i] == Field(s.b, ParityAt(n) + i, 1)
      {
        var p := s.Get(1);
        parity := parity[e := p];
      }
    }
  }

  ghost predicate Expanded(col: array2<nat>, b: seq<Byte>, n: nat)
    requires col.Length0 == 6 && col.Length1 == 4
    reads col
  {
    forall i, j :: 0 <= i < 6 && 0 <= j < 4 && i < ModeOf(n).Endpoints() ==> col[i, j] == Channel(b, n, j, i)
  }

  /** Widens every channel of every endpoint; the parity bit becomes its lowest bit. */
  method Expand(ep: array2<nat>, parity: seq<nat>, n: nat, ghost b: seq<Byte>) returns (col: array2<nat>)
    requires n < 8 && ep.Length0 == 6 && ep.Length1 == 4 && |parity| == 6 && ReadSoFar(ep, b, n, 4, 0)
    requires forall e :: 0 <= e < ModeOf(n).Endpoints() ==> parity[e] == Parity(b, n, e)
    ensures fresh(col) && col.Length0 == 6 && col.Length1 == 4
    ensures Expanded(col, b, n)
  {
    hide ModeOf, Stored, Parity, Unquantised;
    var m := ModeOf(n);
    EndpointsFit(n);
    col := new nat[6, 4];
    for e: nat := 0 to m.Endpoints()
      invariant forall i, c :: 0 <= i < e && 0 <= c < 4 ==> col[i, c] == Channel(b, n, c, i)
    {
      for c: nat := 0 to 4
        invariant forall i, j :: 0 <= i < e && 0 <= j < 4 ==> col[i, j] == Channel(b, n, j, i)
        invariant forall j :: 0 <= j < c ==> col[e, j] == Channel(b, n, j, e)
      {
        col[e, c] :=
          if c == 3 && Width(n, 3) == 0 then 255
          else if m.kind > 0 then Unquantised(2 * ep[e, c] + parity[e], Width(n, c) + 1)
          else Unquantised(ep[e, c], Width(n, c));
      }
    }
  }

  /** Reads the index of every pixel, one bit less for an anchor, and then the second ones of the modes that have them. */
  method ReadIndices(s: Cursor, n: nat, part: nat) returns (first: seq<nat>, second: seq<nat>)
    requires n < 8 && s.pos == IndexAt(n) && part == PartitionOf(s.b, n)
    modifies s
    ensures |first| == |second| == 16 && s.pos == EndOf(n)
    ensures forall k :: 0 <= k < 16 ==> first[k] == FirstIndex(s.b, n, k) && second[k] == SecondIndex(s.b, n, k)
  {
    hide Field, IsAnchor;
    var m := ModeOf(n);
    first, second := [], [];
    for k: nat := 0 to 16
      invariant |first| == k && s.pos == IndexAtPixel(s.b, n, k)
      invariant forall j :: 0 <= j < k ==> first[j] == FirstIndex(s.b, n, j)
    {
      IndexFits(s.b, n, k);
      var v := s.Get(m.indexBits - if IsAnchor(m, part, k) then 1 else 0);
      first := first + [v];
    }
    AllAnchors(m, part);
    if m.secondBits == 0 {
      second := seq(16, i => 0);
    } else {
      for k: nat := 0 to 16
        invariant |second| == k && s.pos == SecondAtPixel(n, k)
        invariant forall j :: 0 <= j < k ==> second[j] == SecondIndex(s.b, n, j)
      {
        SecondFits(n, k);
        var v := s.Get(m.secondBits - if k == 0 then 1 else 0);
        second := second + [v];
      }
    }
  }

  function Clamp8(v: int): int {
    if v < 0 then 0 else if v > 255 then 255 else v
  }

  lemma ChannelFits(b: seq<Byte>, n: nat, c: nat, e: nat)
    requires n < 8 && c < 4
    ensures Channel(b, n, c, e) < 256
  {
    hide Field, StoredAt;
    var w := Width(n, c);
    WidthFits(n, c);
    if c < 3 || w > 0 {
      if ModeOf(n).kind > 0 {
        assert Pow2(w + 1) == 2 * Pow2(w) && Pow2(1) == 2 * Pow2(0);
        UnquantisedFits(2 * Stored(b, n, c, e) + Parity(b, n, e), w + 1);
      } else {
        UnquantisedFits(Stored(b, n, c, e), w);
      }
    }
  }

  lemma WidthFits(n: nat, c: nat)
    requires n < 8 && c < 4
    ensures var w := Width(n, c) + if ModeOf(n).kind > 0 then 1 else 0;
            (c == 3 && Width(n, c) == 0) || 5 <= w <= 8
  {
  }

  /** A blend of two endpoints, clamped the way the decoder does; the clamp has nothing to do. */
  lemma ClampIsIdle(b: seq<Byte>, n: nat, k: nat, c: nat)
    requires n < 8 && c < 4 && k < 16
    ensures Clamp8(Blended(b, n, k, c)) == Blended(b, n, k, c)
  {
    hide Channel, EndpointOf, FirstWeight, SecondWeight, Swapped;
    var e := EndpointOf(b, n, k);
    ChannelFits(b, n, c, e);
    ChannelFits(b, n, c, e + 1);
    WeightsFit(b, n, k);
    BlendStaysBetween(Channel(b, n, c, e), Channel(b, n, c, e + 1), FirstWeight(b, n, k));
    BlendStaysBetween(Channel(b, n, c, e), Channel(b, n, c, e + 1), SecondWeight(b, n, k));
  }

  lemma WeightsFit(b: seq<Byte>, n: nat, k: nat)
    requires n < 8 && k < 16
    ensures FirstWeight(b, n, k) <= 64 && SecondWeight(b, n, k) <= 64
  {
    hide Weight;
  }

  lemma EndpointFits(b: seq<Byte>, n: nat, k: nat)
    requires n < 8 && k < 16
    ensures EndpointOf(b, n, k) + 1 < ModeOf(n).Endpoints() <= 6
  {
  }

  /** One channel of one pixel. */
  method Blend(col: array2<nat>, e: nat, c: nat, one: nat, two: nat, first: bool, n: nat, k: nat, ghost b: seq<Byte>)
    returns (v: int)
    requires n < 8 && c < 4 && k < 16 && col.Length0 == 6 && col.Length1 == 4 && e == EndpointOf(b, n, k)
    requires Expanded(col, b, n)
    requires one == FirstWeight(b, n, k) && two == SecondWeight(b, n, k)
    requires first == if c < 3 then !Swapped(b, n) else ModeOf(n).secondBits == 0 || Swapped(b, n)
    ensures v == Blended(b, n, k, c)
  {
    hide Channel, FirstWeight, SecondWeight, Swapped, EndpointOf, Interpolated, ModeOf;
    EndpointFits(b, n, k);
    ClampIsIdle(b, n, k, c);
    v := Clamp8(Interpolated(col[e, c], col[e + 1, c], if first then one else two));
  }

  /** Decodes a block: the sixteen texels its layout defines, from exactly 128 bits if it has a mode. */
  method DecodeBlock(s: Cursor) returns (out: seq<Rgba>)
    requires s.pos == 0
    modifies s
    ensures |out| == 16 && forall k :: 0 <= k < 16 ==> out[k] == Texel(s.b, k)
    ensures s.pos == if ModeFrom(s.b, 0) < 8 then 128 else 8
  {
    var n := FindMode(s);
    if n == 8 {
      return seq(16, i => Rgba(0, 0, 0, 0));
    }
    out := DecodeMode(s, n);
  }

  method DecodeMode(s: Cursor, n: nat) returns (out: seq<Rgba>)
    requires n < 8 && n == ModeFrom(s.b, 0) && s.pos == n + 1
    modifies s
    ensures |out| == 16 && forall k :: 0 <= k < 16 ==> out[k] == Texel(s.b, k)
    ensures s.pos == 128
  {
    hide *;
    FieldsInOrder(s.b, n);
    EveryBitCounts(n);
    var m := ModeOf(n);
    var part := s.Get(m.partitionBits);
    var rotation := s.Get(m.rotationBits);
    var select := s.Get(m.selectBits);
    var ep := ReadEndpoints(s, n);
    var parity := ReadParities(s, n);
    var col := Expand(ep, parity, n, s.b);
    var first, second := ReadIndices(s, n, part);
    var swapped := m.secondBits > 0 && select != 0;
    out := [];
    for k: nat := 0 to 16
      invariant |out| == k && s.pos == 128 && Expanded(col, s.b, n)
      invariant forall j :: 0 <= j < k ==> out[j] == Texel(s.b, j)
    {
      var e := 2 * Subset(m, part, k);
      var one, two := Weight(m.indexBits, first[k]), Weight(m.secondBits, second[k]);
      PixelIs(s.b, n, k);
      var red := Blend(col, e, 0, one, two, !swapped, n, k, s.b);
      var green := Blend(col, e, 1, one, two, !swapped, n, k, s.b);
      var blue := Blend(col, e, 2, one, two, !swapped, n, k, s.b);
      var alpha := Blend(col, e, 3, one, two, m.secondBits == 0 || swapped, n, k, s.b);
      out := out + [Rotated(Rgba(red, green, blue, alpha), rotation)];
    }
  }

  lemma FieldsInOrder(b: seq<Byte>, n: nat)
    ensures ColourAt(n) == n + 1 + ModeOf(n).partitionBits + ModeOf(n).rotationBits + ModeOf(n).selectBits
    ensures PartitionOf(b, n) == Field(b, n + 1, ModeOf(n).partitionBits)
    ensures RotationOf(b, n) == Field(b, n + 1 + ModeOf(n).partitionBits, ModeOf(n).rotationBits)
    ensures SelectOf(b, n) == Field(b, n + 1 + ModeOf(n).partitionBits + ModeOf(n).rotationBits, ModeOf(n).selectBits)
    ensures Swapped(b, n) <==> ModeOf(n).secondBits > 0 && SelectOf(b, n) != 0
  {
  }

  lemma PixelIs(b: seq<Byte>, n: nat, k: nat)
    requires n == ModeFrom(b, 0) && n < 8 && k < 16
    ensures EndpointOf(b, n, k) == 2 * Subset(ModeOf(n), PartitionOf(b, n), k)
    ensures FirstWeight(b, n, k) == Weight(ModeOf(n).indexBits, FirstIndex(b, n, k))
    ensures SecondWeight(b, n, k) == Weight(ModeOf(n).secondBits, SecondIndex(b, n, k))
    ensures Texel(b, k) == Rotated(Rgba(Blended(b, n, k, 0), Blended(b, n, k, 1), Blended(b, n, k, 2), Blended(b, n, k, 3)),
                                   RotationOf(b, n))
  {
  }

  // ---- a block's texels depend on its 128 bits alone ----

  ghost predicate SameBits(a: seq<Byte>, b: seq<Byte>) {
    forall i :: 0 <= i < 128 ==> Bit(a, i) == Bit(b, i)
  }

  lemma {:induction false} FieldIsLocal(a: seq<Byte>, b: seq<Byte>, start: nat, n: nat)
    requires SameBits(a, b) && start + n <= 128
    ensures Field(a, start, n) == Field(b, start, n)
  {
    hide Bit;
    if n > 0 {
      FieldIsLocal(a, b, start, n - 1);
    }
  }

  lemma {:induction false} ModeIsLocal(a: seq<Byte>, b: seq<Byte>, i: nat)
    requires SameBits(a, b) && i <= 8
    ensures ModeFrom(a, i) == ModeFrom(b, i)
    decreases 8 - i
  {
    hide Bit;
    if i < 8 {
      ModeIsLocal(a, b, i + 1);
    }
  }

  lemma LayoutEnds(n: nat, c: nat, e: nat)
    requires n < 8 && c < 4 && e < ModeOf(n).Endpoints()
    ensures StoredAt(n, c, e) + Width(n, c) <= 128 && ColourAt(n) <= 128
    ensures ModeOf(n).kind == 1 ==> ParityAt(n) + e / 2 < 128
    ensures ModeOf(n).kind == 2 ==> ParityAt(n) + e < 128
  {
  }

  lemma ChannelIsLocal(a: seq<Byte>, b: seq<Byte>, n: nat, c: nat, e: nat)
    requires SameBits(a, b) && n < 8 && c < 4 && e < ModeOf(n).Endpoints()
    ensures Channel(a, n, c, e) == Channel(b, n, c, e)
  {
    hide ModeOf, StoredAt, Field, SameBits, Unquantised, ParityAt;
    LayoutEnds(n, c, e);
    FieldIsLocal(a, b, StoredAt(n, c, e), Width(n, c));
    if ModeOf(n).kind == 1 {
      FieldIsLocal(a, b, ParityAt(n) + e / 2, 1);
    } else if ModeOf(n).kind == 2 {
      FieldIsLocal(a, b, ParityAt(n) + e, 1);
    }
  }

  lemma HeaderIsLocal(a: seq<Byte>, b: seq<Byte>, n: nat)
    requires SameBits(a, b) && n < 8
    ensures PartitionOf(a, n) == PartitionOf(b, n) && RotationOf(a, n) == RotationOf(b, n)
    ensures SelectOf(a, n) == SelectOf(b, n) && (Swapped(a, n) <==> Swapped(b, n))
  {
    hide ModeOf, Field, SameBits;
    var m := ModeOf(n);
    EndpointsFit(n);
    LayoutEnds(n, 0, 0);
    FieldIsLocal(a, b, n + 1, m.partitionBits);
    FieldIsLocal(a, b, n + 1 + m.partitionBits, m.rotationBits);
    FieldIsLocal(a, b, n + 1 + m.partitionBits + m.rotationBits, m.selectBits);
  }

  lemma IndicesAreLocal(a: seq<Byte>, b: seq<Byte>, n: nat, k: nat)
    requires SameBits(a, b) && n < 8 && k < 16
    ensures FirstIndex(a, n, k) == FirstIndex(b, n, k) && SecondIndex(a, n, k) == SecondIndex(b, n, k)
  {
    hide ModeOf, Field, SameBits, IsAnchor, PartitionOf, SecondAt, IndexAt;
    HeaderIsLocal(a, b, n);
    IndexFits(a, n, k);
    FieldIsLocal(a, b, IndexAtPixel(a, n, k), IndexWidth(a, n, k));
    if ModeOf(n).secondBits > 0 {
      SecondFits(n, k);
      FieldIsLocal(a, b, SecondAtPixel(n, k), ModeOf(n).secondBits - if k == 0 then 1 else 0);
    }
  }

  lemma BlendIsLocal(a: seq<Byte>, b: seq<Byte>, n: nat, k: nat, c: nat)
    requires SameBits(a, b) && n < 8 && k < 16 && c < 4
    ensures Blended(a, n, k, c) == Blended(b, n, k, c)
  {
    hide ModeOf, SameBits, Channel, FirstIndex, SecondIndex, Swapped, PartitionOf, Interpolated, Weight, Subset;
    HeaderIsLocal(a, b, n);
    IndicesAreLocal(a, b, n, k);
    EndpointFits(a, n, k);
    ChannelIsLocal(a, b, n, c, EndpointOf(a, n, k));
    ChannelIsLocal(a, b, n, c, EndpointOf(a, n, k) + 1);
  }

  /** A block's texels depend on its 128 bits alone. */
  lemma TexelIsLocal(a: seq<Byte>, b: seq<Byte>, k: nat)
    requires SameBits(a, b) && k < 16
    ensures Texel(a, k) == Texel(b, k)
  {
    hide ModeOf, SameBits, Blended, RotationOf, ModeFrom;
    ModeIsLocal(a, b, 0);
    var n := ModeFrom(a, 0);
    if n < 8 {
      HeaderIsLocal(a, b, n);
      BlendIsLocal(a, b, n, k, 0);
      BlendIsLocal(a, b, n, k, 1);
      BlendIsLocal(a, b, n, k, 2);
      BlendIsLocal(a, b, n, k, 3);
    }
  }

  lemma TexelFits(b: seq<Byte>, k: nat)
    requires k < 16
    ensures var p := Texel(b, k); 0 <= p.r < 256 && 0 <= p.g < 256 && 0 <= p.b < 256 && 0 <= p.a < 256
  {
    hide Blended, RotationOf;
    var n := ModeFrom(b, 0);
    if n < 8 {
      ClampIsIdle(b, n, k, 0);
      ClampIsIdle(b, n, k, 1);
      ClampIsIdle(b, n, k, 2);
      ClampIsIdle(b, n, k, 3);
    }
  }
}
