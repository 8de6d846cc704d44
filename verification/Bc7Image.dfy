/** Decoding a whole BC7 image into a padded RGBA buffer (src/backend/bcn.c:62-73, 255-347). */
module Bc7Image {
  import opened Bc7Block
  import opened Bc7Decode
  import opened Division
  import opened Octets
  import opened Options

  const UINT_MAX: nat := 0xFFFF_FFFF
  const SIZE_MAX: nat := 0xFFFF_FFFF_FFFF_FFFF

  /** Rounds up to a multiple of four; 0 when that does not fit. */
  function Padded(x: nat): (p: nat)
    ensures p % 4 == 0 && (0 < x <= UINT_MAX - 3 ==> x <= p < x + 4)
  {
    if x > UINT_MAX - 3 then 0 else (x + 3) / 4 * 4
  }

  datatype Size = Size(width: nat, height: nat)

  /** The padded size, unless the buffer's size in bytes cannot be represented. */
  function Dimensions(w: nat, h: nat): (s: Option<Size>)
    ensures s.Some? ==> s.value.width % 4 == 0 && s.value.height % 4 == 0
                        && 0 < w <= s.value.width && 0 < h <= s.value.height
  {
    var x, y := Padded(w), Padded(h);
    if w == 0 || h == 0 || x == 0 || y == 0 || x > SIZE_MAX / y || x * y > SIZE_MAX / 4 then None
    else Some(Size(x, y))
  }

  /** The sixteen bytes of block j; bytes past the end of the source are zero. */
  function BlockAt(src: seq<Byte>, j: nat): seq<Byte> {
    seq(16, i requires 0 <= i < 16 => if 16 * j + i < |src| then src[16 * j + i] else 0)
  }

  /** The pixel that byte i of the padded image belongs to: four bytes a pixel, row by row. */
  function RowOf(s: Size, i: nat): nat
    requires s.width > 0
  {
    i / 4 / s.width
  }

  function ColumnOf(s: Size, i: nat): (x: nat)
    requires s.width > 0
    ensures x < s.width && i / 4 == RowOf(s, i) * s.width + x
  {
    i / 4 % s.width
  }

  function BlockOf(s: Size, i: nat): nat
    requires s.width > 0
  {
    RowOf(s, i) / 4 * (s.width / 4) + ColumnOf(s, i) / 4
  }

  function PixelOf(s: Size, i: nat): (k: nat)
    requires s.width > 0
    ensures k < 16
  {
    RowOf(s, i) % 4 * 4 + ColumnOf(s, i) % 4
  }

  function ChannelOf(p: Rgba, c: nat): int {
    if c == 0 then p.r else if c == 1 then p.g else if c == 2 then p.b else p.a
  }

  function ByteAt(src: seq<Byte>, s: Size, i: nat): int
    requires s.width > 0
  {
    ChannelOf(Texel(BlockAt(src, BlockOf(s, i)), PixelOf(s, i)), i % 4)
  }

  /** When pixel k of block j is written, counting pixels block by block. */
  function Turn(s: Size, i: nat): nat
    requires s.width > 0
  {
    16 * BlockOf(s, i) + PixelOf(s, i)
  }

  function Offset(s: Size, q: nat, r: nat, k: nat): nat {
    ((4 * r + k / 4) * s.width + (4 * q + k % 4)) * 4
  }

  /** Pixel k of the block in column q and row r has the four bytes from its offset on, and no others. */
  lemma Placed(s: Size, q: nat, r: nat, k: nat, i: nat)
    requires s.width % 4 == 0 && 4 * q < s.width && k < 16
    ensures Turn(s, i) == 16 * (r * (s.width / 4) + q) + k <==> Offset(s, q, r, k) <= i < Offset(s, q, r, k) + 4
  {
    if Offset(s, q, r, k) <= i < Offset(s, q, r, k) + 4 {
      PlacedThere(s, q, r, k, i);
    }
    if Turn(s, i) == 16 * (r * (s.width / 4) + q) + k {
      PlacedBack(s, q, r, k, i);
    }
  }

  lemma PlacedThere(s: Size, q: nat, r: nat, k: nat, i: nat)
    requires s.width % 4 == 0 && 4 * q < s.width && k < 16 && Offset(s, q, r, k) <= i < Offset(s, q, r, k) + 4
    ensures Turn(s, i) == 16 * (r * (s.width / 4) + q) + k && i % 4 == i - Offset(s, q, r, k)
    ensures BlockOf(s, i) == r * (s.width / 4) + q && PixelOf(s, i) == k
  {
    RowAndColumn(s, q, r, k, i);
    hide RowOf, ColumnOf;
    var y, x := 4 * r + k / 4, 4 * q + k % 4;
    assert y / 4 == r && y % 4 == k / 4 && x / 4 == q && x % 4 == k % 4;
  }

  lemma RowAndColumn(s: Size, q: nat, r: nat, k: nat, i: nat)
    requires s.width % 4 == 0 && 4 * q < s.width && k < 16 && Offset(s, q, r, k) <= i < Offset(s, q, r, k) + 4
    ensures RowOf(s, i) == 4 * r + k / 4 && ColumnOf(s, i) == 4 * q + k % 4
    ensures i % 4 == i - Offset(s, q, r, k)
  {
    DivUnique(i / 4, s.width, 4 * r + k / 4, 4 * q + k % 4);
  }

  lemma PlacedBack(s: Size, q: nat, r: nat, k: nat, i: nat)
    requires s.width % 4 == 0 && 4 * q < s.width && k < 16 && Turn(s, i) == 16 * (r * (s.width / 4) + q) + k
    ensures Offset(s, q, r, k) <= i < Offset(s, q, r, k) + 4
  {
    var cols := s.width / 4;
    hide RowOf, ColumnOf;
    var x, y := ColumnOf(s, i), RowOf(s, i);
    assert PixelOf(s, i) == k && BlockOf(s, i) == r * cols + q;
    DivUnique(BlockOf(s, i), cols, y / 4, x / 4);
    DivUnique(r * cols + q, cols, r, q);
  }

  /** Every byte of the buffer has its turn. */
  lemma TurnInTime(s: Size, i: nat)
    requires s.width % 4 == 0 && s.height % 4 == 0 && s.width > 0 && i < 4 * (s.width * s.height)
    ensures Turn(s, i) < 16 * ((s.height / 4) * (s.width / 4))
  {
    hide RowOf, ColumnOf;
    RowFits(RowOf(s, i), s.width, s.height, ColumnOf(s, i));
    BlockInTime(s, ColumnOf(s, i), RowOf(s, i));
    assert BlockOf(s, i) < s.height / 4 * (s.width / 4);
  }

  lemma BlockInTime(s: Size, x: nat, y: nat)
    requires s.width % 4 == 0 && s.height % 4 == 0 && x < s.width && y < s.height
    ensures y / 4 * (s.width / 4) + x / 4 < s.height / 4 * (s.width / 4)
  {
    RowEnds(y / 4, s.height / 4, s.width / 4);
  }

  lemma RowFits(y: nat, width: nat, height: nat, x: nat)
    requires y * width + x < width * height && width > 0
    ensures y < height
  {
    if y >= height {
      RowEnds(height - 1, y, width);
    }
  }

  lemma RowEnds(y: nat, height: nat, width: nat)
    requires y < height
    ensures y * width + width <= height * width
  {
    assert (y + 1) * width <= height * width;
  }

  /** A pixel's bytes lie inside the buffer. */
  lemma OffsetFits(s: Size, q: nat, r: nat, k: nat)
    requires 4 * q < s.width && 4 * r < s.height && s.width % 4 == 0 && s.height % 4 == 0 && k < 16
    ensures Offset(s, q, r, k) + 4 <= 4 * (s.width * s.height)
  {
    var y, x := 4 * r + k / 4, 4 * q + k % 4;
    RowEnds(y, s.height, s.width);
    hide *;
    OffsetIs(s, q, r, k);
  }

  lemma OffsetIs(s: Size, q: nat, r: nat, k: nat)
    ensures Offset(s, q, r, k) == 4 * ((4 * r + k / 4) * s.width + (4 * q + k % 4))
  {
  }

  /** All that a decoder positioned at block j sees of it are its sixteen bytes. */
  lemma RestShowsBlock(src: seq<Byte>, j: nat, from: nat)
    requires from == if 16 * j <= |src| then 16 * j else |src|
    ensures SameBits(src[from..], BlockAt(src, j))
  {
    forall i | 0 <= i < 128
      ensures Bit(src[from..], i) == Bit(BlockAt(src, j), i)
    {
      ZeroBits(Pow2(i % 8));
    }
  }

  lemma ZeroBits(p: nat)
    requires p > 0
    ensures 0 / p % 2 == 0
  {
  }

  /** The pixels whose turn came before t are in place, and no byte has been written twice. */
  ghost predicate Written(dst: array<Byte>, writes: seq<nat>, src: seq<Byte>, s: Size, t: nat)
    requires s.width > 0
    reads dst
  {
    && |writes| == dst.Length
    && (forall i :: 0 <= i < dst.Length ==> writes[i] == if Turn(s, i) < t then 1 else 0)
    && (forall i :: 0 <= i < dst.Length && Turn(s, i) < t ==> dst[i] as int == ByteAt(src, s, i))
  }

  /** Writes one pixel; `writes` counts how often each byte of the buffer has been written. */
  method WritePixel(dst: array<Byte>, ghost writes: seq<nat>, p: Rgba, at: nat) returns (ghost after: seq<nat>)
    requires at + 4 <= dst.Length == |writes|
    requires 0 <= p.r < 256 && 0 <= p.g < 256 && 0 <= p.b < 256 && 0 <= p.a < 256
    modifies dst
    ensures |after| == dst.Length
    ensures forall i :: 0 <= i < dst.Length && at <= i < at + 4 ==>
              dst[i] as int == ChannelOf(p, i - at) && after[i] == writes[i] + 1
    ensures forall i :: 0 <= i < dst.Length && !(at <= i < at + 4) ==> dst[i] == old(dst[i]) && after[i] == writes[i]
  {
    dst[at], dst[at + 1], dst[at + 2], dst[at + 3] := p.r as Byte, p.g as Byte, p.b as Byte, p.a as Byte;
    after := seq(|writes|, i requires 0 <= i < |writes| => if at <= i < at + 4 then writes[i] + 1 else writes[i]);
  }

  /** One pixel further. */
  lemma PixelWritten(dst: array<Byte>, before: seq<nat>, after: seq<nat>, src: seq<Byte>, s: Size, q: nat, r: nat,
                     j: nat, k: nat, i: nat)
    requires s.width % 4 == 0 && 4 * q < s.width && k < 16 && i < dst.Length == |before| == |after|
    requires j == r * (s.width / 4) + q
    requires var at := Offset(s, q, r, k);
             if at <= i < at + 4
             then dst[i] as int == ChannelOf(Texel(BlockAt(src, j), k), i - at)
                  && after[i] == before[i] + 1 && before[i] == if Turn(s, i) < 16 * j + k then 1 else 0
             else after[i] == before[i] == (if Turn(s, i) < 16 * j + k then 1 else 0)
                  && (Turn(s, i) < 16 * j + k ==> dst[i] as int == ByteAt(src, s, i))
    ensures after[i] == if Turn(s, i) < 16 * j + k + 1 then 1 else 0
    ensures Turn(s, i) < 16 * j + k + 1 ==> dst[i] as int == ByteAt(src, s, i)
  {
    hide Texel, BlockAt, Turn, Offset;
    Placed(s, q, r, k, i);
    if Offset(s, q, r, k) <= i < Offset(s, q, r, k) + 4 {
      PlacedThere(s, q, r, k, i);
    }
  }

  /** Writes the sixteen pixels of one block. */
  method WriteBlock(dst: array<Byte>, ghost writes: seq<nat>, ghost src: seq<Byte>, s: Size, q: nat, r: nat,
                    ghost j: nat, out: seq<Rgba>)
    returns (ghost after: seq<nat>)
    requires s.width % 4 == 0 && s.height % 4 == 0 && 4 * q < s.width && 4 * r < s.height
    requires j == r * (s.width / 4) + q
    requires dst.Length == 4 * (s.width * s.height) && |out| == 16
    requires forall k :: 0 <= k < 16 ==> out[k] == Texel(BlockAt(src, j), k)
    requires Written(dst, writes, src, s, 16 * j)
    modifies dst
    ensures Written(dst, after, src, s, 16 * j + 16)
  {
    hide Texel, BlockAt, Turn, Offset, ByteAt, ChannelOf;
    after := writes;
    for k: nat := 0 to 16
      invariant Written(dst, after, src, s, 16 * j + k)
    {
      OffsetFits(s, q, r, k);
      TexelFits(BlockAt(src, j), k);
      ghost var before := after;
      after := WritePixel(dst, after, out[k], Offset(s, q, r, k));
      forall i | 0 <= i < dst.Length
        ensures after[i] == (if Turn(s, i) < 16 * j + k + 1 then 1 else 0)
                && (Turn(s, i) < 16 * j + k + 1 ==> dst[i] as int == ByteAt(src, s, i))
      {
        PixelWritten(dst, before, after, src, s, q, r, j, k, i);
      }
    }
  }

  /**
   * Fills the padded buffer block by block. Each byte is written once, and what it gets depends only on the sixteen
   * bytes of the block that covers its pixel; sizes that cannot be represented change nothing.
   */
  method DecodeBc7(src: seq<Byte>, w: nat, h: nat, dst: array<Byte>) returns (ok: bool, ghost writes: seq<nat>)
    requires Dimensions(w, h).Some? ==>
               dst.Length == 4 * (Dimensions(w, h).value.width * Dimensions(w, h).value.height)
    modifies dst
    ensures ok <==> Dimensions(w, h).Some?
    ensures !ok ==> dst[..] == old(dst[..])
    ensures ok ==> |writes| == dst.Length && forall i :: 0 <= i < dst.Length ==>
              writes[i] == 1 && dst[i] as int == ByteAt(src, Dimensions(w, h).value, i)
  {
    hide *;
    writes := [];
    var size := Dimensions(w, h);
    if size.None? {
      return false, [];
    }
    var s := size.value;
    writes := seq(dst.Length, i => 0);
    NothingWritten(dst, writes, src, s);
    for r: nat := 0 to s.height / 4
      invariant Written(dst, writes, src, s, 16 * (r * (s.width / 4)))
    {
      writes := DecodeRow(src, s, r, dst, writes);
      assert r * (s.width / 4) + s.width / 4 == (r + 1) * (s.width / 4);
    }
    AllWritten(dst, writes, src, s);
    ok := true;
  }

  lemma NothingWritten(dst: array<Byte>, writes: seq<nat>, src: seq<Byte>, s: Size)
    requires s.width > 0 && |writes| == dst.Length && forall i :: 0 <= i < dst.Length ==> writes[i] == 0
    ensures Written(dst, writes, src, s, 0)
  {
  }

  lemma AllWritten(dst: array<Byte>, writes: seq<nat>, src: seq<Byte>, s: Size)
    requires s.width % 4 == 0 && s.height % 4 == 0 && s.width > 0 && dst.Length == 4 * (s.width * s.height)
    requires Written(dst, writes, src, s, 16 * (s.height / 4 * (s.width / 4)))
    ensures |writes| == dst.Length
    ensures forall i :: 0 <= i < dst.Length ==> writes[i] == 1 && dst[i] as int == ByteAt(src, s, i)
  {
    hide Turn, ByteAt;
    forall i | 0 <= i < dst.Length
      ensures Turn(s, i) < 16 * (s.height / 4 * (s.width / 4))
    {
      TurnInTime(s, i);
    }
  }

  /** One row of blocks. */
  method DecodeRow(src: seq<Byte>, s: Size, r: nat, dst: array<Byte>, ghost writes: seq<nat>) returns (ghost after: seq<nat>)
    requires s.width % 4 == 0 && s.height % 4 == 0 && s.width > 0 && 4 * r < s.height
    requires dst.Length == 4 * (s.width * s.height) && Written(dst, writes, src, s, 16 * (r * (s.width / 4)))
    modifies dst
    ensures Written(dst, after, src, s, 16 * (r * (s.width / 4) + s.width / 4))
  {
    hide Written, Texel, BlockAt;
    after := writes;
    var first := r * (s.width / 4);
    for q: nat := 0 to s.width / 4
      invariant Written(dst, after, src, s, 16 * (first + q))
    {
      var j := first + q;
      var out := DecodeAt(src, if 16 * j <= |src| then 16 * j else |src|, j);
      after := WriteBlock(dst, after, src, s, q, r, j, out);
      assert 16 * j + 16 == 16 * (first + (q + 1));
    }
  }

  /** Decodes the block at one place of the source, which may be beyond its end. */
  method DecodeAt(src: seq<Byte>, from: nat, ghost j: nat) returns (out: seq<Rgba>)
    requires from == if 16 * j <= |src| then 16 * j else |src|
    ensures |out| == 16 && forall k :: 0 <= k < 16 ==> out[k] == Texel(BlockAt(src, j), k)
  {
    hide *;
    var cursor := new Cursor(src[from..]);
    out := DecodeBlock(cursor);
    RestShowsBlock(src, j, from);
    forall k | 0 <= k < 16
      ensures out[k] == Texel(BlockAt(src, j), k)
    {
      TexelIsLocal(src[from..], BlockAt(src, j), k);
    }
  }

  // ---- in plain numbers ----

  lemma QuotientBelow(x: nat, y: nat, most: nat)
    requires y > 0
    ensures x <= most / y <==> x * y <= most
  {
    var q, r := most / y, most % y;
    assert most == q * y + r;
    if x <= q {
      assert (q - x) * y >= 0;
    } else {
      AtLeastOnce(x - q, y);
      assert x * y == q * y + (x - q) * y;
    }
  }

  lemma PaddedIs(x: nat, p: nat)
    requires 0 < x <= 0xFFFF_FFFC && p % 4 == 0 && x <= p < x + 4
    ensures Padded(x) == p
  {
  }

  /** A picture is decoded when both sides can be padded to multiples of four and its bytes counted in 64 bits. */
  lemma SizeIff(w: nat, h: nat, x: nat, y: nat)
    requires x % 4 == 0 && w <= x < w + 4 && y % 4 == 0 && h <= y < h + 4
    ensures Dimensions(w, h) ==
      if 0 < w <= 0xFFFF_FFFC && 0 < h <= 0xFFFF_FFFC && 4 * (x * y) <= 0xFFFF_FFFF_FFFF_FFFF then Some(Size(x, y)) else None
  {
    if 0 < w <= 0xFFFF_FFFC && 0 < h <= 0xFFFF_FFFC {
      PaddedIs(w, x);
      PaddedIs(h, y);
      hide Padded;
      QuotientBelow(x, y, SIZE_MAX);
      QuotientBelow(x * y, 4, SIZE_MAX);
    }
  }

  /** Row by row, four bytes a pixel, red first: a pixel comes from its place in the block it lies in. */
  lemma ByteIs(src: seq<Byte>, s: Size, x: nat, y: nat, c: nat)
    requires x < s.width && c < 4
    ensures var p := Texel(BlockAt(src, y / 4 * (s.width / 4) + x / 4), y % 4 * 4 + x % 4);
            ByteAt(src, s, 4 * (y * s.width + x) + c) == [p.r, p.g, p.b, p.a][c]
  {
    hide Texel, BlockAt;
    var i := 4 * (y * s.width + x) + c;
    DivUnique(i, 4, y * s.width + x, c);
    DivUnique(y * s.width + x, s.width, y, x);
  }
}
