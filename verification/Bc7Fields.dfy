/**
 * Writing a BC7 block: its fields one behind the other, and what the decoder shows for them
 * (src/backend/bcn.c:220-343; chapter 20, BPTC, of the Khronos Data Format Specification 1.3).
 */
module Bc7Fields {
  import opened Bc7Tables
  import opened Bc7Block
  import opened Bc7Decode
  import opened Octets
  import opened Division

  /** One field: its value and how many bits it takes. */
  datatype Part = Part(value: nat, width: nat)

  function Total(parts: seq<Part>): nat {
    if parts == [] then 0 else parts[0].width + Total(parts[1..])
  }

  predicate Fits(parts: seq<Part>) {
    forall j :: 0 <= j < |parts| ==> parts[j].value < Pow2(parts[j].width)
  }

  /** The bits of a number, lowest first. */
  function Binary(v: nat, width: nat): (bits: seq<nat>)
    ensures |bits| == width && forall i :: 0 <= i < width ==> bits[i] < 2
  {
    if width == 0 then [] else [v % 2] + Binary(v / 2, width - 1)
  }

  function Written(parts: seq<Part>): (bits: seq<nat>)
    ensures |bits| == Total(parts) && forall i :: 0 <= i < |bits| ==> bits[i] < 2
  {
    if parts == [] then [] else Binary(parts[0].value, parts[0].width) + Written(parts[1..])
  }

  /** Eight bits to a byte, the first one lowest. */
  function Packed(bits: seq<nat>): (b: seq<Byte>)
    requires |bits| % 8 == 0 && forall i :: 0 <= i < |bits| ==> bits[i] < 2
    ensures |b| == |bits| / 8
  {
    seq(|bits| / 8, j requires 0 <= j < |bits| / 8 => OneByte(bits[8 * j..8 * j + 8]))
  }

  /** The number that bits come to, the first one lowest. */
  function Number(v: seq<nat>): (n: nat)
    requires forall i :: 0 <= i < |v| ==> v[i] < 2
    ensures n < Pow2(|v|)
  {
    if v == [] then 0 else v[0] + 2 * Number(v[1..])
  }

  function OneByte(v: seq<nat>): Byte
    requires |v| == 8 && forall i :: 0 <= i < 8 ==> v[i] < 2
  {
    assert Pow2(4) == 16 && Pow2(8) == 16 * Pow2(4);
    Number(v) as Byte
  }

  /** The fields lie in the bytes one behind the other. */
  ghost predicate Holds(b: seq<Byte>, at: nat, parts: seq<Part>)
    decreases |parts|
  {
    parts == [] ||
    (Field(b, at, parts[0].width) == parts[0].value && Holds(b, at + parts[0].width, parts[1..]))
  }

  // ---- bits and bytes ----

  lemma HalfFirst(n: nat, half: nat, p: nat)
    requires p > 0 && n / 2 == half
    ensures n / (2 * p) == half / p
  {
    var q, r := half / p, half % p;
    assert half == q * p + r;
    assert n == q * (2 * p) + (2 * r + n % 2);
    DivUnique(n, 2 * p, q, 2 * r + n % 2);
  }

  lemma {:induction false} BitOfNumber(v: seq<nat>, i: nat)
    requires (forall j :: 0 <= j < |v| ==> v[j] < 2) && i < |v|
    ensures (Number(v) / Pow2(i)) % 2 == v[i]
    decreases i
  {
    if i > 0 {
      BitOfNumber(v[1..], i - 1);
      HalfFirst(Number(v), Number(v[1..]), Pow2(i - 1));
    }
  }

  lemma BitOfPacked(bits: seq<nat>, i: nat)
    requires |bits| % 8 == 0 && (forall j :: 0 <= j < |bits| ==> bits[j] < 2) && i < |bits|
    ensures Bit(Packed(bits), i) == bits[i]
  {
    var j := i / 8;
    BitOfNumber(bits[8 * j..8 * j + 8], i % 8);
    hide Number;
    assert 8 * j + i % 8 == i;
  }

  /** A field read from bits that are a number's. */
  lemma {:induction false} FieldOfBits(b: seq<Byte>, at: nat, v: nat, width: nat)
    requires v < Pow2(width) && forall i :: 0 <= i < width ==> Bit(b, at + i) == Binary(v, width)[i]
    ensures Field(b, at, width) == v
    decreases width
  {
    hide Bit;
    if width > 0 {
      FieldFromFront(b, at, width);
      assert Binary(v, width)[1..] == Binary(v / 2, width - 1);
      assert forall i :: 0 <= i < width - 1 ==> Bit(b, at + 1 + i) == Binary(v, width)[1..][i];
      FieldOfBits(b, at + 1, v / 2, width - 1);
      assert Bit(b, at + 0) == Binary(v, width)[0] == v % 2;
    }
  }

  lemma {:induction false} FieldFromFront(b: seq<Byte>, at: nat, width: nat)
    requires width > 0
    ensures Field(b, at, width) == Bit(b, at) + 2 * Field(b, at + 1, width - 1)
    decreases width
  {
    hide *;
    LastBit(b, at, width);
    if width > 1 {
      FieldFromFront(b, at, width - 1);
      LastBit(b, at + 1, width - 1);
      TwiceTimes(Bit(b, at + width - 1), Pow2(width - 2));
      assert at + 1 + (width - 2) == at + width - 1;
    }
  }

  lemma LastBit(b: seq<Byte>, at: nat, width: nat)
    requires width > 0
    ensures Field(b, at, width) == Field(b, at, width - 1) + Bit(b, at + width - 1) * Pow2(width - 1)
    ensures width == 1 ==> Field(b, at, width) == Bit(b, at) && Field(b, at + 1, 0) == 0
    ensures width > 1 ==> Pow2(width - 1) == 2 * Pow2(width - 2)
  {
    hide Bit;
  }

  lemma TwiceTimes(x: nat, p: nat)
    ensures x * (2 * p) == 2 * (x * p)
  {
  }

  lemma BitIsBit(b: seq<Byte>, i: nat)
    ensures Bit(b, i) < 2 && Field(b, i, 1) == Bit(b, i)
  {
    assert Field(b, i, 1) == Field(b, i, 0) + Bit(b, i) * Pow2(0);
  }

  lemma HalfOfField(b: seq<Byte>, at: nat, width: nat)
    requires width > 0
    ensures Field(b, at, width) % 2 == Bit(b, at) && Field(b, at, width) / 2 == Field(b, at + 1, width - 1)
  {
    hide *;
    FieldFromFront(b, at, width);
    BitIsBit(b, at);
  }

  /** A field's number has the field's bits. */
  lemma {:induction false} BitsOfField(b: seq<Byte>, at: nat, width: nat, i: nat)
    requires i < width
    ensures Binary(Field(b, at, width), width)[i] == Bit(b, at + i)
    decreases width
  {
    hide Bit, Field;
    HalfOfField(b, at, width);
    if i > 0 {
      BitsOfField(b, at + 1, width - 1, i - 1);
      assert at + 1 + (i - 1) == at + i;
    }
  }

  /** What is written and packed is held. */
  lemma {:induction false} WrittenHolds(b: seq<Byte>, at: nat, parts: seq<Part>)
    requires Fits(parts) && forall i :: 0 <= i < Total(parts) ==> Bit(b, at + i) == Written(parts)[i]
    ensures Holds(b, at, parts)
    decreases |parts|
  {
    hide Bit, Binary;
    if parts != [] {
      var w := parts[0].width;
      assert forall i :: 0 <= i < w ==> Written(parts)[i] == Binary(parts[0].value, w)[i];
      FieldOfBits(b, at, parts[0].value, w);
      forall i | 0 <= i < Total(parts[1..])
        ensures Bit(b, at + w + i) == Written(parts[1..])[i]
      {
        assert Bit(b, at + (w + i)) == Written(parts)[w + i];
      }
      WrittenHolds(b, at + w, parts[1..]);
    }
  }

  /** Bytes that hold the fields have the bits that are written for them. */
  lemma {:induction false} HeldBits(b: seq<Byte>, at: nat, parts: seq<Part>, i: nat)
    requires Holds(b, at, parts) && i < Total(parts)
    ensures Bit(b, at + i) == Written(parts)[i]
    decreases |parts|
  {
    hide Bit, Binary, Field;
    var w := parts[0].width;
    if i < w {
      BitsOfField(b, at, w, i);
    } else {
      HeldBits(b, at + w, parts[1..], i - w);
    }
  }

  lemma {:induction false} HoldsSum(b: seq<Byte>, at: nat, x: seq<Part>, y: seq<Part>)
    ensures Holds(b, at, x + y) <==> Holds(b, at, x) && Holds(b, at + Total(x), y)
    ensures Total(x + y) == Total(x) + Total(y)
    decreases |x|
  {
    hide Field;
    if x == [] {
      assert x + y == y;
    } else {
      assert (x + y)[1..] == x[1..] + y;
      HoldsSum(b, at + x[0].width, x[1..], y);
    }
  }

  /** Every field is at the sum of the widths before it, and that is all there is to it. */
  lemma {:induction false} HoldsIff(b: seq<Byte>, at: nat, parts: seq<Part>)
    ensures Holds(b, at, parts) <==>
            forall j :: 0 <= j < |parts| ==> Field(b, at + Total(parts[..j]), parts[j].width) == parts[j].value
    decreases |parts|
  {
    hide Field, Total;
    if parts != [] {
      var last := |parts| - 1;
      var front, end := parts[..last], [parts[last]];
      assert parts == front + end;
      HoldsSum(b, at, front, end);
      HoldsIff(b, at, front);
      HoldsOne(b, at + Total(front), parts[last]);
      assert forall j :: 0 <= j < last ==> front[..j] == parts[..j] && front[j] == parts[j];
    }
  }

  lemma HoldsOne(b: seq<Byte>, at: nat, part: Part)
    ensures Holds(b, at, [part]) <==> Field(b, at, part.width) == part.value
    ensures Total([part]) == part.width
  {
    hide Field;
    assert [part][1..] == [];
  }

  // ---- the fields of a block ----

  /** What a block says, field by field: stored[c][e] is channel c of endpoint e, 3 is alpha. */
  datatype Fields = Fields(mode: nat, part: nat, rotation: nat, select: nat, stored: seq<seq<nat>>, parity: seq<nat>,
                           first: seq<nat>, second: seq<nat>)

  /** Pixel 0 and the anchors of the partition's other subsets have one bit less. */
  predicate Shorter(f: Fields, k: nat)
    requires f.mode < 8
  {
    var m := ModeOf(f.mode);
    k == 0 || (m.subsets > 1 && k == Anchor(m, f.part, 1)) || (m.subsets > 2 && k == Anchor(m, f.part, 2))
  }

  predicate Shaped(f: Fields) {
    && f.mode < 8 && |f.stored| == 4 && (forall c :: 0 <= c < 4 ==> |f.stored[c]| == ModeOf(f.mode).Endpoints())
    && |f.parity| == ModeOf(f.mode).Parities() && |f.first| == 16
    && |f.second| == if ModeOf(f.mode).secondBits > 0 then 16 else 0
  }

  function Same(values: seq<nat>, width: nat): (parts: seq<Part>)
    ensures |parts| == |values| && forall i :: 0 <= i < |values| ==> parts[i] == Part(values[i], width)
  {
    seq(|values|, i requires 0 <= i < |values| => Part(values[i], width))
  }

  function Zeroes(n: nat): (values: seq<nat>)
    ensures |values| == n && forall i :: 0 <= i < n ==> values[i] == 0
  {
    seq(n, i => 0)
  }

  function Header(f: Fields): seq<Part>
    requires Shaped(f)
  {
    var m := ModeOf(f.mode);
    Same(Zeroes(f.mode), 1)
    + [Part(1, 1), Part(f.part, m.partitionBits), Part(f.rotation, m.rotationBits), Part(f.select, m.selectBits)]
  }

  function Firsts(f: Fields): (parts: seq<Part>)
    requires Shaped(f)
    ensures |parts| == 16
  {
    seq(16, k requires 0 <= k < 16 => Part(f.first[k], ModeOf(f.mode).indexBits - if Shorter(f, k) then 1 else 0))
  }

  function Seconds(f: Fields): (parts: seq<Part>)
    requires Shaped(f)
    ensures |parts| == |f.second|
  {
    seq(|f.second|, k requires 0 <= k < |f.second| =>
      Part(f.second[k], ModeOf(f.mode).secondBits - if k == 0 then 1 else 0))
  }

  /** Mode, partition, rotation, select; red of all endpoints, green, blue, alpha; parities; the indices. */
  function Parts(f: Fields): seq<Part>
    requires Shaped(f)
  {
    var m := ModeOf(f.mode);
    Header(f) + Same(f.stored[0] + f.stored[1] + f.stored[2], m.colourBits) + Same(f.stored[3], m.alphaBits)
    + Same(f.parity, 1) + Firsts(f) + Seconds(f)
  }

  // ---- section by section ----

  lemma NoTotal()
    ensures Total([]) == 0
  {
  }

  lemma TotalOneMore(parts: seq<Part>, n: nat)
    requires n < |parts|
    ensures Total(parts[..n + 1]) == Total(parts[..n]) + parts[n].width
  {
    hide Total, Holds;
    HoldsSum([], 0, parts[..n], [parts[n]]);
    HoldsOne([], 0, parts[n]);
    assert parts[..n + 1] == parts[..n] + [parts[n]];
  }

  lemma {:induction false} TotalSame(values: seq<nat>, width: nat, n: nat)
    requires n <= |values|
    ensures Total(Same(values, width)[..n]) == n * width
  {
    hide Total, Same;
    NoTotal();
    if n == 0 {
      assert Same(values, width)[..0] == [];
    } else {
      TotalSame(values, width, n - 1);
      TotalOneMore(Same(values, width), n - 1);
    }
  }

  lemma SameIff(b: seq<Byte>, at: nat, values: seq<nat>, width: nat)
    ensures Total(Same(values, width)) == |values| * width
    ensures Holds(b, at, Same(values, width)) <==>
            forall i :: 0 <= i < |values| ==> Field(b, at + i * width, width) == values[i]
  {
    hide Field, Holds;
    var parts := Same(values, width);
    HoldsIff(b, at, parts);
    forall i | 0 <= i < |values|
      ensures Total(parts[..i]) == i * width
    {
      TotalSame(values, width, i);
    }
    TotalSame(values, width, |values|);
    assert parts[..|values|] == parts;
  }

  lemma HeaderIff(b: seq<Byte>, f: Fields)
    requires Shaped(f)
    ensures Total(Header(f)) == ColourAt(f.mode)
    ensures Holds(b, 0, Header(f)) <==>
              && (forall j :: 0 <= j < f.mode ==> Bit(b, j) == 0) && Bit(b, f.mode) == 1
              && PartitionOf(b, f.mode) == f.part && RotationOf(b, f.mode) == f.rotation && SelectOf(b, f.mode) == f.select
  {
    hide ModeOf, Field, Holds, Total, Bit, Same;
    var m, n := ModeOf(f.mode), f.mode;
    var zeros := Zeroes(n);
    var rest := [Part(1, 1), Part(f.part, m.partitionBits), Part(f.rotation, m.rotationBits), Part(f.select, m.selectBits)];
    HoldsSum(b, 0, Same(zeros, 1), rest);
    ZerosIff(b, n);
    FourParts(b, n, rest);
    BitIsBit(b, n);
  }

  lemma ZerosIff(b: seq<Byte>, n: nat)
    ensures Total(Same(Zeroes(n), 1)) == n
    ensures Holds(b, 0, Same(Zeroes(n), 1)) <==> forall j :: 0 <= j < n ==> Bit(b, j) == 0
  {
    hide Field, Holds, Total, Bit, Same;
    var zeros := Zeroes(n);
    SameIff(b, 0, zeros, 1);
    forall i | 0 <= i < n
      ensures Field(b, 0 + i * 1, 1) == zeros[i] <==> Bit(b, i) == 0
    {
      BitIsBit(b, i);
      assert 0 + i * 1 == i;
    }
    if Holds(b, 0, Same(zeros, 1)) {
      forall j | 0 <= j < n
        ensures Bit(b, j) == 0
      {
        assert Field(b, 0 + j * 1, 1) == zeros[j];
      }
    }
  }

  lemma FourParts(b: seq<Byte>, at: nat, rest: seq<Part>)
    requires |rest| == 4
    ensures var w0, w1, w2, w3 := rest[0].width, rest[1].width, rest[2].width, rest[3].width;
            && Total(rest) == w0 + w1 + w2 + w3
            && (Holds(b, at, rest) <==>
                  && Field(b, at, w0) == rest[0].value && Field(b, at + w0, w1) == rest[1].value
                  && Field(b, at + w0 + w1, w2) == rest[2].value && Field(b, at + w0 + w1 + w2, w3) == rest[3].value)
  {
    hide Field, Holds, Total;
    var x, y := rest[..2], rest[2..];
    assert rest == x + y && x == [rest[0]] + [rest[1]] && y == [rest[2]] + [rest[3]];
    var w0, w1, w2, w3 := rest[0].width, rest[1].width, rest[2].width, rest[3].width;
    HoldsOne(b, at, rest[0]);
    HoldsOne(b, at + w0, rest[1]);
    HoldsOne(b, at + w0 + w1, rest[2]);
    HoldsOne(b, at + w0 + w1 + w2, rest[3]);
    HoldsSum(b, at, [rest[0]], [rest[1]]);
    HoldsSum(b, at + w0 + w1, [rest[2]], [rest[3]]);
    HoldsSum(b, at, x, y);
  }

  lemma StoredAtIs(b: seq<Byte>, n: nat, c: nat, e: nat)
    ensures var m := ModeOf(n);
            c < 3 ==> Stored(b, n, c, e) == Field(b, ColourAt(n) + (c * m.Endpoints() + e) * m.colourBits, m.colourBits)
    ensures c >= 3 ==> Stored(b, n, c, e) == Field(b, AlphaAt(n) + e * ModeOf(n).alphaBits, ModeOf(n).alphaBits)
  {
    hide ModeOf, Field, ColourAt, AlphaAt;
  }

  /** Where the sections start, one behind the other. */
  lemma Starts(n: nat)
    ensures AlphaAt(n) == ColourAt(n) + 3 * ModeOf(n).Endpoints() * ModeOf(n).colourBits
    ensures ParityAt(n) == AlphaAt(n) + ModeOf(n).Endpoints() * ModeOf(n).alphaBits
    ensures IndexAt(n) == ParityAt(n) + ModeOf(n).Parities()
    ensures SecondAt(n) == IndexAt(n) + 16 * ModeOf(n).indexBits - ModeOf(n).subsets
    ensures EndOf(n) == SecondAt(n) + if ModeOf(n).secondBits > 0 then 16 * ModeOf(n).secondBits - 1 else 0
  {
    hide ModeOf;
  }

  lemma ChannelOfAll(stored: seq<seq<nat>>, ends: nat, c: nat, e: nat)
    requires |stored| >= 3 && (forall c :: 0 <= c < 3 ==> |stored[c]| == ends) && c < 3 && e < ends
    ensures c * ends + e < |stored[0] + stored[1] + stored[2]| == 3 * ends
    ensures (stored[0] + stored[1] + stored[2])[c * ends + e] == stored[c][e]
  {
    if c == 0 {
    } else if c == 1 {
    } else {
      assert c == 2;
    }
  }

  ghost predicate ColoursAre(b: seq<Byte>, n: nat, stored: seq<seq<nat>>)
    requires |stored| == 4 && forall c :: 0 <= c < 4 ==> |stored[c]| == ModeOf(n).Endpoints()
  {
    forall c: nat, e: nat :: c < 3 && e < ModeOf(n).Endpoints() ==> Stored(b, n, c, e) == stored[c][e]
  }

  /** Where entry c * ends + e of the colours comes from. */
  lemma ColourIs(b: seq<Byte>, f: Fields, c: nat, e: nat)
    requires Shaped(f) && c < 3 && e < ModeOf(f.mode).Endpoints()
    ensures var m, values := ModeOf(f.mode), f.stored[0] + f.stored[1] + f.stored[2];
            && c * m.Endpoints() + e < |values|
            && (Stored(b, f.mode, c, e) == f.stored[c][e] <==>
                Field(b, ColourAt(f.mode) + (c * m.Endpoints() + e) * m.colourBits, m.colourBits) == values[c * m.Endpoints() + e])
  {
    hide Field, ModeOf, Stored, ColourAt;
    ChannelOfAll(f.stored, ModeOf(f.mode).Endpoints(), c, e);
    StoredAtIs(b, f.mode, c, e);
  }

  lemma EntryOf(ends: nat, i: nat) returns (c: nat, e: nat)
    requires i < 3 * ends
    ensures c < 3 && e < ends && i == c * ends + e
  {
    c := if i < ends then 0 else if i < 2 * ends then 1 else 2;
    e := i - c * ends;
  }

  lemma ColoursIff(b: seq<Byte>, f: Fields)
    requires Shaped(f)
    ensures var m := ModeOf(f.mode);
            var parts := Same(f.stored[0] + f.stored[1] + f.stored[2], m.colourBits);
            && Total(parts) == AlphaAt(f.mode) - ColourAt(f.mode)
            && (Holds(b, ColourAt(f.mode), parts) <==> ColoursAre(b, f.mode, f.stored))
  {
    hide Field, ModeOf, Stored, Holds, Total, ColourAt, AlphaAt, Same;
    var n, m, values := f.mode, ModeOf(f.mode), f.stored[0] + f.stored[1] + f.stored[2];
    var ends, at := m.Endpoints(), ColourAt(n);
    Starts(n);
    SameIff(b, at, values, m.colourBits);
    ThreeOf(f);
    if ColoursAre(b, n, f.stored) {
      forall i | 0 <= i < |values|
        ensures Field(b, at + i * m.colourBits, m.colourBits) == values[i]
      {
        var c, e := EntryOf(ends, i);
        ColourIs(b, f, c, e);
      }
    }
    if Holds(b, at, Same(values, m.colourBits)) {
      forall c: nat, e: nat | c < 3 && e < ends
        ensures Stored(b, n, c, e) == f.stored[c][e]
      {
        ColourIs(b, f, c, e);
      }
    }
  }

  lemma ThreeOf(f: Fields)
    requires Shaped(f)
    ensures |f.stored[0] + f.stored[1] + f.stored[2]| == 3 * ModeOf(f.mode).Endpoints()
  {
  }

  lemma AlphasIff(b: seq<Byte>, f: Fields)
    requires Shaped(f)
    ensures var parts := Same(f.stored[3], ModeOf(f.mode).alphaBits);
            && Total(parts) == ParityAt(f.mode) - AlphaAt(f.mode)
            && (Holds(b, AlphaAt(f.mode), parts) <==>
                  forall e: nat :: e < ModeOf(f.mode).Endpoints() ==> Stored(b, f.mode, 3, e) == f.stored[3][e])
  {
    hide Field, Holds, Total, ModeOf, AlphaAt, ParityAt, Stored, Same;
    Starts(f.mode);
    SameIff(b, AlphaAt(f.mode), f.stored[3], ModeOf(f.mode).alphaBits);
    forall e: nat | e < ModeOf(f.mode).Endpoints()
      ensures Stored(b, f.mode, 3, e) ==
              Field(b, AlphaAt(f.mode) + e * ModeOf(f.mode).alphaBits, ModeOf(f.mode).alphaBits)
    {
      StoredAtIs(b, f.mode, 3, e);
    }
  }

  lemma ParitiesIff(b: seq<Byte>, f: Fields)
    requires Shaped(f)
    ensures Total(Same(f.parity, 1)) == IndexAt(f.mode) - ParityAt(f.mode)
    ensures Holds(b, ParityAt(f.mode), Same(f.parity, 1)) <==>
            forall i :: 0 <= i < |f.parity| ==> Field(b, ParityAt(f.mode) + i, 1) == f.parity[i]
  {
    hide Field, Holds, Total, ModeOf, ParityAt, IndexAt, Same;
    Starts(f.mode);
    SameIff(b, ParityAt(f.mode), f.parity, 1);
    forall i | 0 <= i < |f.parity|
      ensures Field(b, ParityAt(f.mode) + i * 1, 1) == Field(b, ParityAt(f.mode) + i, 1)
    {
      assert i * 1 == i;
    }
  }

  lemma FirstWidths(f: Fields, k: nat)
    requires Shaped(f) && k < 16
    ensures Firsts(f)[k].width == ModeOf(f.mode).indexBits - if IsAnchor(ModeOf(f.mode), f.part, k) then 1 else 0
    ensures AnchorsBefore(ModeOf(f.mode), f.part, k + 1) ==
            AnchorsBefore(ModeOf(f.mode), f.part, k) + if IsAnchor(ModeOf(f.mode), f.part, k) then 1 else 0
    ensures AnchorsBefore(ModeOf(f.mode), f.part, 0) == 0
  {
    hide IsAnchor, ModeOf, Anchor;
    AnchorIff(ModeOf(f.mode), f.part, k);
  }

  lemma {:induction false} TotalFirsts(f: Fields, k: nat)
    requires Shaped(f) && k <= 16
    ensures Total(Firsts(f)[..k]) == k * ModeOf(f.mode).indexBits - AnchorsBefore(ModeOf(f.mode), f.part, k)
  {
    hide *;
    NoTotal();
    if k == 0 {
      FirstWidths(f, 0);
      assert Firsts(f)[..0] == [];
    } else {
      TotalFirsts(f, k - 1);
      FirstWidths(f, k - 1);
      TotalOneMore(Firsts(f), k - 1);
    }
  }

  lemma FirstsIff(b: seq<Byte>, f: Fields)
    requires Shaped(f) && PartitionOf(b, f.mode) == f.part
    ensures Total(Firsts(f)) == SecondAt(f.mode) - IndexAt(f.mode)
    ensures Holds(b, IndexAt(f.mode), Firsts(f)) <==>
            forall k :: 0 <= k < 16 ==> FirstIndex(b, f.mode, k) == f.first[k]
  {
    hide IsAnchor, ModeOf, Anchor, Field, Holds, Total, PartitionOf, IndexAt;
    var parts, m := Firsts(f), ModeOf(f.mode);
    HoldsIff(b, IndexAt(f.mode), parts);
    forall k: nat | k < 16
      ensures FirstIndex(b, f.mode, k) == Field(b, IndexAt(f.mode) + Total(parts[..k]), parts[k].width)
    {
      TotalFirsts(f, k);
      AnchorIff(m, f.part, k);
    }
    TotalOfFirsts(f);
  }

  lemma SecondWidths(f: Fields, k: nat)
    requires Shaped(f) && k < |f.second|
    ensures |Seconds(f)| == |f.second|
    ensures Seconds(f)[k].width == ModeOf(f.mode).secondBits - if k == 0 then 1 else 0
  {
    hide ModeOf;
  }

  lemma {:induction false} TotalSeconds(f: Fields, k: nat)
    requires Shaped(f) && k <= |f.second|
    ensures Total(Seconds(f)[..k]) == k * ModeOf(f.mode).secondBits - if k > 0 then 1 else 0
  {
    hide *;
    NoTotal();
    if k == 0 {
      assert Seconds(f)[..0] == [];
    } else {
      TotalSeconds(f, k - 1);
      SecondWidths(f, k - 1);
      TotalOneMore(Seconds(f), k - 1);
    }
  }

  lemma SecondIs(b: seq<Byte>, f: Fields, k: nat)
    requires Shaped(f) && k < |f.second|
    ensures SecondAt(f.mode) >= 0
    ensures SecondIndex(b, f.mode, k) == Field(b, SecondAt(f.mode) + Total(Seconds(f)[..k]), Seconds(f)[k].width)
    ensures Seconds(f)[k].value == f.second[k]
  {
    hide Field, Total, SecondAt, ModeOf;
    EveryBitCounts(f.mode);
    SecondAtLeast(f.mode);
    SecondWidths(f, k);
    TotalSeconds(f, k);
  }

  lemma SecondAtLeast(n: nat)
    ensures SecondAt(n) >= 0
  {
  }

  lemma TotalOfSeconds(f: Fields)
    requires Shaped(f)
    ensures Total(Seconds(f)) == EndOf(f.mode) - SecondAt(f.mode)
  {
    hide Total, SecondAt, EndOf, ModeOf;
    Starts(f.mode);
    TotalSeconds(f, |f.second|);
    assert Seconds(f)[..|f.second|] == Seconds(f);
  }

  lemma SecondsIff(b: seq<Byte>, f: Fields)
    requires Shaped(f)
    ensures Total(Seconds(f)) == EndOf(f.mode) - SecondAt(f.mode) && SecondAt(f.mode) >= 0
    ensures Holds(b, SecondAt(f.mode), Seconds(f)) <==>
            forall k: nat :: k < |f.second| ==> SecondIndex(b, f.mode, k) == f.second[k]
  {
    hide Field, Holds, Total, SecondAt, EndOf, ModeOf, SecondIndex, Seconds;
    SecondAtLeast(f.mode);
    TotalOfSeconds(f);
    var parts := Seconds(f);
    HoldsIff(b, SecondAt(f.mode), parts);
    forall k: nat | k < |f.second|
      ensures SecondIndex(b, f.mode, k) == Field(b, SecondAt(f.mode) + Total(parts[..k]), parts[k].width)
      ensures parts[k].value == f.second[k]
    {
      SecondIs(b, f, k);
    }
  }

  /** The fields that the decoder takes from a block. */
  ghost predicate Says(b: seq<Byte>, f: Fields)
    requires Shaped(f)
  {
    var n := f.mode;
    && (forall j :: 0 <= j < n ==> Bit(b, j) == 0) && Bit(b, n) == 1
    && PartitionOf(b, n) == f.part && RotationOf(b, n) == f.rotation && SelectOf(b, n) == f.select
    && ColoursAre(b, n, f.stored)
    && (forall e: nat :: e < ModeOf(n).Endpoints() ==> Stored(b, n, 3, e) == f.stored[3][e])
    && (forall i :: 0 <= i < |f.parity| ==> Field(b, ParityAt(n) + i, 1) == f.parity[i])
    && (forall k :: 0 <= k < 16 ==> FirstIndex(b, n, k) == f.first[k])
    && (forall k: nat :: k < |f.second| ==> SecondIndex(b, n, k) == f.second[k])
  }

  /** A block holds the fields one behind the other, in 128 bits, exactly when they are what the decoder takes from it. */
  lemma SaysIff(b: seq<Byte>, f: Fields)
    requires Shaped(f)
    ensures Total(Parts(f)) == 128
    ensures Holds(b, 0, Parts(f)) <==> Says(b, f)
  {
    hide Field, Holds, Total, Header, Firsts, Seconds, ColourAt, AlphaAt, ParityAt, IndexAt, SecondAt, EndOf, Bit, ColoursAre;
    hide PartitionOf, RotationOf, SelectOf, Stored, FirstIndex, SecondIndex, ModeOf, Same;
    var n, m := f.mode, ModeOf(f.mode);
    HeaderIff(b, f);
    ColoursIff(b, f);
    AlphasIff(b, f);
    ParitiesIff(b, f);
    SecondsIff(b, f);
    EveryBitCounts(n);
    TotalOfFirsts(f);
    if PartitionOf(b, n) == f.part {
      FirstsIff(b, f);
    }
    SixSums(b, Header(f), Same(f.stored[0] + f.stored[1] + f.stored[2], m.colourBits), Same(f.stored[3], m.alphaBits),
            Same(f.parity, 1), Firsts(f), Seconds(f));
  }

  lemma TotalOfFirsts(f: Fields)
    requires Shaped(f)
    ensures Total(Firsts(f)) == SecondAt(f.mode) - IndexAt(f.mode)
  {
    hide Total, IndexAt, ModeOf, AnchorsBefore;
    Starts(f.mode);
    TotalFirsts(f, 16);
    AllAnchors(ModeOf(f.mode), f.part);
    assert Firsts(f)[..16] == Firsts(f);
  }

  lemma SixSums(b: seq<Byte>, p: seq<Part>, q: seq<Part>, r: seq<Part>, s: seq<Part>, t: seq<Part>, u: seq<Part>)
    ensures var q', r', s' := Total(p), Total(p) + Total(q), Total(p) + Total(q) + Total(r);
            var t', u' := s' + Total(s), s' + Total(s) + Total(t);
            && Total(p + q + r + s + t + u) == u' + Total(u)
            && (Holds(b, 0, p + q + r + s + t + u) <==>
                  && Holds(b, 0, p) && Holds(b, q', q) && Holds(b, r', r) && Holds(b, s', s)
                  && Holds(b, t', t) && Holds(b, u', u))
  {
    hide Holds, Total;
    HoldsSum(b, 0, p, q);
    HoldsSum(b, 0, p + q, r);
    HoldsSum(b, 0, p + q + r, s);
    HoldsSum(b, 0, p + q + r + s, t);
    HoldsSum(b, 0, p + q + r + s + t, u);
  }

  // ---- writing a block and reading it ----

  ghost predicate Encodes(b: seq<Byte>, f: Fields) {
    Shaped(f) && Holds(b, 0, Parts(f))
  }

  /** Any fields that fit their widths can be written, in sixteen bytes that hold them. */
  lemma BlockOf(f: Fields)
    requires Shaped(f) && Fits(Parts(f))
    ensures |Written(Parts(f))| == 128 && |Packed(Written(Parts(f)))| == 16
    ensures Encodes(Packed(Written(Parts(f))), f)
  {
    hide Packed, Parts, Shaped, Bit;
    var parts := Parts(f);
    SaysIff([], f);
    var bits := Written(parts);
    forall i | 0 <= i < 128
      ensures Bit(Packed(bits), 0 + i) == bits[i]
    {
      BitOfPacked(bits, i);
    }
    WrittenHolds(Packed(bits), 0, parts);
  }

  /** Blocks that hold the same fields have the same bits. */
  lemma SameFields(a: seq<Byte>, b: seq<Byte>, f: Fields)
    requires Encodes(a, f) && Encodes(b, f)
    ensures SameBits(a, b)
  {
    hide Bit, Holds, Parts, Shaped;
    SaysIff(a, f);
    forall i | 0 <= i < 128
      ensures Bit(a, i) == Bit(b, i)
    {
      HeldBits(a, 0, Parts(f), i);
      HeldBits(b, 0, Parts(f), i);
      assert 0 + i == i;
    }
  }

  function TakenParities(b: seq<Byte>, n: nat): (parity: seq<nat>)
    ensures |parity| == ModeOf(n).Parities()
    ensures forall i :: 0 <= i < |parity| ==> parity[i] == Field(b, ParityAt(n) + i, 1)
  {
    seq<nat>(ModeOf(n).Parities(), i requires 0 <= i => Field(b, ParityAt(n) + i, 1))
  }

  function Taken(b: seq<Byte>): (f: Fields)
    requires ModeFrom(b, 0) < 8
    ensures Shaped(f)
  {
    var n := ModeFrom(b, 0);
    var m := ModeOf(n);
    Fields(n, PartitionOf(b, n), RotationOf(b, n), SelectOf(b, n),
           seq(4, c requires 0 <= c < 4 => seq(m.Endpoints(), e requires 0 <= e < m.Endpoints() => Stored(b, n, c, e))),
           TakenParities(b, n),
           seq(16, k requires 0 <= k < 16 => FirstIndex(b, n, k)),
           seq(if m.secondBits > 0 then 16 else 0, k requires 0 <= k < 16 => SecondIndex(b, n, k)))
  }

  /** Every block with a mode is some fields written out. */
  lemma EveryBlock(b: seq<Byte>)
    requires ModeFrom(b, 0) < 8
    ensures Encodes(b, Taken(b))
  {
    hide Field, ModeOf, PartitionOf, RotationOf, SelectOf, Stored, FirstIndex, SecondIndex, ParityAt, Parts, Holds;
    SaysIff(b, Taken(b));
  }

  lemma {:induction false} ModeIsFirst(b: seq<Byte>, i: nat, n: nat)
    requires i <= n < 8 && (forall j :: 0 <= j < n ==> Bit(b, j) == 0) && Bit(b, n) == 1
    ensures ModeFrom(b, i) == n
    decreases n - i
  {
    hide Bit;
    if i < n {
      ModeIsFirst(b, i + 1, n);
    }
  }

  // ---- what is shown ----

  function At(p: Rgba, c: nat): int {
    match c case 0 => p.r case 1 => p.g case 2 => p.b case _ => p.a
  }

  /** The channel that is shown as channel c: alpha and colour r - 1 change places. */
  function From(f: Fields, c: nat): (d: nat)
    requires f.rotation < 4 && c < 4
    ensures d < 4
  {
    if f.rotation > 0 && c == 3 then f.rotation - 1 else if f.rotation == c + 1 then 3 else c
  }

  /** Channel c of an endpoint, in eight bits. */
  function Wide(f: Fields, c: nat, e: nat): nat
    requires Shaped(f) && c < 4 && e < ModeOf(f.mode).Endpoints()
  {
    var m := ModeOf(f.mode);
    var bits := if c < 3 then m.colourBits else m.alphaBits;
    if bits == 0 then 255
    else if m.kind == 0 then Unquantised(f.stored[c][e], bits)
    else Unquantised(2 * f.stored[c][e] + f.parity[if m.kind == 1 then e / 2 else e], bits + 1)
  }

  /** The index that blends channel c of pixel k, and its width: with two sets the second is alpha's, or with select colour's. */
  function Index(f: Fields, c: nat, k: nat): Part
    requires Shaped(f) && c < 4 && k < 16
  {
    var m := ModeOf(f.mode);
    if m.secondBits > 0 && (c == 3 <==> f.select == 0) then Part(f.second[k], m.secondBits) else Part(f.first[k], m.indexBits)
  }

  lemma SubsetFits(f: Fields, k: nat)
    requires f.mode < 8 && k < 16
    ensures 2 * Subset(ModeOf(f.mode), f.part, k) + 1 < ModeOf(f.mode).Endpoints()
  {
  }

  lemma BlendedIs(b: seq<Byte>, f: Fields, c: nat, k: nat)
    requires Encodes(b, f) && c < 4 && k < 16
    ensures var s := Subset(ModeOf(f.mode), f.part, k);
            && 2 * s + 1 < ModeOf(f.mode).Endpoints()
            && Blended(b, f.mode, k, c) == Interpolated(Wide(f, c, 2 * s), Wide(f, c, 2 * s + 1),
                                                        Weight(Index(f, c, k).width, Index(f, c, k).value))
  {
    hide *;
    EncodesSays(b, f);
    SubsetFits(f, k);
    var s := Subset(ModeOf(f.mode), f.part, k);
    WideIs(b, f, c, 2 * s);
    WideIs(b, f, c, 2 * s + 1);
    BlendFrom(b, f, c, k);
  }

  lemma EncodesSays(b: seq<Byte>, f: Fields)
    requires Encodes(b, f)
    ensures Shaped(f) && f.mode < 8 && Says(b, f)
  {
    hide Says, Holds, Parts, ModeOf;
    SaysIff(b, f);
  }

  lemma BlendFrom(b: seq<Byte>, f: Fields, c: nat, k: nat)
    requires Shaped(f) && Says(b, f) && c < 4 && k < 16
    ensures var s := Subset(ModeOf(f.mode), f.part, k);
            Blended(b, f.mode, k, c) ==
            Interpolated(Channel(b, f.mode, c, 2 * s), Channel(b, f.mode, c, 2 * s + 1),
                         Weight(Index(f, c, k).width, Index(f, c, k).value))
  {
    hide ModeOf, Field, Subset, Channel, Interpolated, Weight, ColoursAre, Stored, Bit, RotationOf, ParityAt, FirstIndex, SecondIndex;
  }

  lemma WideIs(b: seq<Byte>, f: Fields, c: nat, e: nat)
    requires Shaped(f) && Says(b, f) && c < 4 && e < ModeOf(f.mode).Endpoints()
    ensures Channel(b, f.mode, c, e) == Wide(f, c, e)
  {
    StoredIs(b, f, c, e);
    ParityIs(b, f, e);
    ColourHasBits(f.mode);
    hide ModeOf, Stored, Unquantised, Parity, Says;
  }

  lemma ColourHasBits(n: nat)
    ensures ModeOf(n).colourBits > 0 && (ModeOf(n).alphaBits == 0 || ModeOf(n).alphaBits > 0)
  {
  }

  lemma StoredIs(b: seq<Byte>, f: Fields, c: nat, e: nat)
    requires Shaped(f) && Says(b, f) && c < 4 && e < ModeOf(f.mode).Endpoints()
    ensures Stored(b, f.mode, c, e) == f.stored[c][e]
  {
    hide ModeOf, Stored;
  }

  lemma ParityIs(b: seq<Byte>, f: Fields, e: nat)
    requires Shaped(f) && Says(b, f) && e < ModeOf(f.mode).Endpoints()
    ensures ModeOf(f.mode).kind == 1 ==> e / 2 < |f.parity| && Parity(b, f.mode, e) == f.parity[e / 2]
    ensures ModeOf(f.mode).kind > 1 ==> e < |f.parity| && Parity(b, f.mode, e) == f.parity[e]
  {
    hide Stored, Field, ParityAt;
  }

  /** Every channel shown is the blend of the written endpoints of the pixel's subset, by the written index. */
  lemma ShowsFields(b: seq<Byte>, f: Fields, k: nat, c: nat)
    requires Encodes(b, f) && k < 16 && c < 4
    ensures Shaped(f) && f.rotation < 4
    ensures var d, s := From(f, c), Subset(ModeOf(f.mode), f.part, k);
            && 2 * s + 1 < ModeOf(f.mode).Endpoints()
            && At(Texel(b, k), c) == Interpolated(Wide(f, d, 2 * s), Wide(f, d, 2 * s + 1),
                                                  Weight(Index(f, d, k).width, Index(f, d, k).value))
  {
    TexelIs(b, f, k, c);
    hide *;
    BlendedIs(b, f, From(f, c), k);
  }

  lemma TexelIs(b: seq<Byte>, f: Fields, k: nat, c: nat)
    requires Encodes(b, f) && k < 16 && c < 4
    ensures f.rotation < 4 && At(Texel(b, k), c) == Blended(b, f.mode, k, From(f, c))
  {
    hide ModeOf, Field, Parts, Holds, Blended, Shaped;
    SaysIff(b, f);
    SaysHeader(b, f);
    hide Says;
    ModeIsFirst(b, 0, f.mode);
    RotationFits(b, f.mode);
  }

  lemma SaysHeader(b: seq<Byte>, f: Fields)
    requires Shaped(f) && Says(b, f)
    ensures f.mode < 8 && (forall j :: 0 <= j < f.mode ==> Bit(b, j) == 0) && Bit(b, f.mode) == 1
    ensures RotationOf(b, f.mode) == f.rotation
  {
    hide Bit, RotationOf;
  }

  lemma RotationFits(b: seq<Byte>, n: nat)
    ensures RotationOf(b, n) < 4
  {
    assert ModeOf(n).rotationBits <= 2 && Pow2(2) == 4 && Pow2(0) == 1;
  }

  /** The lowest index shows the subset's first endpoint, the highest its second one. */
  lemma EndsShow(b: seq<Byte>, f: Fields, k: nat, c: nat)
    requires Encodes(b, f) && k < 16 && c < 4
    ensures Shaped(f) && f.rotation < 4
    ensures var d, s := From(f, c), Subset(ModeOf(f.mode), f.part, k);
            && 2 * s + 1 < ModeOf(f.mode).Endpoints()
            && (Index(f, d, k).value == 0 ==> At(Texel(b, k), c) == Wide(f, d, 2 * s))
            && (Index(f, d, k).value == Pow2(Index(f, d, k).width) - 1 ==> At(Texel(b, k), c) == Wide(f, d, 2 * s + 1))
  {
    hide *;
    ShowsFields(b, f, k, c);
    var d, s := From(f, c), Subset(ModeOf(f.mode), f.part, k);
    var i := Index(f, d, k);
    BlendStaysBetween(Wide(f, d, 2 * s), Wide(f, d, 2 * s + 1), 0);
    BlendStaysBetween(Wide(f, d, 2 * s), Wide(f, d, 2 * s + 1), 64);
    IndexBits(f, d, k);
    EndWeights(i.width);
  }

  lemma IndexBits(f: Fields, c: nat, k: nat)
    requires Shaped(f) && c < 4 && k < 16
    ensures 2 <= Index(f, c, k).width <= 4
  {
  }

  lemma EndWeights(bits: nat)
    requires 2 <= bits <= 4
    ensures Weight(bits, 0) == 0 && Weight(bits, Pow2(bits) - 1) == 64
  {
    WeightsMirror(bits, 0);
  }

  lemma ShownOnce(a: seq<Byte>, b: seq<Byte>, f: Fields, k: nat, c: nat)
    requires Encodes(a, f) && Encodes(b, f.(rotation := 0)) && k < 16 && c < 4
    ensures f.rotation < 4 && At(Texel(a, k), c) == At(Texel(b, k), From(f, c))
  {
    hide *;
    var g := f.(rotation := 0);
    ShowsFields(a, f, k, c);
    ShowsFields(b, g, k, From(f, c));
    SameShown(f, g, From(f, c), k);
  }

  /** A block that differs in nothing but its rotation shows alpha and the rotation's colour exchanged. */
  lemma RotationExchanges(a: seq<Byte>, b: seq<Byte>, f: Fields, k: nat)
    requires Encodes(a, f) && Encodes(b, f.(rotation := 0)) && f.rotation > 0 && k < 16
    ensures var p, q := Texel(a, k), Texel(b, k);
            && (f.rotation == 1 ==> p == Rgba(q.a, q.g, q.b, q.r))
            && (f.rotation == 2 ==> p == Rgba(q.r, q.a, q.b, q.g))
            && (f.rotation == 3 ==> p == Rgba(q.r, q.g, q.a, q.b))
            && f.rotation < 4 && (f.mode == 4 || f.mode == 5)
  {
    OnlyTwoRotate(a, f);
    hide Texel, Encodes;
    ShownOnce(a, b, f, k, 0);
    ShownOnce(a, b, f, k, 1);
    ShownOnce(a, b, f, k, 2);
    ShownOnce(a, b, f, k, 3);
  }

  lemma OnlyTwoRotate(b: seq<Byte>, f: Fields)
    requires Encodes(b, f) && f.rotation > 0
    ensures f.mode == 4 || f.mode == 5
  {
    SaysIff(b, f);
    assert Pow2(0) == 1;
    hide Parts, Holds;
  }

  lemma SameShown(f: Fields, g: Fields, c: nat, k: nat)
    requires Shaped(f) && g == f.(rotation := 0) && c < 4 && k < 16
    ensures From(g, c) == c && Index(g, c, k) == Index(f, c, k)
    ensures forall e: nat :: e < ModeOf(f.mode).Endpoints() ==> Wide(g, c, e) == Wide(f, c, e)
  {
    hide ModeOf, Unquantised;
  }

  // ---- the numbers themselves ----

  /** Where the sections of each mode begin: partition or rotation, colours, alpha, parities, indices, second indices. */
  lemma LayoutIs()
    ensures ColourAt(0) == 5 && ParityAt(0) == 77 && IndexAt(0) == 83
    ensures ColourAt(1) == 8 && ParityAt(1) == 80 && IndexAt(1) == 82
    ensures ColourAt(2) == 9 && IndexAt(2) == 99
    ensures ColourAt(3) == 10 && ParityAt(3) == 94 && IndexAt(3) == 98
    ensures ColourAt(4) == 8 && AlphaAt(4) == 38 && IndexAt(4) == 50 && SecondAt(4) == 81
    ensures ColourAt(5) == 8 && AlphaAt(5) == 50 && IndexAt(5) == 66 && SecondAt(5) == 97
    ensures ColourAt(6) == 7 && AlphaAt(6) == 49 && ParityAt(6) == 63 && IndexAt(6) == 65
    ensures ColourAt(7) == 14 && AlphaAt(7) == 74 && ParityAt(7) == 94 && IndexAt(7) == 98
    ensures ModeOf(4).rotationBits == 2 && ModeOf(4).selectBits == 1 && ModeOf(5).rotationBits == 2
  {
  }

  /** A weight is the nearest 64th of the index's share of the way. */
  lemma WeightIsNearest(bits: nat, i: nat)
    requires 2 <= bits <= 4 && i < Pow2(bits)
    ensures var steps := if bits == 2 then 3 else if bits == 3 then 7 else 15;
            -steps < 2 * (steps * Weight(bits, i) - 64 * i) < steps
  {
    assert Pow2(2) == 4 && Pow2(3) == 8 && Pow2(4) == 16;
  }

  /** A blend is the nearest number to the weighted mean, the upper of two. */
  lemma BlendIsNearest(a: nat, b: nat, w: nat)
    requires w <= 64
    ensures -32 < 64 * Interpolated(a, b, w) - (a * (64 - w) + b * w) <= 32
  {
  }

  /** A widened value has the stored value for its high bits, and its own high bits repeated below them. */
  lemma WideRepeats(v: nat, bits: nat)
    requires 5 <= bits <= 8 && v < Pow2(bits)
    ensures Unquantised(v, bits) / Pow2(8 - bits) == v
    ensures Unquantised(v, bits) % Pow2(8 - bits) == Unquantised(v, bits) / Pow2(bits)
  {
    Powers();
    hide Pow2;
    if bits == 5 {
      RepeatsFive(v);
    } else if bits == 6 {
      RepeatsSix(v);
    } else if bits == 7 {
      RepeatsSeven(v);
    }
  }

  lemma RepeatsFive(v: nat)
    requires v < 32
    ensures (v * 8 + v * 8 / 32) / 8 == v && (v * 8 + v * 8 / 32) % 8 == (v * 8 + v * 8 / 32) / 32
  {
    var high, low := v / 4, v % 4;
    DivUnique(v * 8, 32, high, 8 * low);
    DivUnique(v * 8 + high, 8, v, high);
    DivUnique(v * 8 + high, 32, high, 8 * low + high);
  }

  lemma RepeatsSix(v: nat)
    requires v < 64
    ensures (v * 4 + v * 4 / 64) / 4 == v && (v * 4 + v * 4 / 64) % 4 == (v * 4 + v * 4 / 64) / 64
  {
    var high, low := v / 16, v % 16;
    DivUnique(v * 4, 64, high, 4 * low);
    DivUnique(v * 4 + high, 4, v, high);
    DivUnique(v * 4 + high, 64, high, 4 * low + high);
  }

  lemma RepeatsSeven(v: nat)
    requires v < 128
    ensures (v * 2 + v * 2 / 128) / 2 == v && (v * 2 + v * 2 / 128) % 2 == (v * 2 + v * 2 / 128) / 128
  {
    var high, low := v / 64, v % 64;
    DivUnique(v * 2, 128, high, 2 * low);
    DivUnique(v * 2 + high, 2, v, high);
    DivUnique(v * 2 + high, 128, high, 2 * low + high);
  }

  lemma Powers()
    ensures Pow2(0) == 1 && Pow2(1) == 2 && Pow2(2) == 4 && Pow2(3) == 8
    ensures Pow2(4) == 16 && Pow2(5) == 32 && Pow2(6) == 64 && Pow2(7) == 128 && Pow2(8) == 256
  {
    assert Pow2(3) == 8 && Pow2(6) == 8 * Pow2(3);
  }
}
