/**
 The AAS payload: parsing, writing, and the growth of one lump
 (src/backend/aas_edit.c:25-75, 110-180, 185-325, 358-402; constants in
 src/backend/navmesh.h:53-62).
 */
module AasPayload {
  import opened Division
  import opened Octets

  const HEADER: nat := 30
  const SETTINGS: nat := 364
  const PREAMBLE: nat := 394
  const LUMPS: nat := 22
  const MAX_AREAS: nat := 0xFFFE
  const MAX_RECORDS: nat := 0x100_0000

  const AREAS: nat := 5
  const CLUSTERS: nat := 9
  const AREA_BOUNDS: nat := 21

  /** Record sizes, in the order of the file. */
  function RecordSize(i: nat): (n: nat)
    ensures n > 0
  {
    match i
    case 0 => 16 case 1 => 12 case 2 => 12 case 3 => 4 case 4 => 40 case 5 => 44 case 6 => 16
    case 7 => 12 case 8 => 4 case 9 => 16 case 10 => 1 case 11 => 132 case 12 => 128 case 13 => 128
    case 14 => 128 case 15 => 56 case 16 => 4 case 17 => 4 case 18 => 60 case 19 => 24 case 20 => 24
    case _ => 12
  }

  /** "2SAA", then version 3.29. */
  const MAGIC: seq<Byte> := [0x32, 0x53, 0x41, 0x41]
  const MAJOR: Byte := 3
  const MINOR: Byte := 29

  // ---- big-endian words ----

  function GetU32(b: seq<Byte>): (v: nat)
    requires |b| == 4
    ensures v < 0x1_0000_0000
  {
    (b[0] as int) * 0x100_0000 + (b[1] as int) * 0x1_0000 + (b[2] as int) * 0x100 + b[3] as int
  }

  /** The four bytes of a word. */
  lemma Digits(v: nat)
    requires v < 0x1_0000_0000
    ensures v / 0x100_0000 < 0x100
    ensures v == (v / 0x100_0000) * 0x100_0000 + (v / 0x1_0000 % 0x100) * 0x1_0000 + (v / 0x100 % 0x100) * 0x100 + v % 0x100
  {
    var a, b := v / 0x100, v / 0x1_0000;
    assert b == a / 0x100;
    assert v / 0x100_0000 == b / 0x100;
  }

  function PutU32(v: nat): (b: seq<Byte>)
    requires v < 0x1_0000_0000
    ensures |b| == 4 && GetU32(b) == v
  {
    Digits(v);
    [(v / 0x100_0000) as Byte, (v / 0x1_0000 % 0x100) as Byte, (v / 0x100 % 0x100) as Byte, (v % 0x100) as Byte]
  }

  /** Reading a word back and writing it gives the same four bytes. */
  lemma PutOfGet(b: seq<Byte>)
    requires |b| == 4
    ensures PutU32(GetU32(b)) == b
  {
    var v := GetU32(b);
    var b0, b1, b2, b3 := b[0] as int, b[1] as int, b[2] as int, b[3] as int;
    DivUnique(v, 0x100_0000, b0, b1 * 0x1_0000 + b2 * 0x100 + b3);
    DivUnique(v, 0x1_0000, b0 * 0x100 + b1, b2 * 0x100 + b3);
    DivUnique(v, 0x100, b0 * 0x1_0000 + b1 * 0x100 + b2, b3);
    DivUnique(b0 * 0x100 + b1, 0x100, b0, b1);
    DivUnique(b0 * 0x1_0000 + b1 * 0x100 + b2, 0x100, b0 * 0x100 + b1, b2);
  }

  // ---- the model ----

  /** Each lump's bytes, verbatim. */
  datatype Aas = Aas(header: seq<Byte>, settings: seq<Byte>, lumps: seq<seq<Byte>>)

  datatype Error = TooBig | TooSmall | BadMagic | BadVersion | BadLump(lump: nat) | Trailing
                 | TooManyAreas | TooManyClusters | BoundsMismatch

  datatype Result<T> = Ok(value: T) | Err(error: Error)

  function Count(a: seq<seq<Byte>>, i: nat): nat
    requires i < LUMPS && i < |a|
  {
    |a[i]| / RecordSize(i)
  }

  /** Whole records, and no more than a lump may hold. */
  predicate LumpOk(i: nat, b: seq<Byte>)
    requires i < LUMPS
  {
    |b| % RecordSize(i) == 0 && |b| / RecordSize(i) <= MAX_RECORDS
  }

  /** The lumps, the first of which is number i. */
  predicate LumpsOk(i: nat, lumps: seq<seq<Byte>>)
    requires i + |lumps| <= LUMPS
  {
    forall k :: 0 <= k < |lumps| ==> LumpOk(i + k, lumps[k])
  }

  /** What the count relationships ask for. */
  function Related(lumps: seq<seq<Byte>>): Result<()>
    requires |lumps| == LUMPS
  {
    if Count(lumps, AREAS) > MAX_AREAS then Err(TooManyAreas)
    else if Count(lumps, CLUSTERS) > 0xFFFF then Err(TooManyClusters)
    else if Count(lumps, AREA_BOUNDS) != Count(lumps, AREAS) then Err(BoundsMismatch)
    else Ok(())
  }

  /** One lump: its count, then its records. */
  function WriteLump(i: nat, b: seq<Byte>): (r: seq<Byte>)
    requires i < LUMPS && LumpOk(i, b)
    ensures |r| == 4 + |b|
  {
    PutU32(|b| / RecordSize(i)) + b
  }

  /** The lumps, the first of which is number i. */
  function WriteFrom(i: nat, lumps: seq<seq<Byte>>): (r: seq<Byte>)
    requires i + |lumps| == LUMPS && LumpsOk(i, lumps)
    ensures |r| >= 4 * |lumps|
    decreases |lumps|
  {
    if lumps == [] then [] else
      assert LumpOk(i + 0, lumps[0]);
      assert LumpsOk(i + 1, lumps[1..]) by { LumpsBehind(i, lumps); }
      WriteLump(i, lumps[0]) + WriteFrom(i + 1, lumps[1..])
  }

  lemma LumpsBehind(i: nat, lumps: seq<seq<Byte>>)
    requires i + |lumps| <= LUMPS && LumpsOk(i, lumps) && lumps != []
    ensures LumpsOk(i + 1, lumps[1..])
  {
    forall k | 0 <= k < |lumps| - 1 ensures LumpOk(i + 1 + k, lumps[1..][k]) {
      assert LumpOk(i + (k + 1), lumps[k + 1]);
    }
  }

  predicate WellFormed(a: Aas) {
    && |a.header| == HEADER && |a.settings| == SETTINGS && |a.lumps| == LUMPS
    && LumpsOk(0, a.lumps)
  }

  function Write(a: Aas): seq<Byte>
    requires WellFormed(a)
  {
    a.header + a.settings + WriteFrom(0, a.lumps)
  }

  /** Lump i at the front of the bytes, and the bytes behind it. */
  function ReadLump(rest: seq<Byte>, i: nat): (r: Result<(seq<Byte>, seq<Byte>)>)
    requires i < LUMPS
    ensures r.Ok? ==> LumpOk(i, r.value.0) && 4 + |r.value.0| <= |rest| && r.value.1 == rest[4 + |r.value.0|..]
  {
    if |rest| < 4 then Err(BadLump(i))
    else
      var count := GetU32(rest[..4]);
      var size := count * RecordSize(i);
      if count > MAX_RECORDS || size > |rest| - 4 then Err(BadLump(i))
      else
        assert size % RecordSize(i) == 0 && size / RecordSize(i) == count by {
          DivUnique(size, RecordSize(i), count, 0);
        }
        Ok((rest[4..4 + size], rest[4 + size..]))
  }

  /** The lumps from number i on; Trailing when bytes are left over. */
  function ParseFrom(rest: seq<Byte>, i: nat): (r: Result<seq<seq<Byte>>>)
    requires i <= LUMPS
    ensures r.Ok? ==> |r.value| == LUMPS - i && LumpsOk(i, r.value)
    decreases LUMPS - i
  {
    if i == LUMPS then if rest == [] then Ok([]) else Err(Trailing)
    else
      match ReadLump(rest, i)
      case Err(e) => Err(e)
      case Ok((lump, behind)) =>
        assert ParseFrom(behind, i + 1).Ok? ==> LumpsOk(i, [lump] + ParseFrom(behind, i + 1).value) by {
          if ParseFrom(behind, i + 1).Ok? {
            LumpsOnto(i, lump, ParseFrom(behind, i + 1).value);
          }
        }
        Onto([lump], ParseFrom(behind, i + 1))
  }

  lemma LumpsOnto(i: nat, lump: seq<Byte>, more: seq<seq<Byte>>)
    requires i + 1 + |more| <= LUMPS && LumpOk(i, lump) && LumpsOk(i + 1, more)
    ensures LumpsOk(i, [lump] + more)
  {
    forall k | 0 <= k < 1 + |more| ensures LumpOk(i + k, ([lump] + more)[k]) {
      if k > 0 {
        assert LumpOk(i + 1 + (k - 1), more[k - 1]);
      }
    }
  }

  function Onto(done: seq<seq<Byte>>, rest: Result<seq<seq<Byte>>>): (r: Result<seq<seq<Byte>>>)
    ensures rest.Ok? ==> r == Ok(done + rest.value)
    ensures rest.Err? ==> r == rest
  {
    match rest
    case Err(e) => Err(e)
    case Ok(more) => Ok(done + more)
  }

  /** The checks before the lumps. */
  function CheckPreamble(bytes: seq<Byte>, cap: nat): (r: Result<()>)
    ensures r.Ok? ==> PREAMBLE <= |bytes| <= cap
  {
    if |bytes| > cap then Err(TooBig)
    else if |bytes| < PREAMBLE + LUMPS * 4 then Err(TooSmall)
    else if bytes[..4] != MAGIC then Err(BadMagic)
    else if bytes[4] != MAJOR || bytes[5] != MINOR then Err(BadVersion)
    else Ok(())
  }

  /** sh_aas_parse with a payload cap. */
  function Parse(bytes: seq<Byte>, cap: nat): (r: Result<Aas>)
    ensures r.Ok? ==> WellFormed(r.value)
  {
    match CheckPreamble(bytes, cap)
    case Err(e) => Err(e)
    case Ok(_) =>
      match ParseFrom(bytes[PREAMBLE..], 0)
      case Err(e) => Err(e)
      case Ok(lumps) =>
        match Related(lumps)
        case Err(e) => Err(e)
        case Ok(_) => Ok(Aas(bytes[..HEADER], bytes[HEADER..PREAMBLE], lumps))
  }

  // ---- round trips ----

  lemma WriteOfRead(rest: seq<Byte>, i: nat)
    requires i < LUMPS && ReadLump(rest, i).Ok?
    ensures var (lump, behind) := ReadLump(rest, i).value; WriteLump(i, lump) + behind == rest
  {
    var count := GetU32(rest[..4]);
    var size := count * RecordSize(i);
    DivUnique(size, RecordSize(i), count, 0);
    PutOfGet(rest[..4]);
    hide GetU32, PutU32, RecordSize;
    assert rest == rest[..4] + rest[4..4 + size] + rest[4 + size..];
  }

  lemma ReadOfWrite(i: nat, lump: seq<Byte>, behind: seq<Byte>)
    requires i < LUMPS && LumpOk(i, lump)
    ensures ReadLump(WriteLump(i, lump) + behind, i) == Ok((lump, behind))
  {
    var rest, count := WriteLump(i, lump) + behind, |lump| / RecordSize(i);
    assert |lump| == count * RecordSize(i) + |lump| % RecordSize(i);
    hide GetU32, RecordSize;
    assert rest[..4] == PutU32(count) && rest[4..4 + |lump|] == lump && rest[4 + |lump|..] == behind;
  }

  lemma ParseStep(rest: seq<Byte>, i: nat)
    requires i < LUMPS
    ensures ReadLump(rest, i).Err? ==> ParseFrom(rest, i) == Err(ReadLump(rest, i).error)
    ensures ReadLump(rest, i).Ok? ==>
      ParseFrom(rest, i) == Onto([ReadLump(rest, i).value.0], ParseFrom(ReadLump(rest, i).value.1, i + 1))
  {
    hide ReadLump, Onto;
  }

  lemma WriteStep(i: nat, lump: seq<Byte>, more: seq<seq<Byte>>)
    requires i + 1 + |more| == LUMPS && LumpOk(i, lump) && LumpsOk(i + 1, more)
    ensures LumpsOk(i, [lump] + more)
    ensures WriteFrom(i, [lump] + more) == WriteLump(i, lump) + WriteFrom(i + 1, more)
  {
    LumpsOnto(i, lump, more);
    hide WriteLump, LumpOk, LumpsOk;
    assert ([lump] + more)[1..] == more;
  }

  lemma {:induction false} WriteOfParse(rest: seq<Byte>, i: nat)
    requires i <= LUMPS && ParseFrom(rest, i).Ok?
    ensures WriteFrom(i, ParseFrom(rest, i).value) == rest
    decreases LUMPS - i
  {
    hide *;
    if i < LUMPS {
      ParseStep(rest, i);
      var (lump, behind) := ReadLump(rest, i).value;
      WriteOfRead(rest, i);
      WriteOfParse(behind, i + 1);
      WriteStep(i, lump, ParseFrom(behind, i + 1).value);
    } else {
      WriteNothing(rest);
    }
  }

  lemma WriteNothing(rest: seq<Byte>)
    requires ParseFrom(rest, LUMPS).Ok?
    ensures WriteFrom(LUMPS, ParseFrom(rest, LUMPS).value) == rest
  {
  }

  lemma NothingWritten(i: nat)
    ensures i == LUMPS ==> ParseFrom(WriteFrom(i, []), i) == Ok([])
  {
  }

  lemma FirstLump(i: nat, lumps: seq<seq<Byte>>)
    requires i + |lumps| <= LUMPS && LumpsOk(i, lumps) && lumps != []
    ensures LumpOk(i, lumps[0]) && lumps == [lumps[0]] + lumps[1..]
  {
    assert LumpOk(i + 0, lumps[0]);
  }

  lemma {:induction false} ParseOfWrite(i: nat, lumps: seq<seq<Byte>>)
    requires i + |lumps| == LUMPS && LumpsOk(i, lumps)
    ensures ParseFrom(WriteFrom(i, lumps), i) == Ok(lumps)
    decreases |lumps|
  {
    hide *;
    if lumps == [] {
      NothingWritten(i);
    } else {
      var lump, more := lumps[0], lumps[1..];
      FirstLump(i, lumps);
      LumpsBehind(i, lumps);
      WriteStep(i, lump, more);
      ReadOfWrite(i, lump, WriteFrom(i + 1, more));
      ParseStep(WriteFrom(i, lumps), i);
      ParseOfWrite(i + 1, more);
    }
  }

  /** What an accepted payload has passed. */
  lemma ParsedParts(bytes: seq<Byte>, cap: nat)
    requires Parse(bytes, cap).Ok?
    ensures CheckPreamble(bytes, cap).Ok?
    ensures var a := Parse(bytes, cap).value;
            && a.header == bytes[..HEADER] && a.settings == bytes[HEADER..PREAMBLE]
            && ParseFrom(bytes[PREAMBLE..], 0) == Ok(a.lumps) && Related(a.lumps).Ok?
  {
    hide CheckPreamble, ParseFrom, Related;
  }

  /** Writing an accepted payload's model reproduces it byte for byte. */
  lemma WriteParseRoundTrip(bytes: seq<Byte>, cap: nat)
    requires Parse(bytes, cap).Ok?
    ensures Write(Parse(bytes, cap).value) == bytes
  {
    hide Parse, CheckPreamble, ParseFrom, WriteFrom, Related;
    ParsedParts(bytes, cap);
    WriteOfParse(bytes[PREAMBLE..], 0);
    assert bytes == bytes[..HEADER] + bytes[HEADER..PREAMBLE] + bytes[PREAMBLE..];
  }

  /** A model whose header and counts the parser accepts. */
  predicate Acceptable(a: Aas, cap: nat) {
    && WellFormed(a) && a.header[..4] == MAGIC && a.header[4] == MAJOR && a.header[5] == MINOR
    && Related(a.lumps).Ok? && |Write(a)| <= cap
  }

  lemma WrittenParts(a: Aas)
    requires WellFormed(a)
    ensures var bytes := Write(a);
            && |bytes| >= PREAMBLE + LUMPS * 4 && bytes[PREAMBLE..] == WriteFrom(0, a.lumps)
            && bytes[..HEADER] == a.header && bytes[HEADER..PREAMBLE] == a.settings
            && bytes[..4] == a.header[..4] && bytes[4] == a.header[4] && bytes[5] == a.header[5]
  {
    hide WriteFrom;
    var bytes := Write(a);
    assert bytes[..HEADER] == a.header;
    assert bytes[..4] == bytes[..HEADER][..4] && bytes[4] == bytes[..HEADER][4] && bytes[5] == bytes[..HEADER][5];
  }

  /** Parsing a written model gives the model back. */
  lemma ParseWriteRoundTrip(a: Aas, cap: nat)
    requires Acceptable(a, cap)
    ensures Parse(Write(a), cap) == Ok(a)
  {
    hide WriteFrom, ParseFrom, Related, Write;
    ParseOfWrite(0, a.lumps);
    WrittenParts(a);
  }

  lemma ParsedIsAcceptable(bytes: seq<Byte>, cap: nat)
    requires Parse(bytes, cap).Ok?
    ensures Acceptable(Parse(bytes, cap).value, cap)
  {
    WriteParseRoundTrip(bytes, cap);
    ParsedParts(bytes, cap);
    hide Parse, ParseFrom, Related, Write;
    assert bytes[..HEADER][..4] == bytes[..4] && bytes[..HEADER][4] == bytes[4] && bytes[..HEADER][5] == bytes[5];
  }

  /** The parser accepts exactly what can be written from such a model. */
  lemma AcceptedIff(bytes: seq<Byte>, cap: nat)
    ensures Parse(bytes, cap).Ok? <==> exists a :: Acceptable(a, cap) && Write(a) == bytes
  {
    hide Parse, Write, Related;
    if Parse(bytes, cap).Ok? {
      WriteParseRoundTrip(bytes, cap);
      ParsedIsAcceptable(bytes, cap);
    }
    if a :| Acceptable(a, cap) && Write(a) == bytes {
      ParseWriteRoundTrip(a, cap);
    }
  }

  // ---- the file, byte by byte ----

  /** The sizes of one record of each lump, in the order of the file. */
  const SIZES: seq<nat> := [16, 12, 12, 4, 40, 44, 16, 12, 4, 16, 1, 132, 128, 128, 128, 56, 4, 4, 60, 24, 24, 12]

  /** Whole records in every lump, and the counts agree: 65534 areas at most, with their bounds, and 65535 clusters. */
  ghost predicate CountsAgree(lumps: seq<seq<Byte>>)
    requires |lumps| == 22
  {
    && (forall i :: 0 <= i < 22 ==> |lumps[i]| % SIZES[i] == 0 && |lumps[i]| <= 0x100_0000 * SIZES[i])
    && |lumps[5]| <= 44 * 65534 && |lumps[9]| <= 16 * 65535 && 44 * |lumps[21]| == 12 * |lumps[5]|
  }

  function Lengths(lumps: seq<seq<Byte>>): nat {
    if lumps == [] then 0 else 4 + |lumps[0]| + Lengths(lumps[1..])
  }

  lemma FewerTimes(k: nat, most: nat, size: nat)
    requires size > 0 && k < most
    ensures k * size < most * size
  {
    assert most * size == k * size + (most - k) * size;
    AtLeastOnce(most - k, size);
  }

  lemma WholeRecords(n: nat, size: nat, most: nat)
    requires size > 0 && n % size == 0
    ensures n / size <= most <==> n <= most * size
  {
    var k := n / size;
    assert n == k * size + n % size;
    if k > most {
      FewerTimes(most, k, size);
    } else if k < most {
      FewerTimes(k, most, size);
    }
  }

  lemma LumpIs(lumps: seq<seq<Byte>>, i: nat)
    requires |lumps| == 22 && i < 22
    ensures SIZES[i] == RecordSize(i)
    ensures LumpOk(i, lumps[i]) <==> |lumps[i]| % SIZES[i] == 0 && |lumps[i]| <= 0x100_0000 * SIZES[i]
  {
    if |lumps[i]| % SIZES[i] == 0 {
      WholeRecords(|lumps[i]|, SIZES[i], 0x100_0000);
    }
  }

  lemma CountsIff(lumps: seq<seq<Byte>>)
    requires |lumps| == 22
    ensures LumpsOk(0, lumps) && Related(lumps).Ok? <==> CountsAgree(lumps)
  {
    forall i | 0 <= i < 22
      ensures LumpOk(0 + i, lumps[i]) <==> |lumps[i]| % SIZES[i] == 0 && |lumps[i]| <= 0x100_0000 * SIZES[i]
    {
      LumpIs(lumps, i);
    }
    RelatedIff(lumps);
  }

  lemma RelatedIff(lumps: seq<seq<Byte>>)
    requires |lumps| == 22
    ensures |lumps[5]| % 44 == 0 && |lumps[9]| % 16 == 0 && |lumps[21]| % 12 == 0 ==>
      (Related(lumps).Ok? <==>
         |lumps[5]| <= 44 * 65534 && |lumps[9]| <= 16 * 65535 && 44 * |lumps[21]| == 12 * |lumps[5]|)
  {
  }

  lemma {:induction false} WriteFromSize(i: nat, lumps: seq<seq<Byte>>)
    requires i + |lumps| == LUMPS && LumpsOk(i, lumps)
    ensures |WriteFrom(i, lumps)| == Lengths(lumps)
    decreases |lumps|
  {
    if lumps != [] {
      FirstLump(i, lumps);
      LumpsBehind(i, lumps);
      WriteFromSize(i + 1, lumps[1..]);
    }
  }

  /** What a model has to be like to be written and read back. */
  lemma AcceptableIff(a: Aas, cap: nat)
    ensures Acceptable(a, cap) <==>
      && |a.header| == 30 && |a.settings| == 364 && |a.lumps| == 22 && CountsAgree(a.lumps)
      && a.header[0] == 0x32 && a.header[1] == 0x53 && a.header[2] == 0x41 && a.header[3] == 0x41
      && a.header[4] == 3 && a.header[5] == 29 && 394 + Lengths(a.lumps) <= cap
  {
    hide LumpsOk, Related, CountsAgree, WriteFrom, Lengths;
    if |a.header| == 30 && |a.settings| == 364 && |a.lumps| == 22 {
      CountsIff(a.lumps);
      MagicIs(a.header);
      if LumpsOk(0, a.lumps) {
        WriteFromSize(0, a.lumps);
      }
    }
  }

  lemma MagicIs(header: seq<Byte>)
    requires |header| >= 4
    ensures header[..4] == MAGIC <==> header[0] == 0x32 && header[1] == 0x53 && header[2] == 0x41 && header[3] == 0x41
  {
    assert header[..4] == [header[0], header[1], header[2], header[3]];
  }

  /** From `at` on: how many records, the highest byte first, and the records. */
  ghost predicate LumpAt(bytes: seq<Byte>, at: nat, i: nat, lump: seq<Byte>)
    requires i < 22
  {
    && at + 4 + |lump| <= |bytes| && bytes[at + 4..at + 4 + |lump|] == lump
    && |lump| == SIZES[i] * (bytes[at] as int * 16777216 + bytes[at + 1] as int * 65536
                             + bytes[at + 2] as int * 256 + bytes[at + 3] as int)
  }

  lemma WholeLump(i: nat, lump: seq<Byte>)
    requires i < 22 && LumpOk(i, lump)
    ensures |lump| == SIZES[i] * (|lump| / RecordSize(i)) && |lump| / RecordSize(i) < 0x1_0000_0000
  {
    var n := |lump| / RecordSize(i);
    assert |lump| == n * RecordSize(i) + |lump| % RecordSize(i);
  }

  lemma LengthsBefore(lumps: seq<seq<Byte>>, k: nat)
    requires k < |lumps|
    ensures Lengths(lumps[..k]) == if k == 0 then 0 else 4 + |lumps[0]| + Lengths(lumps[1..][..k - 1])
  {
    if k > 0 {
      assert lumps[..k][1..] == lumps[1..][..k - 1];
    }
  }

  lemma FirstWritten(i: nat, lumps: seq<seq<Byte>>)
    requires i + |lumps| == LUMPS && LumpsOk(i, lumps) && lumps != []
    ensures i < 22 && i + 1 + |lumps[1..]| == LUMPS && LumpOk(i, lumps[0]) && LumpsOk(i + 1, lumps[1..])
    ensures WriteFrom(i, lumps) == WriteLump(i, lumps[0]) + WriteFrom(i + 1, lumps[1..])
    ensures |WriteLump(i, lumps[0])| == 4 + |lumps[0]|
  {
    assert i < 22;
    hide *;
    FirstLump(i, lumps);
    LumpsBehind(i, lumps);
    WriteStep(i, lumps[0], lumps[1..]);
  }

  lemma {:induction false} LumpsLie(i: nat, lumps: seq<seq<Byte>>, k: nat)
    requires i + |lumps| == LUMPS && LumpsOk(i, lumps) && k < |lumps|
    ensures i + k < 22 && LumpAt(WriteFrom(i, lumps), Lengths(lumps[..k]), i + k, lumps[k])
    decreases |lumps|
  {
    hide *;
    FirstWritten(i, lumps);
    LengthsBefore(lumps, k);
    var front, more := WriteLump(i, lumps[0]), lumps[1..];
    var behind := WriteFrom(i + 1, more);
    if k == 0 {
      FrontLies(i, lumps[0], behind);
    } else {
      LumpsLie(i + 1, more, k - 1);
      var at, j := Lengths(more[..k - 1]), i + 1 + (k - 1);
      assert j == i + k && more[k - 1] == lumps[k];
      LumpLater(front, behind, at, j, more[k - 1]);
    }
  }

  lemma FrontLies(i: nat, lump: seq<Byte>, behind: seq<Byte>)
    requires i < 22 && LumpOk(i, lump)
    ensures LumpAt(WriteLump(i, lump) + behind, 0, i, lump)
  {
    WholeLump(i, lump);
    hide RecordSize, PutU32;
    var n := |lump| / RecordSize(i);
    var bytes := WriteLump(i, lump) + behind;
    assert bytes[..4] == PutU32(n) && bytes[4..4 + |lump|] == lump;
    assert GetU32(PutU32(n)) == n;
  }

  lemma LumpLater(front: seq<Byte>, behind: seq<Byte>, at: nat, i: nat, lump: seq<Byte>)
    requires i < 22 && LumpAt(behind, at, i, lump)
    ensures LumpAt(front + behind, |front| + at, i, lump)
  {
    var bytes, to := front + behind, |front| + at;
    assert bytes[to + 4..to + 4 + |lump|] == behind[at + 4..at + 4 + |lump|];
    assert bytes[to] == behind[at] && bytes[to + 1] == behind[at + 1] && bytes[to + 2] == behind[at + 2]
           && bytes[to + 3] == behind[at + 3];
  }

  lemma LumpWritten(a: Aas, k: nat)
    requires WellFormed(a) && k < 22 && |Write(a)| >= 394 && Write(a)[394..] == WriteFrom(0, a.lumps)
    ensures LumpAt(Write(a), 394 + Lengths(a.lumps[..k]), k, a.lumps[k])
  {
    assert |a.lumps| == 22 == LUMPS && LumpsOk(0, a.lumps);
    hide *;
    var bytes := Write(a);
    LumpsLie(0, a.lumps, k);
    assert 0 + k == k && bytes == bytes[..394] + bytes[394..];
    LumpLater(bytes[..394], bytes[394..], Lengths(a.lumps[..k]), k, a.lumps[k]);
  }

  lemma WrittenSize(a: Aas)
    requires WellFormed(a)
    ensures |Write(a)| == 394 + Lengths(a.lumps) && Write(a)[394..] == WriteFrom(0, a.lumps)
    ensures Write(a)[..30] == a.header && Write(a)[30..394] == a.settings
  {
    WrittenParts(a);
    WriteFromSize(0, a.lumps);
    hide WriteFrom, Lengths, LumpsOk, Write;
    assert |Write(a)[394..]| == |Write(a)| - 394;
  }

  /** What is written: header, settings, and every lump behind the ones before it. */
  lemma WrittenIs(a: Aas)
    requires WellFormed(a)
    ensures |a.lumps| == 22 && |Write(a)| == 394 + Lengths(a.lumps)
    ensures Write(a)[..30] == a.header && Write(a)[30..394] == a.settings
    ensures forall k: nat :: k < 22 ==> LumpAt(Write(a), 394 + Lengths(a.lumps[..k]), k, a.lumps[k])
  {
    WrittenSize(a);
    assert |a.lumps| == 22;
    hide *;
    forall k: nat | k < 22
      ensures LumpAt(Write(a), 394 + Lengths(a.lumps[..k]), k, a.lumps[k])
    {
      LumpWritten(a, k);
    }
  }

  lemma {:induction false} LumpErrors(rest: seq<Byte>, i: nat)
    requires i <= LUMPS
    ensures ParseFrom(rest, i).Err? ==> ParseFrom(rest, i).error.BadLump? || ParseFrom(rest, i).error.Trailing?
    decreases LUMPS - i
  {
    hide *;
    if i < LUMPS {
      ParseStep(rest, i);
      OneLumpError(rest, i);
      if ReadLump(rest, i).Ok? {
        LumpErrors(ReadLump(rest, i).value.1, i + 1);
      }
    } else {
      ParseEnds(rest);
    }
  }

  lemma OneLumpError(rest: seq<Byte>, i: nat)
    requires i < LUMPS
    ensures ReadLump(rest, i).Err? ==> ReadLump(rest, i).error == BadLump(i)
  {
    hide GetU32, RecordSize;
  }

  /** What is complained of first: the size, then the magic, then the version. */
  lemma RefusedFor(bytes: seq<Byte>, cap: nat)
    ensures Parse(bytes, cap) == Err(TooBig) <==> |bytes| > cap
    ensures Parse(bytes, cap) == Err(TooSmall) <==> |bytes| <= cap && |bytes| < 394 + 4 * 22
    ensures Parse(bytes, cap) == Err(BadMagic) <==>
              482 <= |bytes| <= cap && !(bytes[0] == 0x32 && bytes[1] == 0x53 && bytes[2] == 0x41 && bytes[3] == 0x41)
    ensures Parse(bytes, cap) == Err(BadVersion) <==>
              && 482 <= |bytes| <= cap && bytes[0] == 0x32 && bytes[1] == 0x53 && bytes[2] == 0x41 && bytes[3] == 0x41
              && !(bytes[4] == 3 && bytes[5] == 29)
  {
    hide ParseFrom;
    if |bytes| >= 482 {
      MagicIs(bytes);
      LumpErrors(bytes[PREAMBLE..], 0);
    }
  }

  // ---- the parser's loop ----

  method ReadLumps(bytes: seq<Byte>) returns (r: Result<seq<seq<Byte>>>)
    requires |bytes| >= PREAMBLE
    ensures r == ParseFrom(bytes[PREAMBLE..], 0)
  {
    hide *;
    var lumps: seq<seq<Byte>> := [];
    var off := PREAMBLE;
    OntoOne([], [], ParseFrom(bytes[off..], 0));
    while |lumps| < LUMPS
      invariant |lumps| <= LUMPS && PREAMBLE <= off <= |bytes|
      invariant ParseFrom(bytes[PREAMBLE..], 0) == Onto(lumps, ParseFrom(bytes[off..], |lumps|))
    {
      var i := |lumps|;
      ParseStep(bytes[off..], i);
      var read := ReadLump(bytes[off..], i);
      if read.Err? {
        return Err(read.error);
      }
      var lump := read.value.0;
      assert read.value.1 == bytes[off + 4 + |lump|..];
      OntoOne(lumps, lump, ParseFrom(bytes[off + 4 + |lump|..], i + 1));
      lumps := lumps + [lump];
      off := off + 4 + |lump|;
    }
    ParseEnds(bytes[off..]);
    if off != |bytes| {
      return Err(Trailing);
    }
    assert lumps + [] == lumps;
    r := Ok(lumps);
  }

  lemma ParseEnds(rest: seq<Byte>)
    ensures ParseFrom(rest, LUMPS) == if rest == [] then Ok([]) else Err(Trailing)
  {
  }

  lemma OntoOne(done: seq<seq<Byte>>, one: seq<Byte>, rest: Result<seq<seq<Byte>>>)
    ensures Onto(done, Onto([one], rest)) == Onto(done + [one], rest)
    ensures Onto([], rest) == rest
  {
    if rest.Ok? {
      assert done + ([one] + rest.value) == (done + [one]) + rest.value;
      assert [] + rest.value == rest.value;
    }
  }

  /** The loop over the lumps computes the parser's result, error cases included. */
  method ParsePayload(bytes: seq<Byte>, cap: nat) returns (r: Result<Aas>)
    ensures r == Parse(bytes, cap)
  {
    var checked := CheckPreamble(bytes, cap);
    if checked.Err? {
      return Err(checked.error);
    }
    var read := ReadLumps(bytes);
    if read.Err? {
      return Err(read.error);
    }
    var lumps := read.value;
    var related := Related(lumps);
    if related.Err? {
      return Err(related.error);
    }
    r := Ok(Aas(bytes[..HEADER], bytes[HEADER..PREAMBLE], lumps));
  }

  /** Null when the result would not be accepted for its size. */
  method WritePayload(a: Aas, cap: nat) returns (out: seq<Byte>, ok: bool)
    requires WellFormed(a)
    ensures ok <==> |Write(a)| <= cap
    ensures ok ==> out == Write(a)
  {
    out := a.header + a.settings;
    var i := 0;
    assert a.lumps[0..] == a.lumps;
    while i < LUMPS
      invariant 0 <= i <= LUMPS && LumpsOk(i, a.lumps[i..])
      invariant Write(a) == out + WriteFrom(i, a.lumps[i..])
    {
      LumpsBehind(i, a.lumps[i..]);
      assert LumpOk(i + 0, a.lumps[i..][0]) && a.lumps[i..][1..] == a.lumps[i + 1..];
      out := out + WriteLump(i, a.lumps[i]);
      i := i + 1;
    }
    assert out + [] == out;
    ok := |out| <= cap;
    if !ok {
      out := [];
    }
  }
}
