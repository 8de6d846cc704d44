/**
 The run-length code of a visibility row (src/backend/aas_augment.c:661-664,
 701-718, 733-747): a byte below 0x80 is seven bits, any other skips zero bits.
 */
module PvsCodec {
  import opened Division
  import opened Options

  /** The longest run of zeros one token skips. */
  const MAX_RUN: nat := 16384

  function Pow2(k: nat): (p: nat)
    ensures p > 0
  {
    if k == 0 then 1 else 2 * Pow2(k - 1)
  }

  predicate Bit(token: int, k: nat) {
    (token / Pow2(k)) % 2 == 1
  }

  /** The low n bits of a literal, lowest first. */
  function Bits(token: int, n: nat): (r: seq<bool>)
    ensures |r| == n && forall k :: 0 <= k < n ==> r[k] == Bit(token, k)
  {
    seq(n, k requires 0 <= k < n => Bit(token, k))
  }

  function Literal(v: seq<bool>): (t: nat)
    ensures t < Pow2(|v|)
  {
    if v == [] then 0 else (if v[0] then 1 else 0) + 2 * Literal(v[1..])
  }

  lemma {:induction false} LiteralBit(v: seq<bool>, k: nat)
    requires k < |v|
    ensures Bit(Literal(v), k) == v[k]
    decreases v
  {
    var rest := Literal(v[1..]);
    if k == 0 {
    } else {
      LiteralBit(v[1..], k - 1);
      Halve(Literal(v), rest, Pow2(k - 1));
    }
  }

  lemma Halve(t: nat, rest: nat, p: nat)
    requires p > 0 && t / 2 == rest
    ensures t / (2 * p) == rest / p
  {
    var q, r := rest / p, rest % p;
    assert rest == q * p + r;
    var b := t - 2 * rest;
    assert t == q * (2 * p) + (2 * r + b) && 0 <= 2 * r + b < 2 * p;
    DivUnique(t, 2 * p, q, 2 * r + b);
  }

  lemma LiteralBits(v: seq<bool>)
    ensures Bits(Literal(v), |v|) == v
  {
    forall k | 0 <= k < |v| ensures Bits(Literal(v), |v|)[k] == v[k] {
      LiteralBit(v, k);
    }
  }

  function Zeros(n: nat): (r: seq<bool>)
    ensures |r| == n && forall k :: 0 <= k < n ==> !r[k]
  {
    seq(n, _ => false)
  }

  ghost predicate AreBytes(bytes: seq<int>) {
    forall k :: 0 <= k < |bytes| ==> 0 <= bytes[k] < 256
  }

  function Min(a: nat, b: nat): nat {
    if a < b then a else b
  }

  /** The zero bits a token skips, and the bytes it takes; None at the end of
      the bytes. */
  function SkipAt(bytes: seq<int>, at: nat): Option<(nat, nat)>
    requires at < |bytes| && bytes[at] >= 128
  {
    var low := bytes[at] % 64;
    if (bytes[at] / 64) % 2 == 0 then Some((low + 1, 1))
    else if at + 1 >= |bytes| || bytes[at + 1] < 0 then None
    else Some((low + 64 * bytes[at + 1] + 1, 2))
  }

  /** `left` bits from the byte at `at` on. */
  function Decode(bytes: seq<int>, at: nat, left: nat): (r: Option<seq<bool>>)
    ensures r.Some? ==> |r.value| == left
    decreases left
  {
    if left == 0 then Some([])
    else if at >= |bytes| then None
    else if bytes[at] >= 128 then
      match SkipAt(bytes, at)
      case None => None
      case Some((run, size)) => Before(Zeros(Min(run, left)), Decode(bytes, at + size, left - Min(run, left)))
    else Before(Bits(bytes[at], Min(7, left)), Decode(bytes, at + 1, left - Min(7, left)))
  }

  function Before(bits: seq<bool>, rest: Option<seq<bool>>): (r: Option<seq<bool>>)
    ensures r.Some? <==> rest.Some?
    ensures r.Some? ==> r.value == bits + rest.value
  {
    match rest
    case None => None
    case Some(more) => Some(bits + more)
  }

  /** One token of Decode. */
  lemma DecodeStarts(bytes: seq<int>, at: nat, left: nat)
    requires left > 0 && at < |bytes|
    ensures bytes[at] >= 128 && SkipAt(bytes, at).None? ==> Decode(bytes, at, left).None?
    ensures bytes[at] >= 128 && SkipAt(bytes, at).Some? ==>
      var (run, size) := SkipAt(bytes, at).value;
      Decode(bytes, at, left) == Before(Zeros(Min(run, left)), Decode(bytes, at + size, left - Min(run, left)))
    ensures bytes[at] < 128 ==>
      Decode(bytes, at, left) == Before(Bits(bytes[at], Min(7, left)), Decode(bytes, at + 1, left - Min(7, left)))
  {
    hide SkipAt, Bits, Zeros, Before, Min;
  }

  lemma BeforeTwice(a: seq<bool>, b: seq<bool>, rest: Option<seq<bool>>)
    ensures Before(a, Before(b, rest)) == Before(a + b, rest)
    ensures Before([], rest) == rest
  {
    if rest.Some? {
      assert a + (b + rest.value) == (a + b) + rest.value;
      assert [] + rest.value == rest.value;
    }
  }

  /** The zeros a row starts with, counted up to a limit. */
  function Run(v: seq<bool>, limit: nat): (n: nat)
    ensures n <= |v| && n <= limit
    ensures Zeros(n) <= v
  {
    if limit == 0 || v == [] || v[0] then 0
    else
      var n := Run(v[1..], limit - 1);
      assert v[..n + 1] == [v[0]] + v[1..][..n];
      n + 1
  }

  function SkipTokens(run: nat): (r: seq<int>)
    requires 7 <= run <= MAX_RUN
    ensures 1 <= |r| <= 2 && forall k :: 0 <= k < |r| ==> 0 <= r[k] < 256
    ensures 7 * |r| <= run
  {
    var count := run - 1;
    if count >= 64 then [128 + 64 + count % 64, count / 64] else [128 + count]
  }

  /** The code of a row takes at most (n + 6) / 7 bytes. */
  function Encode(v: seq<bool>): (r: seq<int>)
    ensures forall k :: 0 <= k < |r| ==> 0 <= r[k] < 256
    ensures |r| <= (|v| + 6) / 7
    decreases |v|
  {
    if v == [] then []
    else
      var run := Run(v, MAX_RUN);
      if run >= 7 then SkipTokens(run) + Encode(v[run..])
      else
        var n := Min(7, |v|);
        assert Pow2(7) == 128 by { SmallPowers(); }
        assert Literal(v[..n]) < 128 by { PowersGrow(n, 7); }
        [Literal(v[..n])] + Encode(v[n..])
  }

  lemma SmallPowers()
    ensures Pow2(7) == 128
  {
    assert Pow2(3) == 8 && Pow2(5) == 4 * Pow2(3) && Pow2(7) == 4 * Pow2(5);
  }

  lemma {:induction false} PowersGrow(a: nat, b: nat)
    requires a <= b
    ensures Pow2(a) <= Pow2(b)
  {
    if a < b {
      PowersGrow(a, b - 1);
    }
  }

  /** b lies in the bytes from `at` on. */
  ghost predicate LiesAt(bytes: seq<int>, at: nat, b: seq<int>) {
    at + |b| <= |bytes| && bytes[at..at + |b|] == b
  }

  lemma LiesInTwo(bytes: seq<int>, at: nat, a: seq<int>, b: seq<int>)
    requires LiesAt(bytes, at, a + b)
    ensures LiesAt(bytes, at, a) && LiesAt(bytes, at + |a|, b)
  {
    var both := bytes[at..at + |a + b|];
    assert both[..|a|] == bytes[at..at + |a|] && both[|a|..] == bytes[at + |a|..at + |a| + |b|];
  }

  lemma DecodeTokens(bytes: seq<int>, at: nat, run: nat, left: nat)
    requires 7 <= run <= MAX_RUN && run <= left
    requires LiesAt(bytes, at, SkipTokens(run))
    ensures Decode(bytes, at, left) == Before(Zeros(run), Decode(bytes, at + |SkipTokens(run)|, left - run))
  {
    var tokens := SkipTokens(run);
    assert bytes[at] == bytes[at..at + |tokens|][0] == tokens[0];
    assert |tokens| == 2 ==> bytes[at + 1] == bytes[at..at + |tokens|][1] == tokens[1];
    SkipBack(bytes, at, run);
    DecodeStarts(bytes, at, left);
  }

  lemma DecodeLiteral(bytes: seq<int>, at: nat, v: seq<bool>, left: nat)
    requires |v| == Min(7, left) && left > 0
    requires LiesAt(bytes, at, [Literal(v)])
    ensures Decode(bytes, at, left) == Before(v, Decode(bytes, at + 1, left - |v|))
  {
    assert bytes[at] == bytes[at..at + 1][0] == Literal(v);
    assert Literal(v) < 128 by { SmallPowers(); PowersGrow(|v|, 7); }
    LiteralBits(v);
    DecodeStarts(bytes, at, left);
  }

  lemma EncodeStarts(v: seq<bool>)
    requires v != []
    ensures var run := Run(v, MAX_RUN);
            Encode(v) == if run >= 7 then SkipTokens(run) + Encode(v[run..])
                         else [Literal(v[..Min(7, |v|)])] + Encode(v[Min(7, |v|)..])
  {
  }

  /** A token that stands for `first`, and a rest that reads back. */
  lemma DecodePast(bytes: seq<int>, at: nat, size: nat, first: seq<bool>, rest: seq<bool>, v: seq<bool>)
    requires v == first + rest
    requires Decode(bytes, at, |v|) == Before(first, Decode(bytes, at + size, |rest|))
    requires Decode(bytes, at + size, |rest|) == Some(rest)
    ensures Decode(bytes, at, |v|) == Some(v)
  {
    hide Decode;
  }

  lemma SplitRun(v: seq<bool>, limit: nat)
    ensures v == Zeros(Run(v, limit)) + v[Run(v, limit)..]
  {
    assert v == v[..Run(v, limit)] + v[Run(v, limit)..];
  }

  /** Reading a row back, wherever it lies, gives the bits that were written. */
  lemma {:induction false} DecodeEncoded(bytes: seq<int>, at: nat, v: seq<bool>)
    requires LiesAt(bytes, at, Encode(v))
    ensures Decode(bytes, at, |v|) == Some(v)
    decreases |v|, 1
  {
    if v != [] {
      hide *;
      if Run(v, MAX_RUN) >= 7 {
        DecodeRunFirst(bytes, at, v);
      } else {
        DecodeBitsFirst(bytes, at, v);
      }
    }
  }

  lemma {:induction false} DecodeRunFirst(bytes: seq<int>, at: nat, v: seq<bool>)
    requires v != [] && Run(v, MAX_RUN) >= 7 && LiesAt(bytes, at, Encode(v))
    ensures Decode(bytes, at, |v|) == Some(v)
    decreases |v|, 0
  {
    hide *;
    EncodeStarts(v);
    var run := Run(v, MAX_RUN);
    var tokens, rest := SkipTokens(run), v[run..];
    LiesInTwo(bytes, at, tokens, Encode(rest));
    DecodeTokens(bytes, at, run, |v|);
    DecodeEncoded(bytes, at + |tokens|, rest);
    SplitRun(v, MAX_RUN);
    DecodePast(bytes, at, |tokens|, Zeros(run), rest, v);
  }

  lemma {:induction false} DecodeBitsFirst(bytes: seq<int>, at: nat, v: seq<bool>)
    requires v != [] && Run(v, MAX_RUN) < 7 && LiesAt(bytes, at, Encode(v))
    ensures Decode(bytes, at, |v|) == Some(v)
    decreases |v|, 0
  {
    hide *;
    EncodeStarts(v);
    MinOf(7, |v|);
    var n := Min(7, |v|);
    var first, rest := v[..n], v[n..];
    LiesInTwo(bytes, at, [Literal(first)], Encode(rest));
    DecodeLiteral(bytes, at, first, |v|);
    DecodeEncoded(bytes, at + 1, rest);
    DecodePast(bytes, at, 1, first, rest, v);
  }

  lemma SkipBack(bytes: seq<int>, at: nat, run: nat)
    requires 7 <= run <= MAX_RUN && at + |SkipTokens(run)| <= |bytes|
    requires bytes[at] == SkipTokens(run)[0]
    requires |SkipTokens(run)| == 2 ==> bytes[at + 1] == SkipTokens(run)[1]
    ensures bytes[at] >= 128 && SkipAt(bytes, at) == Some((run, |SkipTokens(run)|))
  {
    var count := run - 1;
    assert count == 64 * (count / 64) + count % 64;
  }

  // ---- the loops ----

  /** The first bits are in the buffer, the rest is still to be decoded. */
  ghost predicate Reading(bytes: seq<int>, at: nat, count: nat, visible: seq<bool>, pos: nat, next: nat) {
    && count <= |visible|
    && Decode(bytes, at, count) == Before(visible[..Min(pos, count)], Decode(bytes, next, count - Min(pos, count)))
    && forall p :: Min(pos, count) <= p < |visible| ==> !visible[p]
  }

  lemma StartReading(bytes: seq<int>, at: nat, count: nat, visible: seq<bool>)
    requires count <= |visible| && forall p :: 0 <= p < |visible| ==> !visible[p]
    ensures Reading(bytes, at, count, visible, 0, at)
  {
    BeforeTwice([], [], Decode(bytes, at, count));
    assert visible[..0] == [];
  }

  lemma SkipOn(bytes: seq<int>, at: nat, count: nat, visible: seq<bool>, pos: nat, next: nat)
    requires Reading(bytes, at, count, visible, pos, next) && pos < count && next < |bytes| && bytes[next] >= 128
    ensures SkipAt(bytes, next).None? ==> Decode(bytes, at, count).None?
    ensures SkipAt(bytes, next).Some? ==>
      Reading(bytes, at, count, visible, pos + SkipAt(bytes, next).value.0, next + SkipAt(bytes, next).value.1)
  {
    hide Decode, SkipAt, Zeros, Before;
    DecodeStarts(bytes, next, count - pos);
    if SkipAt(bytes, next).Some? {
      var (run, size) := SkipAt(bytes, next).value;
      SkippedOn(visible, pos, count, run, Decode(bytes, next + size, count - pos - Min(run, count - pos)));
    }
  }

  lemma SkippedOn(visible: seq<bool>, pos: nat, count: nat, run: nat, rest: Option<seq<bool>>)
    requires pos < count <= |visible| && forall p :: pos <= p < |visible| ==> !visible[p]
    ensures Before(visible[..pos], Before(Zeros(Min(run, count - pos)), rest)) == Before(visible[..Min(pos + run, count)], rest)
  {
    var skip := Min(run, count - pos);
    BeforeTwice(visible[..pos], Zeros(skip), rest);
    assert visible[..pos + skip] == visible[..pos] + Zeros(skip);
  }

  lemma LiteralOn(bytes: seq<int>, at: nat, count: nat, visible: seq<bool>, pos: nat, next: nat, visible': seq<bool>)
    requires Reading(bytes, at, count, visible, pos, next) && pos < count && next < |bytes| && bytes[next] < 128
    requires |visible'| == |visible|
    requires var n := Min(7, count - pos);
             && visible'[..pos + n] == visible[..pos] + Bits(bytes[next], n)
             && forall p :: pos + n <= p < |visible| ==> visible'[p] == visible[p]
    ensures Reading(bytes, at, count, visible', pos + Min(7, count - pos), next + 1)
  {
    var n := Min(7, count - pos);
    DecodeStarts(bytes, next, count - pos);
    hide Decode, Bits, Before;
    BeforeTwice(visible[..pos], Bits(bytes[next], n), Decode(bytes, next + 1, count - pos - n));
  }

  lemma DoneReading(bytes: seq<int>, at: nat, count: nat, visible: seq<bool>, pos: nat, next: nat)
    requires Reading(bytes, at, count, visible, pos, next) && pos >= count
    ensures Decode(bytes, at, count) == Some(visible[..count])
    ensures forall p :: count <= p < |visible| ==> !visible[p]
  {
    assert visible[..count] + [] == visible[..count];
  }

  lemma OffTheEnd(bytes: seq<int>, at: nat, count: nat, visible: seq<bool>, pos: nat, next: nat)
    requires Reading(bytes, at, count, visible, pos, next) && pos < count && next >= |bytes|
    ensures Decode(bytes, at, count).None?
  {
  }

  /** Read a row into a buffer. */
  method DecodeRow(bytes: seq<int>, at: nat, count: nat, visible: array<bool>) returns (ok: bool)
    requires count <= visible.Length
    modifies visible
    ensures ok <==> Decode(bytes, at, count).Some?
    ensures ok ==> visible[..count] == Decode(bytes, at, count).value
    ensures ok ==> forall p :: count <= p < visible.Length ==> !visible[p]
  {
    hide *;
    forall p | 0 <= p < visible.Length {
      visible[p] := false;
    }
    var pos: nat, next: nat := 0, at;
    StartReading(bytes, at, count, visible[..]);
    while pos < count
      invariant Reading(bytes, at, count, visible[..], pos, next)
      decreases count - pos
    {
      if next >= |bytes| {
        OffTheEnd(bytes, at, count, visible[..], pos, next);
        return false;
      }
      var token := bytes[next];
      if token >= 128 {
        SkipOn(bytes, at, count, visible[..], pos, next);
        var skip := SkipAt(bytes, next);
        if skip.None? {
          return false;
        }
        SkipMoves(bytes, next);
        pos, next := pos + skip.value.0, next + skip.value.1;
      } else {
        var n := if count - pos < 7 then count - pos else 7;
        ghost var before := visible[..];
        ReadLiteral(token, visible, pos, n);
        assert n == Min(7, count - pos) by { MinOf(7, count - pos); }
        LiteralOn(bytes, at, count, before, pos, next, visible[..]);
        next, pos := next + 1, pos + n;
      }
    }
    DoneReading(bytes, at, count, visible[..], pos, next);
    ok := true;
  }

  lemma SkipMoves(bytes: seq<int>, at: nat)
    requires at < |bytes| && bytes[at] >= 128 && SkipAt(bytes, at).Some?
    ensures SkipAt(bytes, at).value.0 > 0
  {
  }

  lemma MinOf(a: nat, b: nat)
    ensures Min(a, b) == if a < b then a else b
  {
  }

  method ReadLiteral(token: int, visible: array<bool>, pos: nat, n: nat)
    requires pos + n <= visible.Length
    modifies visible
    ensures visible[..pos + n] == old(visible[..pos]) + Bits(token, n)
    ensures forall p :: pos + n <= p < visible.Length ==> visible[p] == old(visible[p])
  {
    var k := 0;
    while k < n
      invariant 0 <= k <= n && visible[..pos] == old(visible[..pos])
      invariant forall i :: 0 <= i < k ==> visible[pos + i] == Bit(token, i)
      invariant forall p :: pos + k <= p < visible.Length ==> visible[p] == old(visible[p])
    {
      visible[pos + k] := Bit(token, k);
      k := k + 1;
    }
  }

  /** The run of zeros from a position, as the encoder counts it. */
  method CountRun(visible: array<bool>, pos: nat, count: nat) returns (run: nat)
    requires pos <= count <= visible.Length
    ensures run == Run(visible[pos..count], MAX_RUN)
  {
    run := 0;
    while pos + run < count && !visible[pos + run] && run < MAX_RUN
      invariant pos + run <= count && run <= MAX_RUN
      invariant Run(visible[pos..count], MAX_RUN) == run + Run(visible[pos + run..count], MAX_RUN - run)
    {
      assert visible[pos + run..count][1..] == visible[pos + run + 1..count];
      run := run + 1;
    }
  }

  lemma {:induction false} LiteralGrows(v: seq<bool>, b: bool)
    ensures Literal(v + [b]) == Literal(v) + if b then Pow2(|v|) else 0
    decreases v
  {
    if v == [] {
      assert [b][1..] == [];
    } else {
      LiteralGrows(v[1..], b);
      assert (v + [b])[1..] == v[1..] + [b];
    }
  }

  method WriteLiteral(visible: array<bool>, pos: nat, n: nat) returns (token: nat)
    requires pos + n <= visible.Length
    ensures token == Literal(visible[pos..pos + n])
  {
    token := 0;
    var k, weight := 0, 1;
    while k < n
      invariant 0 <= k <= n && weight == Pow2(k) && token == Literal(visible[pos..pos + k])
    {
      LiteralGrows(visible[pos..pos + k], visible[pos + k]);
      assert visible[pos..pos + k + 1] == visible[pos..pos + k] + [visible[pos + k]];
      token := token + if visible[pos + k] then weight else 0;
      k, weight := k + 1, 2 * weight;
    }
  }

  /** The bytes written, and the bits still to be written. */
  ghost predicate Writing(v: seq<bool>, written: seq<int>, pos: nat) {
    && pos <= |v| && Encode(v) == written + Encode(v[pos..])
    && if pos < |v| then 7 * |written| <= pos else |written| <= (|v| + 6) / 7
  }

  lemma WriteTokens(v: seq<bool>, written: seq<int>, pos: nat, tokens: seq<int>, n: nat)
    requires Writing(v, written, pos) && pos < |v| && pos + n <= |v|
    requires Encode(v[pos..]) == tokens + Encode(v[pos..][n..])
    requires 7 * |tokens| <= n || (pos + n == |v| && |tokens| == 1)
    ensures Writing(v, written + tokens, pos + n)
  {
    hide Encode;
    assert v[pos..][n..] == v[pos + n..];
    assert written + (tokens + Encode(v[pos + n..])) == (written + tokens) + Encode(v[pos + n..]);
  }

  lemma WriteRun(v: seq<bool>, written: seq<int>, pos: nat, run: nat)
    requires Writing(v, written, pos) && pos < |v| && run == Run(v[pos..], MAX_RUN) && run >= 7
    ensures Writing(v, written + SkipTokens(run), pos + run)
  {
    hide Encode, Run, SkipTokens;
    EncodeStarts(v[pos..]);
    WriteTokens(v, written, pos, SkipTokens(run), run);
  }

  lemma WriteBits(v: seq<bool>, written: seq<int>, pos: nat, n: nat)
    requires Writing(v, written, pos) && pos < |v| && Run(v[pos..], MAX_RUN) < 7 && n == Min(7, |v| - pos)
    ensures Writing(v, written + [Literal(v[pos..][..n])], pos + n)
  {
    hide Encode, Run, Literal;
    EncodeStarts(v[pos..]);
    WriteTokens(v, written, pos, [Literal(v[pos..][..n])], n);
  }

  lemma RoomToWrite(v: seq<bool>, written: seq<int>, pos: nat)
    requires Writing(v, written, pos) && pos < |v|
    ensures 7 * |written| <= pos
  {
  }

  lemma WritingEnds(v: seq<bool>, written: seq<int>)
    requires Writing(v, written, |v|)
    ensures written == Encode(v) && |written| <= (|v| + 6) / 7
  {
    assert v[|v|..] == [] && written + [] == written;
  }

  lemma WritingStarts(v: seq<bool>)
    ensures Writing(v, [], 0)
  {
    assert v[0..] == v;
  }

  /** The encoder, with the buffer it is given: it never runs over. */
  method EncodeRow(visible: array<bool>, count: nat, encoded: array<int>) returns (used: nat)
    requires count <= visible.Length && encoded.Length == (count + 6) / 7 + 2
    modifies encoded
    ensures used <= (count + 6) / 7 && encoded[..used] == Encode(visible[..count])
  {
    hide *;
    used := 0;
    var pos: nat := 0;
    ghost var v := visible[..count];
    WritingStarts(v);
    assert encoded[..0] == [];
    while pos < count
      invariant pos <= count && used <= encoded.Length
      invariant Writing(v, encoded[..used], pos)
    {
      ghost var written := encoded[..used];
      RoomToWrite(v, written, pos);
      assert v[pos..] == visible[pos..count];
      var run := CountRun(visible, pos, count);
      if run >= 7 {
        var tokens := SkipTokens(run);
        WriteRun(v, written, pos, run);
        used := Put(encoded, used, tokens);
        pos := pos + run;
      } else {
        var n := if count - pos < 7 then count - pos else 7;
        MinOf(7, count - pos);
        var token := WriteLiteral(visible, pos, n);
        assert v[pos..][..n] == visible[pos..pos + n];
        WriteBits(v, written, pos, n);
        used := Put(encoded, used, [token]);
        pos := pos + n;
      }
    }
    WritingEnds(v, encoded[..used]);
  }

  /** Append one or two bytes to the buffer. */
  method Put(encoded: array<int>, used: nat, tokens: seq<int>) returns (used': nat)
    requires 1 <= |tokens| <= 2 && used + |tokens| <= encoded.Length
    modifies encoded
    ensures used' == used + |tokens| && encoded[..used'] == old(encoded[..used]) + tokens
  {
    encoded[used] := tokens[0];
    used' := used + 1;
    if |tokens| > 1 {
      encoded[used'] := tokens[1];
      used' := used' + 1;
    }
  }
}
