/** A message cut short inside a field is never taken for a whole one. */
module WireTruncation {
  import opened Common
  import opened Wire
  import opened WireFields

  /** The buffer ends inside a part that starts at `i`. */
  predicate EndsInside(bs: Buffer, i: nat, part: seq<Byte>) {
    i <= |bs| && |bs| - i < |part| && bs[i..] == part[..|bs| - i]
  }

  /** It ends inside the first of two parts, or the first is there and it ends
      inside the second. */
  lemma EndsInsideEither(bs: Buffer, i: nat, a: seq<Byte>, b: seq<Byte>)
    requires EndsInside(bs, i, a + b)
    ensures EndsInside(bs, i, a) || (At(bs, i, a) && EndsInside(bs, i + |a|, b))
  {
    var n := |bs| - i;
    if n < |a| {
      assert (a + b)[..n] == a[..n];
    } else {
      assert bs[i..i + |a|] == bs[i..][..|a|] == (a + b)[..n][..|a|] == a;
      assert bs[i + |a|..] == bs[i..][|a|..] == (a + b)[..n][|a|..] == b[..n - |a|];
    }
  }

  lemma {:induction false} VarintCut(bs: Buffer, i: nat, v: nat, shift: nat, acc: nat)
    requires EndsInside(bs, i, Varint(v))
    ensures DecodeVarint(bs, i, shift, acc).Err?
    decreases v
  {
    if i < |bs| && shift < 64 {
      var bytes := Varint(v);
      assert bs[i] == bs[i..][0] == bytes[0];
      assert |bytes| >= 2;
      var rest := Varint(v / 128);
      assert bytes[1..] == rest;
      assert bs[i + 1..] == bs[i..][1..] == bytes[..|bs| - i][1..] == rest[..|bs| - i - 1];
      VarintCut(bs, i + 1, v / 128, shift + 7, acc + (bs[i] % 128) * Pow2(shift) % TWO_64);
    }
  }

  lemma ReadVarintCut(bs: Buffer, i: nat, v: nat)
    requires EndsInside(bs, i, Varint(v))
    ensures ReadVarint(bs, i).Err?
  {
    hide DecodeVarint;
    VarintCut(bs, i, v, 0, 0);
  }

  /** A length whose data is not all there. */
  lemma ReadSpanCut(bs: Buffer, i: nat, data: seq<Byte>)
    requires EndsInside(bs, i, Delimited(data)) && i + |Delimited(data)| < TWO_63
    ensures ReadSpan(bs, i).Err?
  {
    hide Varint, ReadVarint;
    EndsInsideEither(bs, i, Varint(|data|), data);
    if EndsInside(bs, i, Varint(|data|)) {
      ReadVarintCut(bs, i, |data|);
    } else {
      ReadVarintReadsBack(bs, i, |data|);
      SmallInt64(|data|);
      SmallInt64(i + |Varint(|data|)| + |data|);
    }
  }

  // ---------------------------------------------------------------- skipping

  /** Skipping from `i` does not end within the buffer: it fails, or, outside
      all groups, runs past the end. */
  predicate RunsOut(bs: Buffer, i: nat, depth: nat) {
    var r := SkipFrom(bs, i, depth);
    r.Err? || (depth == 0 && r.value > |bs|)
  }

  lemma TagCut(bs: Buffer, i: nat, depth: nat, num: nat, wireType: nat)
    requires EndsInside(bs, i, Tag(num, wireType))
    ensures SkipFrom(bs, i, depth).Err?
  {
    hide Varint, ReadVarint, SkipPayload;
    ReadVarintCut(bs, i, num * 8 + wireType);
  }

  /** The payload of a tag that is there runs out, or fails. */
  lemma PayloadCut(bs: Buffer, i: nat, depth: nat, num: nat, wireType: nat)
    requires At(bs, i, Tag(num, wireType)) && ValidNumber(num) && wireType < 8
    requires var p := SkipPayload(bs, i + |Tag(num, wireType)|, depth, wireType);
             p.Err? || (p.value.index > |bs| && p.value.depth == depth)
    ensures RunsOut(bs, i, depth)
  {
    hide SkipPayload, Varint, ReadVarint;
    TagReadsBack(bs, i, num, wireType);
    assert |Tag(num, wireType)| >= 1;
    var p := SkipPayload(bs, i + |Tag(num, wireType)|, depth, wireType);
    if p.Ok? && depth > 0 {
      assert SkipFrom(bs, p.value.index, depth).Err?;
    }
  }

  lemma FixedCut(bs: Buffer, i: nat, depth: nat, num: nat, wireType: nat, data: seq<Byte>)
    requires EndsInside(bs, i, Tag(num, wireType) + data) && ValidNumber(num)
    requires (wireType == 1 && |data| == 8) || (wireType == 5 && |data| == 4)
    requires i + |Tag(num, wireType) + data| < TWO_63
    ensures RunsOut(bs, i, depth)
  {
    hide SkipFrom, Varint, ReadVarint;
    EndsInsideEither(bs, i, Tag(num, wireType), data);
    if EndsInside(bs, i, Tag(num, wireType)) {
      TagCut(bs, i, depth, num, wireType);
    } else {
      SmallInt64(i + |Tag(num, wireType)| + |data|);
      PayloadCut(bs, i, depth, num, wireType);
    }
  }

  lemma VarintFieldCut(bs: Buffer, i: nat, depth: nat, num: nat, v: nat)
    requires EndsInside(bs, i, Tag(num, 0) + Varint(v)) && ValidNumber(num)
    ensures RunsOut(bs, i, depth)
  {
    hide SkipFrom, Varint, ReadVarint;
    EndsInsideEither(bs, i, Tag(num, 0), Varint(v));
    if EndsInside(bs, i, Tag(num, 0)) {
      TagCut(bs, i, depth, num, 0);
    } else {
      ReadVarintCut(bs, i + |Tag(num, 0)|, v);
      PayloadCut(bs, i, depth, num, 0);
    }
  }

  lemma BytesFieldCut(bs: Buffer, i: nat, depth: nat, num: nat, data: seq<Byte>)
    requires EndsInside(bs, i, Tag(num, 2) + Delimited(data)) && ValidNumber(num)
    requires i + |Tag(num, 2) + Delimited(data)| < TWO_63
    ensures RunsOut(bs, i, depth)
  {
    hide SkipFrom, Varint, ReadVarint;
    EndsInsideEither(bs, i, Tag(num, 2), Delimited(data));
    if EndsInside(bs, i, Tag(num, 2)) {
      TagCut(bs, i, depth, num, 2);
    } else {
      var j := i + |Tag(num, 2)|;
      EndsInsideEither(bs, j, Varint(|data|), data);
      if EndsInside(bs, j, Varint(|data|)) {
        ReadVarintCut(bs, j, |data|);
      } else {
        ReadVarintReadsBack(bs, j, |data|);
        SmallInt64(|data|);
        SmallInt64(j + |Varint(|data|)| + |data|);
      }
      PayloadCut(bs, i, depth, num, 2);
    }
  }

  /** A well-formed field that is cut short, however deep inside its groups, is
      not skipped. */
  lemma {:induction false} SkipCut(bs: Buffer, i: nat, depth: nat, f: Field)
    requires EndsInside(bs, i, Encode(f)) && WellFormed(f) && i + |Encode(f)| < TWO_63
    ensures RunsOut(bs, i, depth)
    decreases f
  {
    hide SkipFrom, Varint, Tag, Delimited, EndsInside, RunsOut;
    match f
    case VarintField(num, v) => VarintFieldCut(bs, i, depth, num, v);
    case Fixed64(num, data) => FixedCut(bs, i, depth, num, 1, data);
    case BytesField(num, data) => BytesFieldCut(bs, i, depth, num, data);
    case Fixed32(num, data) => FixedCut(bs, i, depth, num, 5, data);
    case Group(num, fields) =>
      var head, rest := Tag(num, 3), EncodeAll(fields) + Tag(num, 4);
      EndsInsideEither(bs, i, head, rest);
      if EndsInside(bs, i, head) {
        TagCut(bs, i, depth, num, 3);
        ErrorRunsOut(bs, i, depth);
      } else {
        FieldsCut(bs, i + |head|, depth + 1, num, fields);
        SkipGroupStart(bs, i, depth, num);
        ErrorRunsOut(bs, i, depth);
      }
  }

  lemma ErrorRunsOut(bs: Buffer, i: nat, depth: nat)
    requires SkipFrom(bs, i, depth).Err?
    ensures RunsOut(bs, i, depth)
  {
  }

  lemma {:induction false} FieldsCut(bs: Buffer, i: nat, depth: nat, num: nat, fields: seq<Field>)
    requires EndsInside(bs, i, EncodeAll(fields) + Tag(num, 4)) && depth > 0
    requires (forall g :: g in fields ==> WellFormed(g)) && i + |EncodeAll(fields) + Tag(num, 4)| < TWO_63
    ensures SkipFrom(bs, i, depth).Err?
    decreases fields
  {
    hide SkipFrom, Varint, Tag, EndsInside, Encode;
    if fields == [] {
      assert EncodeAll(fields) + Tag(num, 4) == Tag(num, 4);
      TagCut(bs, i, depth, num, 4);
    } else {
      var first, rest := Encode(fields[0]), EncodeAll(fields[1..]) + Tag(num, 4);
      assert EncodeAll(fields) + Tag(num, 4) == first + rest;
      EndsInsideEither(bs, i, first, rest);
      if EndsInside(bs, i, first) {
        SkipCut(bs, i, depth, fields[0]);
      } else {
        SkipField(bs, i, depth, fields[0]);
        FieldsCut(bs, i + |first|, depth, num, fields[1..]);
      }
    }
  }

  /** As the decoders call it. */
  lemma SkipAtCut(bs: Buffer, i: nat, f: Field)
    requires EndsInside(bs, i, Encode(f)) && WellFormed(f) && i + |Encode(f)| < TWO_63
    ensures SkipAt(bs, i).Err?
  {
    hide SkipFrom, Encode;
    assert bs[i..][0..] == bs[i..];
    SkipCut(bs[i..], 0, 0, f);
  }

  // ---------------------------------------------------------------- as the decoders see it

  /** A length-delimited field that is cut short: its tag cannot be read, or its
      data cannot. */
  lemma DelimitedFieldCut(bs: Buffer, i: nat, num: nat, data: seq<Byte>)
    requires EndsInside(bs, i, Tag(num, 2) + Delimited(data)) && ValidNumber(num)
    requires i + |Tag(num, 2) + Delimited(data)| < TWO_63
    ensures || ReadTag(bs, i).Err?
            || (ReadTag(bs, i) == Ok(FieldTag(num, 2, i + |Tag(num, 2)|)) && ReadSpan(bs, i + |Tag(num, 2)|).Err?)
  {
    hide Varint, ReadVarint, ReadSpan, Delimited;
    EndsInsideEither(bs, i, Tag(num, 2), Delimited(data));
    if EndsInside(bs, i, Tag(num, 2)) {
      ReadVarintCut(bs, i, num * 8 + 2);
    } else {
      ReadTagReadsBack(bs, i, num, 2);
      ReadSpanCut(bs, i + |Tag(num, 2)|, data);
    }
  }

  /** A varint field that is cut short. */
  lemma NumberFieldCut(bs: Buffer, i: nat, num: nat, v: nat)
    requires EndsInside(bs, i, Tag(num, 0) + Varint(v)) && ValidNumber(num)
    ensures || ReadTag(bs, i).Err?
            || (ReadTag(bs, i) == Ok(FieldTag(num, 0, i + |Tag(num, 0)|)) && ReadVarint(bs, i + |Tag(num, 0)|).Err?)
  {
    hide Varint, ReadVarint;
    EndsInsideEither(bs, i, Tag(num, 0), Varint(v));
    if EndsInside(bs, i, Tag(num, 0)) {
      ReadVarintCut(bs, i, num * 8);
    } else {
      ReadTagReadsBack(bs, i, num, 0);
      ReadVarintCut(bs, i + |Tag(num, 0)|, v);
    }
  }

  /** Field number zero or a negative one, and the end of a group that was not
      begun, are no tags. */
  lemma TagRefused(bs: Buffer, i: nat)
    ensures ReadTag(bs, i).Err? <==>
              || ReadVarint(bs, i).Err?
              || (var v := ReadVarint(bs, i).value.value;
                  v % 8 == 4 || v / 8 % 0x1_0000_0000 == 0 || v / 8 % 0x1_0000_0000 >= 0x8000_0000)
  {
    hide ReadVarint;
  }

  /** A length that is negative as an int64, or reaches past the end, announces no data. */
  lemma SpanRefused(bs: Buffer, i: nat)
    ensures ReadSpan(bs, i).Err? <==>
              || ReadVarint(bs, i).Err?
              || (var n := ReadVarint(bs, i).value;
                  n.value % TWO_64 >= 0x8000_0000_0000_0000 || n.next + n.value % TWO_64 > |bs|)
  {
    hide ReadVarint;
  }

  /** Any field that is cut short: its tag cannot be read, or is its own. */
  lemma FieldTagCut(bs: Buffer, i: nat, f: Field)
    requires EndsInside(bs, i, Encode(f)) && WellFormed(f)
    ensures ReadTag(bs, i).Err? || ReadTag(bs, i).value.num == f.num
  {
    hide Varint, ReadVarint, Delimited;
    var wireType, payload := 0, [];
    match f {
      case VarintField(num, v) => wireType, payload := 0, Varint(v);
      case Fixed64(num, data) => wireType, payload := 1, data;
      case BytesField(num, data) => wireType, payload := 2, Delimited(data);
      case Group(num, fields) => wireType, payload := 3, EncodeAll(fields) + Tag(num, 4);
      case Fixed32(num, data) => wireType, payload := 5, data;
    }
    EndsInsideEither(bs, i, Tag(f.num, wireType), payload);
    if EndsInside(bs, i, Tag(f.num, wireType)) {
      ReadVarintCut(bs, i, f.num * 8 + wireType);
    } else {
      ReadTagReadsBack(bs, i, f.num, wireType);
    }
  }
}
