/** Well-formed fields of any message, nested groups included, and the proof
    that skipping consumes exactly one of them. */
module WireFields {
  import opened Common
  import opened Wire

  const MAX_FIELD_NUMBER: nat := 0x1FFF_FFFF

  datatype Field =
    | VarintField(num: nat, value: nat)
    | Fixed64(num: nat, data: seq<Byte>)
    | BytesField(num: nat, data: seq<Byte>)
    | Group(num: nat, fields: seq<Field>)
    | Fixed32(num: nat, data: seq<Byte>)

  predicate ValidNumber(num: nat) { 1 <= num <= MAX_FIELD_NUMBER }

  predicate WellFormed(f: Field) {
    ValidNumber(f.num) &&
    match f
    case VarintField(_, v) => v < TWO_64
    case Fixed64(_, data) => |data| == 8
    case BytesField(_, data) => true
    case Group(_, fields) => forall g :: g in fields ==> WellFormed(g)
    case Fixed32(_, data) => |data| == 4
  }

  function Tag(num: nat, wireType: nat): seq<Byte> { Varint(num * 8 + wireType) }

  function Encode(f: Field): (bytes: seq<Byte>)
    ensures |bytes| >= 1
    decreases f
  {
    match f
    case VarintField(num, v) => Tag(num, 0) + Varint(v)
    case Fixed64(num, data) => Tag(num, 1) + data
    case BytesField(num, data) => Tag(num, 2) + Delimited(data)
    case Group(num, fields) => Tag(num, 3) + (EncodeAll(fields) + Tag(num, 4))
    case Fixed32(num, data) => Tag(num, 5) + data
  }

  function EncodeAll(fields: seq<Field>): seq<Byte>
    decreases fields
  {
    if fields == [] then [] else Encode(fields[0]) + EncodeAll(fields[1..])
  }

  lemma TagReadsBack(bs: Buffer, i: nat, num: nat, wireType: nat)
    requires At(bs, i, Tag(num, wireType)) && ValidNumber(num) && wireType < 8
    ensures ReadVarint(bs, i) == Ok(Number(num * 8 + wireType, i + |Tag(num, wireType)|))
    ensures (num * 8 + wireType) % 8 == wireType && ToInt32((num * 8 + wireType) / 8) == num
  {
    ReadVarintReadsBack(bs, i, num * 8 + wireType);
  }

  /** One turn of the skipping loop. */
  lemma SkipTurn(bs: Buffer, i: nat, depth: nat, num: nat, wireType: nat, p: Position)
    requires At(bs, i, Tag(num, wireType)) && ValidNumber(num) && wireType < 8
    requires SkipPayload(bs, i + |Tag(num, wireType)|, depth, wireType) == Ok(p) && p.index >= 0
    ensures p.index > i && p.depth >= 0
    ensures SkipFrom(bs, i, depth) == if p.depth == 0 then Ok(p.index) else SkipFrom(bs, p.index, p.depth)
  {
    hide SkipPayload, DecodeVarint, Varint;
    TagReadsBack(bs, i, num, wireType);
    assert |Tag(num, wireType)| >= 1;
  }

  /** Where skipping stands after a field that ends at `end`. */
  function Resume(bs: Buffer, end: nat, depth: nat): Result<nat> {
    if depth == 0 then Ok(end) else SkipFrom(bs, end, depth)
  }

  lemma SkipVarintField(bs: Buffer, i: nat, depth: nat, num: nat, v: nat)
    requires At(bs, i, Tag(num, 0) + Varint(v)) && ValidNumber(num) && v < TWO_64
    ensures SkipFrom(bs, i, depth) == Resume(bs, i + |Tag(num, 0) + Varint(v)|, depth)
  {
    hide SkipFrom, DecodeVarint;
    AtSplit(bs, i, Tag(num, 0), Varint(v));
    ReadVarintReadsBack(bs, i + |Tag(num, 0)|, v);
    SkipTurn(bs, i, depth, num, 0, Position(i + |Tag(num, 0)| + |Varint(v)|, depth));
  }

  lemma SkipFixedField(bs: Buffer, i: nat, depth: nat, num: nat, wireType: nat, data: seq<Byte>)
    requires At(bs, i, Tag(num, wireType) + data) && ValidNumber(num)
    requires (wireType == 1 && |data| == 8) || (wireType == 5 && |data| == 4)
    ensures SkipFrom(bs, i, depth) == Resume(bs, i + |Tag(num, wireType) + data|, depth)
  {
    hide SkipFrom, DecodeVarint;
    AtSplit(bs, i, Tag(num, wireType), data);
    var end := i + |Tag(num, wireType)| + |data|;
    SmallInt64(end);
    SkipTurn(bs, i, depth, num, wireType, Position(end, depth));
  }

  lemma SkipBytesField(bs: Buffer, i: nat, depth: nat, num: nat, data: seq<Byte>)
    requires At(bs, i, Tag(num, 2) + Delimited(data)) && ValidNumber(num)
    ensures SkipFrom(bs, i, depth) == Resume(bs, i + |Tag(num, 2) + Delimited(data)|, depth)
  {
    hide SkipFrom, DecodeVarint;
    AtSplit(bs, i, Tag(num, 2), Delimited(data));
    var j := i + |Tag(num, 2)|;
    AtSplit(bs, j, Varint(|data|), data);
    ReadVarintReadsBack(bs, j, |data|);
    var end := j + |Varint(|data|)| + |data|;
    SmallInt64(|data|);
    SmallInt64(end);
    assert SkipPayload(bs, j, depth, 2) == Ok(Position(end, depth));
    SkipTurn(bs, i, depth, num, 2, Position(end, depth));
  }

  lemma SkipGroupStart(bs: Buffer, i: nat, depth: nat, num: nat)
    requires At(bs, i, Tag(num, 3)) && ValidNumber(num)
    ensures SkipFrom(bs, i, depth) == SkipFrom(bs, i + |Tag(num, 3)|, depth + 1)
  {
    hide DecodeVarint;
    SkipTurn(bs, i, depth, num, 3, Position(i + |Tag(num, 3)|, depth + 1));
  }

  lemma SkipGroupEnd(bs: Buffer, i: nat, depth: nat, num: nat)
    requires At(bs, i, Tag(num, 4)) && ValidNumber(num)
    ensures SkipFrom(bs, i, depth + 1) == Resume(bs, i + |Tag(num, 4)|, depth)
  {
    hide SkipFrom, DecodeVarint;
    SkipTurn(bs, i, depth + 1, num, 4, Position(i + |Tag(num, 4)|, depth));
  }

  /** Skipping a well-formed field, however deeply nested, lands exactly on its
      last byte; inside groups the loop carries on from there. */
  lemma {:induction false} SkipField(bs: Buffer, i: nat, depth: nat, f: Field)
    requires At(bs, i, Encode(f)) && WellFormed(f)
    ensures SkipFrom(bs, i, depth) == Resume(bs, i + |Encode(f)|, depth)
    decreases f
  {
    hide SkipFrom, DecodeVarint, Varint, Tag, Delimited, At, Resume;
    match f
    case VarintField(num, v) => SkipVarintField(bs, i, depth, num, v);
    case Fixed64(num, data) => SkipFixedField(bs, i, depth, num, 1, data);
    case BytesField(num, data) => SkipBytesField(bs, i, depth, num, data);
    case Fixed32(num, data) => SkipFixedField(bs, i, depth, num, 5, data);
    case Group(num, fields) =>
      var head, body := Tag(num, 3), EncodeAll(fields);
      GroupParts(bs, i, num, body);
      SkipGroupStart(bs, i, depth, num);
      SkipFields(bs, i + |head|, depth + 1, fields);
      SkipGroupEnd(bs, i + |head| + |body|, depth, num);
  }

  lemma GroupParts(bs: Buffer, i: nat, num: nat, body: seq<Byte>)
    requires At(bs, i, Tag(num, 3) + (body + Tag(num, 4)))
    ensures At(bs, i, Tag(num, 3)) && At(bs, i + |Tag(num, 3)|, body) && At(bs, i + |Tag(num, 3)| + |body|, Tag(num, 4))
  {
    hide Tag;
    AtSplit(bs, i, Tag(num, 3), body + Tag(num, 4));
    AtSplit(bs, i + |Tag(num, 3)|, body, Tag(num, 4));
  }

  lemma {:induction false} SkipFields(bs: Buffer, i: nat, depth: nat, fields: seq<Field>)
    requires At(bs, i, EncodeAll(fields)) && depth > 0
    requires forall g :: g in fields ==> WellFormed(g)
    ensures SkipFrom(bs, i, depth) == SkipFrom(bs, i + |EncodeAll(fields)|, depth)
    decreases fields
  {
    hide SkipFrom, DecodeVarint, Varint;
    if fields != [] {
      AtSplit(bs, i, Encode(fields[0]), EncodeAll(fields[1..]));
      SkipField(bs, i, depth, fields[0]);
      SkipFields(bs, i + |Encode(fields[0])|, depth, fields[1..]);
    }
  }

  /** On the rest of a buffer, as the decoders call it. */
  lemma SkipUnknown(bs: Buffer, i: nat, f: Field)
    requires At(bs, i, Encode(f)) && WellFormed(f)
    ensures SkipFrom(bs[i..], 0, 0) == Ok(|Encode(f)|)
  {
    assert bs[i..][..|Encode(f)|] == bs[i..i + |Encode(f)|];
    SkipField(bs[i..], 0, 0, f);
  }

  // ---------------------------------------------------------------- as the decoders see a field

  lemma ReadTagReadsBack(bs: Buffer, i: nat, num: nat, wireType: nat)
    requires At(bs, i, Tag(num, wireType)) && ValidNumber(num) && wireType < 8 && wireType != 4
    ensures ReadTag(bs, i) == Ok(FieldTag(num, wireType, i + |Tag(num, wireType)|))
  {
    hide DecodeVarint, Varint;
    TagReadsBack(bs, i, num, wireType);
  }

  /** A length-delimited field reads back as its tag and its data. */
  lemma BytesFieldReadsBack(bs: Buffer, i: nat, num: nat, data: seq<Byte>)
    requires At(bs, i, Tag(num, 2) + Delimited(data)) && ValidNumber(num)
    ensures var next := i + |Tag(num, 2)|;
            && i < |bs| && ReadTag(bs, i) == Ok(FieldTag(num, 2, next))
            && var r := ReadSpan(bs, next);
               && r.Ok? && r.value.end == i + |Tag(num, 2) + Delimited(data)|
               && bs[r.value.start..r.value.end] == data
  {
    hide ReadTag, ReadSpan, ReadVarint, Varint;
    AtSplit(bs, i, Tag(num, 2), Delimited(data));
    ReadTagReadsBack(bs, i, num, 2);
    ReadSpanReadsBack(bs, i + |Tag(num, 2)|, data);
  }

  /** Every field starts with its own tag. */
  lemma FieldStartsWithTag(bs: Buffer, i: nat, f: Field) returns (wireType: nat)
    requires At(bs, i, Encode(f)) && WellFormed(f)
    ensures wireType < 8 && wireType != 4 && At(bs, i, Tag(f.num, wireType))
  {
    hide Varint;
    match f
    case VarintField(num, v) => wireType := 0; AtSplit(bs, i, Tag(num, 0), Varint(v));
    case Fixed64(num, data) => wireType := 1; AtSplit(bs, i, Tag(num, 1), data);
    case BytesField(num, data) => wireType := 2; AtSplit(bs, i, Tag(num, 2), Delimited(data));
    case Group(num, fields) => wireType := 3; AtSplit(bs, i, Tag(num, 3), EncodeAll(fields) + Tag(num, 4));
    case Fixed32(num, data) => wireType := 5; AtSplit(bs, i, Tag(num, 5), data);
  }

  /** An unknown field is stepped over exactly. */
  lemma SkipAtField(bs: Buffer, i: nat, f: Field)
    requires At(bs, i, Encode(f)) && WellFormed(f)
    ensures SkipAt(bs, i) == Ok(i + |Encode(f)|)
  {
    hide SkipFrom, Encode;
    SkipUnknown(bs, i, f);
    SmallInt64(i + |Encode(f)|);
  }
}
