/** The stored form of a claims record, with its packed list of booleans. */
module ClaimsRecordCodec {
  import opened Common
  import opened Wire
  import opened WireFields
  import opened WireLoops
  import opened WireTruncation

  datatype ClaimsRecord = ClaimsRecord(amount: int, completed: seq<bool>)

  const FRESH: ClaimsRecord := ClaimsRecord(0, [])

  /** The integer type's own encoding: the text of a number, and the number
      that results from reading a text into an integer that holds another,
      absent when the text is refused. */
  datatype IntCodec = IntCodec(text: int -> seq<Byte>, parse: (int, seq<Byte>) -> Option<int>)

  // ---------------------------------------------------------------- writing

  function BitBytes(bits: seq<bool>): (bytes: seq<Byte>)
    ensures |bytes| == |bits|
  {
    seq(|bits|, k requires 0 <= k < |bits| => if bits[k] then 1 else 0)
  }

  /** The amount is always written, the list only when it is not empty. */
  function Marshalled(ints: IntCodec, m: ClaimsRecord): seq<Byte> {
    ([0x0a] + Delimited(ints.text(m.amount))) + OptionalField(0x12, BitBytes(m.completed))
  }

  function Size(ints: IntCodec, m: ClaimsRecord): (n: nat)
    ensures n == |Marshalled(ints, m)|
  {
    var l := |ints.text(m.amount)|;
    SovIsLength(l);
    OptionalSizeIsLength(0x12, BitBytes(m.completed));
    1 + l + Sov(l) + (if |m.completed| > 0 then 1 + Sov(|m.completed|) + |m.completed| else 0)
  }

  /** The packed bits, written from the last to the first. */
  method PutBits(dAtA: array<Byte>, offset: nat, bits: seq<bool>) returns (i: nat)
    requires |bits| <= offset <= dAtA.Length
    modifies dAtA
    ensures i == offset - |bits|
    ensures dAtA[i..offset] == BitBytes(bits)
    ensures forall k :: 0 <= k < dAtA.Length && !(i <= k < offset) ==> dAtA[k] == old(dAtA[k])
  {
    i := offset;
    var iNdEx := |bits| - 1;
    ghost var bytes := BitBytes(bits);
    while iNdEx >= 0
      invariant -1 <= iNdEx < |bits| && i == offset - |bits| + iNdEx + 1
      invariant forall k :: i <= k < offset ==> dAtA[k] == bytes[k - (offset - |bits|)]
      invariant forall k :: 0 <= k < dAtA.Length && !(i <= k < offset) ==> dAtA[k] == old(dAtA[k])
    {
      i := i - 1;
      if bits[iNdEx] {
        dAtA[i] := 1;
      } else {
        dAtA[i] := 0;
      }
      iNdEx := iNdEx - 1;
    }
  }

  /** The whole list field, bits first, then the length and the tag before them. */
  method PutList(dAtA: array<Byte>, offset: nat, bits: seq<bool>) returns (i: nat)
    requires OptionalSize(BitBytes(bits)) <= offset <= dAtA.Length
    modifies dAtA
    ensures i == offset - OptionalSize(BitBytes(bits))
    ensures dAtA[i..offset] == OptionalField(0x12, BitBytes(bits))
    ensures forall k :: 0 <= k < dAtA.Length && !(i <= k < offset) ==> dAtA[k] == old(dAtA[k])
  {
    hide Varint, Sov, BitBytes;
    OptionalSizeIsLength(0x12, BitBytes(bits));
    SovIsLength(|bits|);
    i := offset;
    if |bits| > 0 {
      ghost var data := BitBytes(bits);
      var start := PutBits(dAtA, i, bits);
      ghost var written := dAtA[..];
      i := EncodeVarintBackward(dAtA, start, |bits|);
      assert dAtA[start..offset] == written[start..offset] == data;
      ghost var sized := dAtA[..];
      i := i - 1;
      dAtA[i] := 0x12;
      assert dAtA[i + 1..start] == sized[i + 1..start] == Varint(|data|);
      assert dAtA[start..offset] == sized[start..offset] == data;
      assert dAtA[i..offset] == [dAtA[i]] + (dAtA[i + 1..start] + dAtA[start..offset]);
    }
  }

  method MarshalToSizedBuffer(ints: IntCodec, m: ClaimsRecord, dAtA: array<Byte>) returns (n: nat)
    requires Size(ints, m) <= dAtA.Length
    modifies dAtA
    ensures n == Size(ints, m)
    ensures dAtA[dAtA.Length - n..] == Marshalled(ints, m)
    ensures forall k :: 0 <= k < dAtA.Length - n ==> dAtA[k] == old(dAtA[k])
  {
    hide OptionalField, BitBytes, Varint, Sov, BitLength;
    SovIsLength(|ints.text(m.amount)|);
    OptionalSizeIsLength(0x12, BitBytes(m.completed));
    var end := dAtA.Length;
    var k2 := PutList(dAtA, end, m.completed);
    ghost var after2 := dAtA[..];
    var k1 := PutField(dAtA, k2, 0x0a, ints.text(m.amount));
    assert dAtA[k2..end] == after2[k2..end];
    InThree(dAtA[..], k1, k2, end);
    return end - k1;
  }

  // ---------------------------------------------------------------- reading

  datatype Bits = Bits(values: seq<bool>, next: nat)

  /** Appends one boolean for each number that starts before `post`; a number
      may run past `post`, but not past the buffer. */
  function DecodePacked(bs: Buffer, i: nat, post: nat, acc: seq<bool>): (r: Result<Bits>)
    ensures r.Ok? ==> i <= r.value.next && (r.value.next <= |bs| || r.value.next == i)
    decreases |bs| - i
  {
    if i >= post then Ok(Bits(acc, i))
    else
      match ReadVarint(bs, i)
      case Err(e) => Err(e)
      case Ok(n) => DecodePacked(bs, n.next, post, acc + [n.value != 0])
  }

  function DecodeFrom(ints: IntCodec, bs: Buffer, i: nat, m: ClaimsRecord): Result<ClaimsRecord>
    decreases |bs| - i
  {
    if i >= |bs| then Ok(m)
    else
      match ReadTag(bs, i)
      case Err(e) => Err(e)
      case Ok(tag) =>
        if tag.num == 1 then
          if tag.wireType != 2 then Err(WrongWireType)
          else
            match ReadSpan(bs, tag.next)
            case Err(e) => Err(e)
            case Ok(span) =>
              match ints.parse(m.amount, bs[span.start..span.end])
              case None => Err(BadAmount)
              case Some(v) => DecodeFrom(ints, bs, span.end, m.(amount := v))
        else if tag.num == 2 then
          if tag.wireType == 0 then
            match ReadVarint(bs, tag.next)
            case Err(e) => Err(e)
            case Ok(n) => DecodeFrom(ints, bs, n.next, m.(completed := m.completed + [n.value != 0]))
          else if tag.wireType == 2 then
            match ReadSpan(bs, tag.next)
            case Err(e) => Err(e)
            case Ok(span) =>
              match DecodePacked(bs, span.start, span.end, m.completed)
              case Err(e) => Err(e)
              case Ok(bits) => DecodeFrom(ints, bs, bits.next, m.(completed := bits.values))
          else Err(WrongWireType)
        else
          match SkipAt(bs, i)
          case Err(e) => Err(e)
          case Ok(next) => DecodeFrom(ints, bs, next, m)
  }

  method DecodePackedLoop(dAtA: Buffer, index: nat, postIndex: nat, completed: seq<bool>) returns (r: Result<Bits>)
    ensures r == DecodePacked(dAtA, index, postIndex, completed)
  {
    hide ReadVarint;
    var iNdEx, acc := index, completed;
    while iNdEx < postIndex
      invariant DecodePacked(dAtA, iNdEx, postIndex, acc) == DecodePacked(dAtA, index, postIndex, completed)
      decreases |dAtA| - iNdEx
    {
      var v := DecodeVarintLoop(dAtA, iNdEx);
      if v.Err? {
        return Err(v.error);
      }
      iNdEx := v.value.next;
      acc := acc + [v.value.value != 0];
    }
    return Ok(Bits(acc, iNdEx));
  }

  method Unmarshal(ints: IntCodec, m0: ClaimsRecord, dAtA: Buffer) returns (r: Result<ClaimsRecord>)
    ensures r == DecodeFrom(ints, dAtA, 0, m0)
  {
    hide ReadVarint, SkipFrom, ReadTag, ReadSpan, SkipAt, DecodePacked;
    var m := m0;
    var l := |dAtA|;
    var iNdEx: nat := 0;
    while iNdEx < l
      invariant DecodeFrom(ints, dAtA, iNdEx, m) == DecodeFrom(ints, dAtA, 0, m0)
      decreases l - iNdEx
    {
      var preIndex := iNdEx;
      var tag := ReadTagLoop(dAtA, iNdEx);
      if tag.Err? {
        return Err(tag.error);
      }
      var fieldNum, wireType := tag.value.num, tag.value.wireType;
      if fieldNum == 1 {
        if wireType != 2 {
          return Err(WrongWireType);
        }
        var span := ReadSpanLoop(dAtA, tag.value.next);
        if span.Err? {
          return Err(span.error);
        }
        var amount := ints.parse(m.amount, dAtA[span.value.start..span.value.end]);
        if amount.None? {
          return Err(BadAmount);
        }
        m := m.(amount := amount.value);
        iNdEx := span.value.end;
      } else if fieldNum == 2 && wireType == 0 {
        var v := DecodeVarintLoop(dAtA, tag.value.next);
        if v.Err? {
          return Err(v.error);
        }
        iNdEx := v.value.next;
        m := m.(completed := m.completed + [v.value.value != 0]);
      } else if fieldNum == 2 && wireType == 2 {
        var span := ReadSpanLoop(dAtA, tag.value.next);
        if span.Err? {
          return Err(span.error);
        }
        var bits := DecodePackedLoop(dAtA, span.value.start, span.value.end, m.completed);
        if bits.Err? {
          return Err(bits.error);
        }
        m := m.(completed := bits.value.values);
        iNdEx := bits.value.next;
      } else if fieldNum == 2 {
        return Err(WrongWireType);
      } else {
        var next := SkipAtLoop(dAtA, preIndex);
        if next.Err? {
          return Err(next.error);
        }
        iNdEx := next.value;
      }
    }
    return Ok(m);
  }

  // ---------------------------------------------------------------- meaning

  /** A piece of an encoded record: the amount, a packed list of numbers, a
      single number of the list, or a field this version does not know. */
  datatype Part =
    | Amount(data: seq<Byte>)
    | Packed(numbers: seq<nat>)
    | Single(number: nat)
    | Unknown(field: Field)

  predicate ValidPart(p: Part) {
    match p
    case Amount(_) => true
    case Packed(numbers) => forall k :: 0 <= k < |numbers| ==> numbers[k] < TWO_64
    case Single(v) => v < TWO_64
    case Unknown(f) => WellFormed(f) && f.num > 2
  }

  function PackedBytes(numbers: seq<nat>): seq<Byte> {
    if numbers == [] then [] else Varint(numbers[0]) + PackedBytes(numbers[1..])
  }

  function PartField(p: Part): Field {
    match p
    case Amount(data) => BytesField(1, data)
    case Packed(numbers) => BytesField(2, PackedBytes(numbers))
    case Single(v) => VarintField(2, v)
    case Unknown(f) => f
  }

  function AllBytes(parts: seq<Part>): seq<Byte> {
    if parts == [] then [] else Encode(PartField(parts[0])) + AllBytes(parts[1..])
  }

  function Truths(numbers: seq<nat>): seq<bool> {
    if numbers == [] then [] else [numbers[0] != 0] + Truths(numbers[1..])
  }

  function Effect(ints: IntCodec, m: ClaimsRecord, p: Part): Result<ClaimsRecord> {
    match p
    case Amount(data) =>
      var v := ints.parse(m.amount, data);
      if v.None? then Err(BadAmount) else Ok(m.(amount := v.value))
    case Packed(numbers) => Ok(m.(completed := m.completed + Truths(numbers)))
    case Single(v) => Ok(m.(completed := m.completed + [v != 0]))
    case Unknown(_) => Ok(m)
  }

  /** What a sequence of parts says: every amount must be readable and the last
      one wins, lists accumulate. */
  function Meaning(ints: IntCodec, m: ClaimsRecord, parts: seq<Part>): Result<ClaimsRecord>
    decreases |parts|
  {
    if parts == [] then Ok(m)
    else
      match Effect(ints, m, parts[0])
      case Err(e) => Err(e)
      case Ok(m1) => Meaning(ints, m1, parts[1..])
  }

  lemma {:induction false} DecodePackedReadsBack(bs: Buffer, i: nat, numbers: seq<nat>, acc: seq<bool>)
    requires At(bs, i, PackedBytes(numbers))
    requires forall k :: 0 <= k < |numbers| ==> numbers[k] < TWO_64
    ensures DecodePacked(bs, i, i + |PackedBytes(numbers)|, acc)
            == Ok(Bits(acc + Truths(numbers), i + |PackedBytes(numbers)|))
    decreases |numbers|
  {
    hide ReadVarint;
    if numbers == [] {
      assert acc + [] == acc;
    } else {
      var head, tail := Varint(numbers[0]), PackedBytes(numbers[1..]);
      AtSplit(bs, i, head, tail);
      ReadVarintReadsBack(bs, i, numbers[0]);
      assert i + |head| + |tail| == i + |PackedBytes(numbers)|;
      DecodePackedReadsBack(bs, i + |head|, numbers[1..], acc + [numbers[0] != 0]);
      assert acc + [numbers[0] != 0] + Truths(numbers[1..]) == acc + Truths(numbers);
    }
  }

  /** Decoding goes on behind a part whose effect is known. */
  function Continue(ints: IntCodec, bs: Buffer, end: nat, effect: Result<ClaimsRecord>): Result<ClaimsRecord> {
    match effect
    case Err(e) => Err(e)
    case Ok(m) => DecodeFrom(ints, bs, end, m)
  }

  lemma DecodeAmount(ints: IntCodec, bs: Buffer, i: nat, m: ClaimsRecord, data: seq<Byte>)
    requires At(bs, i, Encode(BytesField(1, data)))
    ensures DecodeFrom(ints, bs, i, m) == Continue(ints, bs, i + |Encode(BytesField(1, data))|, Effect(ints, m, Amount(data)))
  {
    hide ReadVarint, SkipFrom, ReadSpan, SkipAt, ReadTag, Varint, DecodePacked;
    AtSplit(bs, i, Tag(1, 2), Delimited(data));
    ReadTagReadsBack(bs, i, 1, 2);
    ReadSpanReadsBack(bs, i + |Tag(1, 2)|, data);
  }

  lemma DecodeList(ints: IntCodec, bs: Buffer, i: nat, m: ClaimsRecord, numbers: seq<nat>)
    requires ValidPart(Packed(numbers)) && At(bs, i, Encode(BytesField(2, PackedBytes(numbers))))
    ensures DecodeFrom(ints, bs, i, m)
            == Continue(ints, bs, i + |Encode(BytesField(2, PackedBytes(numbers)))|, Effect(ints, m, Packed(numbers)))
  {
    hide ReadVarint, SkipFrom, ReadSpan, SkipAt, ReadTag, Varint, DecodePacked, PackedBytes;
    var data := PackedBytes(numbers);
    AtSplit(bs, i, Tag(2, 2), Delimited(data));
    ReadTagReadsBack(bs, i, 2, 2);
    var j := i + |Tag(2, 2)|;
    AtSplit(bs, j, Varint(|data|), data);
    ReadSpanReadsBack(bs, j, data);
    DecodePackedReadsBack(bs, j + |Varint(|data|)|, numbers, m.completed);
  }

  lemma DecodeSingle(ints: IntCodec, bs: Buffer, i: nat, m: ClaimsRecord, v: nat)
    requires v < TWO_64 && At(bs, i, Encode(VarintField(2, v)))
    ensures DecodeFrom(ints, bs, i, m) == Continue(ints, bs, i + |Encode(VarintField(2, v))|, Effect(ints, m, Single(v)))
  {
    hide ReadVarint, SkipFrom, ReadSpan, SkipAt, ReadTag, Varint, DecodePacked;
    AtSplit(bs, i, Tag(2, 0), Varint(v));
    ReadTagReadsBack(bs, i, 2, 0);
    ReadVarintReadsBack(bs, i + |Tag(2, 0)|, v);
  }

  lemma DecodeUnknown(ints: IntCodec, bs: Buffer, i: nat, m: ClaimsRecord, f: Field)
    requires WellFormed(f) && f.num > 2 && At(bs, i, Encode(f))
    ensures DecodeFrom(ints, bs, i, m) == DecodeFrom(ints, bs, i + |Encode(f)|, m)
  {
    hide ReadVarint, SkipFrom, ReadSpan, SkipAt, ReadTag, Varint, DecodePacked, Encode;
    var wireType := FieldStartsWithTag(bs, i, f);
    ReadTagReadsBack(bs, i, f.num, wireType);
    SkipAtField(bs, i, f);
  }

  lemma {:induction false} DecodeParts(ints: IntCodec, bs: Buffer, i: nat, m: ClaimsRecord, parts: seq<Part>)
    requires At(bs, i, AllBytes(parts))
    requires forall p :: p in parts ==> ValidPart(p)
    ensures DecodeFrom(ints, bs, i, m) == Continue(ints, bs, i + |AllBytes(parts)|, Meaning(ints, m, parts))
    decreases |parts|
  {
    hide DecodeFrom, Encode;
    if parts != [] {
      var p := parts[0];
      AtSplit(bs, i, Encode(PartField(p)), AllBytes(parts[1..]));
      match p {
        case Amount(data) => DecodeAmount(ints, bs, i, m, data);
        case Packed(numbers) => DecodeList(ints, bs, i, m, numbers);
        case Single(v) => DecodeSingle(ints, bs, i, m, v);
        case Unknown(f) => DecodeUnknown(ints, bs, i, m, f);
      }
      if Effect(ints, m, p).Ok? {
        DecodeParts(ints, bs, i + |Encode(PartField(p))|, Effect(ints, m, p).value, parts[1..]);
      }
    }
  }

  /** Any sequence of amounts, packed or single list entries and unknown fields
      decodes to what it says, or fails at the first amount that is refused. */
  lemma DecodeIsMeaning(ints: IntCodec, m: ClaimsRecord, parts: seq<Part>)
    requires (forall p :: p in parts ==> ValidPart(p)) && |AllBytes(parts)| < TWO_63
    ensures DecodeFrom(ints, AllBytes(parts), 0, m) == Meaning(ints, m, parts)
  {
    var bs: Buffer := AllBytes(parts);
    assert bs[0..0 + |bs|] == bs;
    DecodeParts(ints, bs, 0, m, parts);
  }

  // ---------------------------------------------------------------- what is refused

  /** A record cut short inside its last field is refused, wherever the cut is. */
  lemma TruncationIsDetected(ints: IntCodec, m: ClaimsRecord, parts: seq<Part>, last: Part, n: nat)
    requires (forall p :: p in parts ==> ValidPart(p)) && ValidPart(last) && 0 < n < |Encode(PartField(last))|
    requires |AllBytes(parts) + Encode(PartField(last))| < TWO_63
    ensures DecodeFrom(ints, AllBytes(parts) + Encode(PartField(last))[..n], 0, m).Err?
  {
    hide DecodeFrom, Encode;
    var head := AllBytes(parts);
    var bs: Buffer := head + Encode(PartField(last))[..n];
    assert bs[0..0 + |head|] == head && bs[|head|..] == Encode(PartField(last))[..n];
    DecodeParts(ints, bs, 0, m, parts);
    if Meaning(ints, m, parts).Ok? {
      PartCut(ints, bs, |head|, Meaning(ints, m, parts).value, last);
    }
  }

  lemma PartCut(ints: IntCodec, bs: Buffer, i: nat, m: ClaimsRecord, p: Part)
    requires ValidPart(p) && EndsInside(bs, i, Encode(PartField(p))) && i < |bs| && i + |Encode(PartField(p))| < TWO_63
    ensures DecodeFrom(ints, bs, i, m).Err?
  {
    hide ReadTag, ReadSpan, ReadVarint, SkipAt, EndsInside, Tag, Delimited, PackedBytes, DecodePacked;
    match p
    case Amount(data) => DelimitedFieldCut(bs, i, 1, data);
    case Packed(numbers) => DelimitedFieldCut(bs, i, 2, PackedBytes(numbers));
    case Single(v) => NumberFieldCut(bs, i, 2, v);
    case Unknown(f) =>
      FieldTagCut(bs, i, f);
      SkipAtCut(bs, i, f);
  }

  /** So is one of its own fields with another wire type, a number of the list
      that cannot be read, and anything whose tag or announced length is not
      acceptable. */
  lemma MalformedIsRefused(ints: IntCodec, bs: Buffer, i: nat, m: ClaimsRecord)
    requires i < |bs|
    ensures ReadTag(bs, i).Err? ==> DecodeFrom(ints, bs, i, m).Err?
    ensures ReadTag(bs, i).Ok? ==>
              var tag := ReadTag(bs, i).value;
              && (tag.num == 1 && (tag.wireType != 2 || ReadSpan(bs, tag.next).Err?) ==> DecodeFrom(ints, bs, i, m).Err?)
              && (tag.num == 2 && tag.wireType != 0 && tag.wireType != 2 ==> DecodeFrom(ints, bs, i, m).Err?)
              && (tag.num == 2 && tag.wireType == 0 && ReadVarint(bs, tag.next).Err? ==> DecodeFrom(ints, bs, i, m).Err?)
              && (tag.num == 2 && tag.wireType == 2 && ReadSpan(bs, tag.next).Err? ==> DecodeFrom(ints, bs, i, m).Err?)
              && (tag.num > 2 && SkipAt(bs, i).Err? ==> DecodeFrom(ints, bs, i, m).Err?)
  {
    hide ReadTag, ReadSpan, ReadVarint, SkipAt, DecodePacked;
  }

  // ---------------------------------------------------------------- round trip

  function Numbers(bits: seq<bool>): seq<nat> {
    if bits == [] then [] else [if bits[0] then 1 else 0] + Numbers(bits[1..])
  }

  lemma {:induction false} NumbersReadBack(bits: seq<bool>)
    ensures Truths(Numbers(bits)) == bits
    ensures PackedBytes(Numbers(bits)) == BitBytes(bits)
    ensures forall k :: 0 <= k < |Numbers(bits)| ==> Numbers(bits)[k] <= 1
  {
    if bits != [] {
      NumbersReadBack(bits[1..]);
      var n := Numbers(bits);
      assert n[1..] == Numbers(bits[1..]);
      assert Varint(n[0]) == [n[0]];
      assert BitBytes(bits) == [n[0]] + BitBytes(bits[1..]);
    }
  }

  function OwnParts(ints: IntCodec, m: ClaimsRecord): seq<Part> {
    [Amount(ints.text(m.amount))] + (if m.completed == [] then [] else [Packed(Numbers(m.completed))])
  }

  lemma MarshalledIsOwnParts(ints: IntCodec, m: ClaimsRecord)
    requires ints.parse(FRESH.amount, ints.text(m.amount)) == Some(m.amount)
    ensures AllBytes(OwnParts(ints, m)) == Marshalled(ints, m)
    ensures Meaning(ints, FRESH, OwnParts(ints, m)) == Ok(m)
    ensures forall p :: p in OwnParts(ints, m) ==> ValidPart(p)
  {
    NumbersReadBack(m.completed);
    var parts := OwnParts(ints, m);
    assert Tag(1, 2) == [0x0a] && Tag(2, 2) == [0x12];
    if m.completed == [] {
      assert parts[1..] == [];
    } else {
      var list := Packed(Numbers(m.completed));
      assert parts[1..] == [list] && parts[1..][1..] == [];
      assert AllBytes(parts[1..]) == Encode(PartField(list)) + AllBytes(parts[1..][1..]);
      assert AllBytes([list]) == OptionalField(0x12, BitBytes(m.completed));
      var m1 := Effect(ints, FRESH, parts[0]).value;
      assert Effect(ints, m1, list).value.completed == [] + m.completed == m.completed;
      assert Meaning(ints, m1, parts[1..]) == Meaning(ints, Effect(ints, m1, list).value, parts[1..][1..]);
    }
  }

  /** Encoding and decoding into a fresh record returns the original, provided
      the integer type reads its own text back. */
  lemma RoundTrip(ints: IntCodec, m: ClaimsRecord)
    requires |Marshalled(ints, m)| < TWO_63 && ints.parse(FRESH.amount, ints.text(m.amount)) == Some(m.amount)
    ensures DecodeFrom(ints, Marshalled(ints, m), 0, FRESH) == Ok(m)
  {
    MarshalledIsOwnParts(ints, m);
    DecodeIsMeaning(ints, FRESH, OwnParts(ints, m));
  }
}
