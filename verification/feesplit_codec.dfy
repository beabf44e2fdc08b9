/** The stored form of a fee split. */
module FeeSplitCodec {
  import opened Common
  import opened Wire
  import opened WireFields
  import opened WireLoops
  import opened WireTruncation

  /** The three address strings, as bytes. */
  datatype FeeSplit = FeeSplit(contract: seq<Byte>, deployer: seq<Byte>, withdrawer: seq<Byte>)

  const FRESH: FeeSplit := FeeSplit([], [], [])

  // ---------------------------------------------------------------- writing

  function Marshalled(m: FeeSplit): seq<Byte> {
    OptionalField(0x0a, m.contract) + OptionalField(0x12, m.deployer) + OptionalField(0x1a, m.withdrawer)
  }

  function Size(m: FeeSplit): (n: nat)
    ensures n == |Marshalled(m)|
  {
    OptionalSizeIsLength(0x0a, m.contract);
    OptionalSizeIsLength(0x12, m.deployer);
    OptionalSizeIsLength(0x1a, m.withdrawer);
    OptionalSize(m.contract) + OptionalSize(m.deployer) + OptionalSize(m.withdrawer)
  }

  /** Fills the end of a buffer from back to front: exactly `Size` bytes, no
      gap, no overlap, nothing before them touched. */
  method MarshalToSizedBuffer(m: FeeSplit, dAtA: array<Byte>) returns (n: nat)
    requires Size(m) <= dAtA.Length
    modifies dAtA
    ensures n == Size(m)
    ensures dAtA[dAtA.Length - n..] == Marshalled(m)
    ensures forall k :: 0 <= k < dAtA.Length - n ==> dAtA[k] == old(dAtA[k])
  {
    hide OptionalField, OptionalSize, Sov, BitLength, Varint;
    OptionalSizeIsLength(0x0a, m.contract);
    OptionalSizeIsLength(0x12, m.deployer);
    OptionalSizeIsLength(0x1a, m.withdrawer);
    var end := dAtA.Length;
    var k3 := PutOptionalField(dAtA, end, 0x1a, m.withdrawer);
    ghost var after3 := dAtA[..];
    var k2 := PutOptionalField(dAtA, k3, 0x12, m.deployer);
    assert dAtA[k3..end] == after3[k3..end];
    ghost var after2 := dAtA[..];
    var k1 := PutOptionalField(dAtA, k2, 0x0a, m.contract);
    assert dAtA[k2..k3] == after2[k2..k3] && dAtA[k3..end] == after2[k3..end];
    InThree(dAtA[..], k1, k2, k3);
    return end - k1;
  }

  method Marshal(m: FeeSplit) returns (dAtA: array<Byte>)
    ensures fresh(dAtA) && dAtA[..] == Marshalled(m)
  {
    dAtA := new Byte[Size(m)];
    var n := MarshalToSizedBuffer(m, dAtA);
  }

  // ---------------------------------------------------------------- reading

  function SetField(m: FeeSplit, num: int, data: seq<Byte>): FeeSplit {
    match num
    case 1 => m.(contract := data)
    case 2 => m.(deployer := data)
    case 3 => m.(withdrawer := data)
    case _ => m
  }

  /** Decoding from index `i` on, on top of what `m` already holds. */
  function DecodeFrom(bs: Buffer, i: nat, m: FeeSplit): Result<FeeSplit>
    decreases |bs| - i
  {
    if i >= |bs| then Ok(m)
    else
      match ReadTag(bs, i)
      case Err(e) => Err(e)
      case Ok(tag) =>
        if 1 <= tag.num <= 3 then
          if tag.wireType != 2 then Err(WrongWireType)
          else
            match ReadSpan(bs, tag.next)
            case Err(e) => Err(e)
            case Ok(span) => DecodeFrom(bs, span.end, SetField(m, tag.num, bs[span.start..span.end]))
        else
          match SkipAt(bs, i)
          case Err(e) => Err(e)
          case Ok(next) => DecodeFrom(bs, next, m)
  }

  /** The generated decoder; every byte sequence is decoded or refused. */
  method Unmarshal(m0: FeeSplit, dAtA: Buffer) returns (r: Result<FeeSplit>)
    ensures r == DecodeFrom(dAtA, 0, m0)
  {
    hide ReadVarint, SkipFrom, ReadTag, ReadSpan, SkipAt;
    var m := m0;
    var l := |dAtA|;
    var iNdEx: nat := 0;
    while iNdEx < l
      invariant iNdEx <= l
      invariant DecodeFrom(dAtA, iNdEx, m) == DecodeFrom(dAtA, 0, m0)
      decreases l - iNdEx
    {
      var preIndex := iNdEx;
      var tag := ReadTagLoop(dAtA, iNdEx);
      if tag.Err? {
        return Err(tag.error);
      }
      var fieldNum := tag.value.num;
      if 1 <= fieldNum <= 3 {
        if tag.value.wireType != 2 {
          return Err(WrongWireType);
        }
        var span := ReadSpanLoop(dAtA, tag.value.next);
        if span.Err? {
          return Err(span.error);
        }
        var text := dAtA[span.value.start..span.value.end];
        match fieldNum {
          case 1 => m := m.(contract := text);
          case 2 => m := m.(deployer := text);
          case 3 => m := m.(withdrawer := text);
        }
        iNdEx := span.value.end;
      } else {
        var next := SkipAtLoop(dAtA, preIndex);
        if next.Err? {
          return Err(next.error);
        }
        iNdEx := next.value;
      }
    }
    return Ok(m);
  }

  // ---------------------------------------------------------------- meaning

  /** A piece of an encoded message: one of its own fields, or a field this
      version does not know. */
  datatype Part = Known(num: nat, data: seq<Byte>) | Unknown(field: Field)

  predicate ValidPart(p: Part) {
    match p
    case Known(num, _) => 1 <= num <= 3
    case Unknown(f) => WellFormed(f) && f.num > 3
  }

  function PartBytes(p: Part): (bytes: seq<Byte>)
    ensures |bytes| >= 1
  {
    match p
    case Known(num, data) => Encode(BytesField(num, data))
    case Unknown(f) => Encode(f)
  }

  function AllBytes(parts: seq<Part>): seq<Byte> {
    if parts == [] then [] else PartBytes(parts[0]) + AllBytes(parts[1..])
  }

  function Effect(m: FeeSplit, p: Part): FeeSplit {
    if p.Known? then SetField(m, p.num, p.data) else m
  }

  /** What a sequence of parts says: later fields win, unknown ones are dropped. */
  function Meaning(m: FeeSplit, parts: seq<Part>): FeeSplit
    decreases |parts|
  {
    if parts == [] then m else Meaning(Effect(m, parts[0]), parts[1..])
  }

  lemma DecodePart(bs: Buffer, i: nat, m: FeeSplit, p: Part)
    requires At(bs, i, PartBytes(p)) && ValidPart(p)
    ensures DecodeFrom(bs, i, m) == DecodeFrom(bs, i + |PartBytes(p)|, Effect(m, p))
  {
    hide DecodeFrom, At, Encode, Tag, Delimited;
    match p
    case Known(num, data) => DecodeKnown(bs, i, m, num, data);
    case Unknown(f) => DecodeUnknown(bs, i, m, f);
  }

  lemma DecodeKnown(bs: Buffer, i: nat, m: FeeSplit, num: nat, data: seq<Byte>)
    requires ValidPart(Known(num, data)) && At(bs, i, PartBytes(Known(num, data)))
    ensures DecodeFrom(bs, i, m) == DecodeFrom(bs, i + |PartBytes(Known(num, data))|, SetField(m, num, data))
  {
    hide DecodeFrom, ReadSpan, ReadTag, Tag, Delimited, At, SetField;
    BytesFieldReadsBack(bs, i, num, data);
    KnownTurn(bs, i, m, num, i + |Tag(num, 2)|);
  }

  /** One turn of the decoder on a field of its own. */
  lemma KnownTurn(bs: Buffer, i: nat, m: FeeSplit, num: nat, next: nat)
    requires 1 <= num <= 3 && i < |bs| && ReadTag(bs, i) == Ok(FieldTag(num, 2, next)) && ReadSpan(bs, next).Ok?
    ensures var span := ReadSpan(bs, next).value;
            DecodeFrom(bs, i, m) == DecodeFrom(bs, span.end, SetField(m, num, bs[span.start..span.end]))
  {
    hide ReadVarint, ReadSpan, ReadTag, SkipAt;
  }

  lemma DecodeUnknown(bs: Buffer, i: nat, m: FeeSplit, f: Field)
    requires ValidPart(Unknown(f)) && At(bs, i, PartBytes(Unknown(f)))
    ensures DecodeFrom(bs, i, m) == DecodeFrom(bs, i + |PartBytes(Unknown(f))|, m)
  {
    hide ReadVarint, SkipFrom, ReadSpan, SkipAt, ReadTag, Varint, Encode;
    var wireType := FieldStartsWithTag(bs, i, f);
    ReadTagReadsBack(bs, i, f.num, wireType);
    SkipAtField(bs, i, f);
  }

  lemma {:induction false} DecodeParts(bs: Buffer, i: nat, m: FeeSplit, parts: seq<Part>)
    requires At(bs, i, AllBytes(parts))
    requires forall p :: p in parts ==> ValidPart(p)
    ensures DecodeFrom(bs, i, m) == DecodeFrom(bs, i + |AllBytes(parts)|, Meaning(m, parts))
    decreases |parts|
  {
    hide DecodeFrom, PartBytes, Effect;
    if parts != [] {
      AtSplit(bs, i, PartBytes(parts[0]), AllBytes(parts[1..]));
      DecodePart(bs, i, m, parts[0]);
      DecodeParts(bs, i + |PartBytes(parts[0])|, Effect(m, parts[0]), parts[1..]);
    }
  }

  /** Any sequence of this message's fields and unknown fields decodes to what it says. */
  lemma DecodeIsMeaning(m: FeeSplit, parts: seq<Part>)
    requires (forall p :: p in parts ==> ValidPart(p)) && |AllBytes(parts)| < TWO_63
    ensures DecodeFrom(AllBytes(parts), 0, m) == Ok(Meaning(m, parts))
  {
    var bs: Buffer := AllBytes(parts);
    assert bs[0..0 + |bs|] == bs;
    DecodeParts(bs, 0, m, parts);
  }

  // ---------------------------------------------------------------- what is refused

  /** A message cut short inside its last field is refused, wherever the cut is. */
  lemma TruncationIsDetected(m: FeeSplit, parts: seq<Part>, last: Part, n: nat)
    requires (forall p :: p in parts ==> ValidPart(p)) && ValidPart(last) && 0 < n < |PartBytes(last)|
    requires |AllBytes(parts) + PartBytes(last)| < TWO_63
    ensures DecodeFrom(AllBytes(parts) + PartBytes(last)[..n], 0, m).Err?
  {
    hide DecodeFrom, PartBytes;
    var head := AllBytes(parts);
    var bs: Buffer := head + PartBytes(last)[..n];
    assert bs[0..0 + |head|] == head && bs[|head|..] == PartBytes(last)[..n];
    DecodeParts(bs, 0, m, parts);
    PartCut(bs, |head|, Meaning(m, parts), last);
  }

  lemma PartCut(bs: Buffer, i: nat, m: FeeSplit, p: Part)
    requires ValidPart(p) && EndsInside(bs, i, PartBytes(p)) && i < |bs| && i + |PartBytes(p)| < TWO_63
    ensures DecodeFrom(bs, i, m).Err?
  {
    hide ReadTag, ReadSpan, SkipAt, EndsInside, Tag, Delimited;
    match p
    case Known(num, data) => DelimitedFieldCut(bs, i, num, data);
    case Unknown(f) =>
      FieldTagCut(bs, i, f);
      SkipAtCut(bs, i, f);
  }

  /** So is one of its own fields with another wire type, and anything whose tag
      or announced length is not acceptable. */
  lemma MalformedIsRefused(bs: Buffer, i: nat, m: FeeSplit)
    requires i < |bs|
    ensures ReadTag(bs, i).Err? ==> DecodeFrom(bs, i, m).Err?
    ensures ReadTag(bs, i).Ok? && 1 <= ReadTag(bs, i).value.num <= 3
            && (ReadTag(bs, i).value.wireType != 2 || ReadSpan(bs, ReadTag(bs, i).value.next).Err?)
            ==> DecodeFrom(bs, i, m).Err?
    ensures ReadTag(bs, i).Ok? && ReadTag(bs, i).value.num > 3 && SkipAt(bs, i).Err? ==> DecodeFrom(bs, i, m).Err?
  {
    hide ReadTag, ReadSpan, SkipAt;
  }

  // ---------------------------------------------------------------- round trip

  function OwnPart(num: nat, data: seq<Byte>): seq<Part> { if data == [] then [] else [Known(num, data)] }

  function OwnParts(m: FeeSplit): seq<Part> {
    OwnPart(1, m.contract) + OwnPart(2, m.deployer) + OwnPart(3, m.withdrawer)
  }

  lemma {:induction false} AllBytesConcat(a: seq<Part>, b: seq<Part>)
    ensures AllBytes(a + b) == AllBytes(a) + AllBytes(b)
  {
    if a == [] {
      assert a + b == b;
    } else {
      assert (a + b)[0] == a[0] && (a + b)[1..] == a[1..] + b;
      AllBytesConcat(a[1..], b);
    }
  }

  lemma {:induction false} MeaningConcat(m: FeeSplit, a: seq<Part>, b: seq<Part>)
    ensures Meaning(m, a + b) == Meaning(Meaning(m, a), b)
    decreases |a|
  {
    if a == [] {
      assert a + b == b;
    } else {
      assert (a + b)[0] == a[0] && (a + b)[1..] == a[1..] + b;
      MeaningConcat(Effect(m, a[0]), a[1..], b);
    }
  }

  lemma OwnPartBytes(num: nat, data: seq<Byte>)
    requires 1 <= num <= 3
    ensures AllBytes(OwnPart(num, data)) == OptionalField(num * 8 + 2, data)
  {
    if data != [] {
      assert AllBytes([Known(num, data)][1..]) == [];
    }
  }

  /** The writer emits exactly its own non-empty fields, in order. */
  lemma MarshalledIsOwnParts(m: FeeSplit)
    ensures AllBytes(OwnParts(m)) == Marshalled(m)
    ensures Meaning(FRESH, OwnParts(m)) == m
  {
    var a, b, c := OwnPart(1, m.contract), OwnPart(2, m.deployer), OwnPart(3, m.withdrawer);
    AllBytesConcat(a + b, c);
    AllBytesConcat(a, b);
    OwnPartBytes(1, m.contract);
    OwnPartBytes(2, m.deployer);
    OwnPartBytes(3, m.withdrawer);
    MeaningConcat(FRESH, a + b, c);
    MeaningConcat(FRESH, a, b);
    assert Meaning(FRESH, a) == FRESH.(contract := m.contract);
    assert Meaning(FRESH.(contract := m.contract), b) == m.(withdrawer := []);
    assert Meaning(m.(withdrawer := []), c) == m;
  }

  /** Encoding and decoding into a fresh message returns the original. */
  lemma RoundTrip(m: FeeSplit)
    requires |Marshalled(m)| < TWO_63
    ensures DecodeFrom(Marshalled(m), 0, FRESH) == Ok(m)
  {
    MarshalledIsOwnParts(m);
    DecodeIsMeaning(FRESH, OwnParts(m));
  }

  /** `own` is `parts` with the unknown fields left out. */
  function WithoutUnknown(parts: seq<Part>): seq<Part> {
    if parts == [] then []
    else if parts[0].Unknown? then WithoutUnknown(parts[1..])
    else [parts[0]] + WithoutUnknown(parts[1..])
  }

  lemma {:induction false} UnknownMeansNothing(m: FeeSplit, parts: seq<Part>)
    ensures Meaning(m, parts) == Meaning(m, WithoutUnknown(parts))
    decreases |parts|
  {
    if parts != [] {
      UnknownMeansNothing(Effect(m, parts[0]), parts[1..]);
      if parts[0].Known? {
        assert ([parts[0]] + WithoutUnknown(parts[1..]))[1..] == WithoutUnknown(parts[1..]);
      }
    }
  }

  /** A message written by a newer version, with unknown fields (groups within
      groups included) anywhere between its own, still decodes to the message. */
  lemma UnknownFieldsAreIgnored(m: FeeSplit, parts: seq<Part>)
    requires (forall p :: p in parts ==> ValidPart(p)) && |AllBytes(parts)| < TWO_63
    requires WithoutUnknown(parts) == OwnParts(m)
    ensures DecodeFrom(AllBytes(parts), 0, FRESH) == Ok(m)
  {
    DecodeIsMeaning(FRESH, parts);
    UnknownMeansNothing(FRESH, parts);
    MarshalledIsOwnParts(m);
  }
}
