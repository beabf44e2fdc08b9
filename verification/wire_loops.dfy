/** The generated code's loops over the wire format. */
module WireLoops {
  import opened Common
  import opened Wire

  /** The decoding loop that the generated code repeats at every number. */
  method DecodeVarintLoop(dAtA: Buffer, index: nat) returns (r: Result<Number>)
    ensures r == ReadVarint(dAtA, index)
  {
    var l := |dAtA|;
    var iNdEx := index;
    var value: nat := 0;
    var shift: nat := 0;
    var power: nat := 1;
    while true
      invariant power == Pow2(shift)
      invariant DecodeVarint(dAtA, iNdEx, shift, value) == ReadVarint(dAtA, index)
      decreases l - iNdEx
    {
      if shift >= 64 {
        return Err(IntOverflow);
      }
      if iNdEx >= l {
        return Err(UnexpectedEOF);
      }
      var b := dAtA[iNdEx];
      iNdEx := iNdEx + 1;
      value := value + (b % 128) * power % TWO_64;
      if b < 128 {
        break;
      }
      Pow2Add7(shift);
      shift, power := shift + 7, power * 128;
    }
    return Ok(Number(value, iNdEx));
  }

  /** Steps over one payload; the depth counts the open groups. */
  method SkipPayloadStep(dAtA: Buffer, index: nat, depth: nat, wireType: nat) returns (r: Result<Position>)
    requires index <= |dAtA|
    ensures r == SkipPayload(dAtA, index, depth, wireType)
  {
    match wireType {
      case 0 =>
        var n := DecodeVarintLoop(dAtA, index);
        if n.Err? {
          return Err(n.error);
        }
        return Ok(Position(n.value.next, depth));
      case 1 =>
        return Ok(Position(Add64(index, 8), depth));
      case 2 =>
        var n := DecodeVarintLoop(dAtA, index);
        if n.Err? {
          return Err(n.error);
        }
        var length := ToInt64(n.value.value);
        if length < 0 {
          return Err(InvalidLength);
        }
        return Ok(Position(Add64(n.value.next, length), depth));
      case 3 =>
        return Ok(Position(index, depth + 1));
      case 4 =>
        if depth == 0 {
          return Err(UnexpectedEndOfGroup);
        }
        return Ok(Position(index, depth - 1));
      case 5 =>
        return Ok(Position(Add64(index, 4), depth));
      case _ =>
        return Err(IllegalWireType);
    }
  }

  method Skip(dAtA: Buffer) returns (r: Result<nat>)
    ensures r == SkipFrom(dAtA, 0, 0)
    ensures r.Ok? ==> r.value > 0
  {
    hide DecodeVarint;
    var l := |dAtA|;
    var iNdEx: nat := 0;
    var depth: nat := 0;
    while iNdEx < l
      invariant SkipFrom(dAtA, iNdEx, depth) == SkipFrom(dAtA, 0, 0)
      decreases l - iNdEx
    {
      var wire := DecodeVarintLoop(dAtA, iNdEx);
      if wire.Err? {
        return Err(wire.error);
      }
      var step := SkipPayloadStep(dAtA, wire.value.next, depth, wire.value.value % 8);
      if step.Err? {
        return Err(step.error);
      }
      if step.value.index < 0 {
        return Err(InvalidLength);
      }
      iNdEx, depth := step.value.index, step.value.depth;
      if depth == 0 {
        return Ok(iNdEx);
      }
    }
    return Err(UnexpectedEOF);
  }

  method ReadTagLoop(dAtA: Buffer, index: nat) returns (r: Result<FieldTag>)
    ensures r == ReadTag(dAtA, index)
  {
    hide DecodeVarint;
    var wire := DecodeVarintLoop(dAtA, index);
    if wire.Err? {
      return Err(wire.error);
    }
    var fieldNum := ToInt32(wire.value.value / 8);
    var wireType := wire.value.value % 8;
    if wireType == 4 {
      return Err(EndGroupForNonGroup);
    }
    if fieldNum <= 0 {
      return Err(IllegalTag);
    }
    return Ok(FieldTag(fieldNum, wireType, wire.value.next));
  }

  method ReadSpanLoop(dAtA: Buffer, index: nat) returns (r: Result<Span>)
    ensures r == ReadSpan(dAtA, index)
  {
    hide DecodeVarint;
    var n := DecodeVarintLoop(dAtA, index);
    if n.Err? {
      return Err(n.error);
    }
    var length := ToInt64(n.value.value);
    if length < 0 {
      return Err(InvalidLength);
    }
    var postIndex := Add64(n.value.next, length);
    if postIndex < 0 {
      return Err(InvalidLength);
    }
    if postIndex > |dAtA| {
      return Err(UnexpectedEOF);
    }
    return Ok(Span(n.value.next, postIndex));
  }

  method SkipAtLoop(dAtA: Buffer, index: nat) returns (r: Result<nat>)
    requires index <= |dAtA|
    ensures r == SkipAt(dAtA, index)
  {
    hide DecodeVarint, SkipFrom;
    var skippy := Skip(dAtA[index..]);
    if skippy.Err? {
      return Err(skippy.error);
    }
    var next := Add64(index, skippy.value);
    if next < 0 {
      return Err(InvalidLength);
    }
    if next > |dAtA| {
      return Err(UnexpectedEOF);
    }
    return Ok(next);
  }

  // ---------------------------------------------------------------- writing

  /** What one turn of the writing loop writes, `rest` being still to write. */
  lemma VarintTail(bytes: seq<Byte>, n: nat, rest: nat)
    requires n <= |bytes| && bytes[n..] == Varint(rest)
    ensures n < |bytes|
    ensures rest < 128 ==> n + 1 == |bytes| && bytes[n] == rest
    ensures rest >= 128 ==> bytes[n] == rest % 128 + 128 && bytes[n + 1..] == Varint(rest / 128)
  {
  }

  /** Writes a varint so that it ends just before `offset`. */
  method EncodeVarintBackward(dAtA: array<Byte>, offset: nat, v: nat) returns (base: nat)
    requires Sov(v) <= offset <= dAtA.Length
    modifies dAtA
    ensures base == offset - |Varint(v)|
    ensures dAtA[base..offset] == Varint(v)
    ensures forall k :: 0 <= k < dAtA.Length && !(base <= k < offset) ==> dAtA[k] == old(dAtA[k])
  {
    hide Sov, BitLength, Varint;
    SovIsLength(v);
    base := offset - Sov(v);
    var at, rest := base, v;
    ghost var bytes := Varint(v);
    while rest >= 128
      invariant base <= at <= offset && bytes[at - base..] == Varint(rest)
      invariant forall k :: base <= k < at ==> dAtA[k] == bytes[k - base]
      invariant forall k :: 0 <= k < dAtA.Length && !(base <= k < offset) ==> dAtA[k] == old(dAtA[k])
      decreases rest
    {
      VarintTail(bytes, at - base, rest);
      dAtA[at] := rest % 128 + 128;
      rest := rest / 128;
      at := at + 1;
    }
    VarintTail(bytes, at - base, rest);
    dAtA[at] := rest;
  }

  /** A length-delimited field, absent when empty. */
  function OptionalField(tag: Byte, data: seq<Byte>): seq<Byte> {
    if data == [] then [] else [tag] + Delimited(data)
  }

  function OptionalSize(data: seq<Byte>): nat {
    if |data| > 0 then 1 + |data| + Sov(|data|) else 0
  }

  lemma OptionalSizeIsLength(tag: Byte, data: seq<Byte>)
    ensures OptionalSize(data) == |OptionalField(tag, data)|
  {
    SovIsLength(|data|);
  }

  /** Copies `data` so that it ends just before `offset`. */
  method CopyBackward(dAtA: array<Byte>, offset: nat, data: seq<Byte>) returns (at: nat)
    requires |data| <= offset <= dAtA.Length
    modifies dAtA
    ensures at == offset - |data|
    ensures dAtA[at..offset] == data
    ensures forall k :: 0 <= k < dAtA.Length && !(at <= k < offset) ==> dAtA[k] == old(dAtA[k])
  {
    at := offset - |data|;
    for n := 0 to |data|
      invariant forall k :: 0 <= k < n ==> dAtA[at + k] == data[k]
      invariant forall k :: 0 <= k < dAtA.Length && !(at <= k < offset) ==> dAtA[k] == old(dAtA[k])
    {
      dAtA[at + n] := data[n];
    }
  }

  /** Writes a tagged, length-delimited field so that it ends just before `offset`. */
  method PutField(dAtA: array<Byte>, offset: nat, tag: Byte, data: seq<Byte>) returns (i: nat)
    requires 1 + |data| + Sov(|data|) <= offset <= dAtA.Length
    modifies dAtA
    ensures i == offset - |[tag] + Delimited(data)|
    ensures dAtA[i..offset] == [tag] + Delimited(data)
    ensures forall k :: 0 <= k < dAtA.Length && !(i <= k < offset) ==> dAtA[k] == old(dAtA[k])
  {
    hide Sov, Varint;
    SovIsLength(|data|);
    var start := CopyBackward(dAtA, offset, data);
    ghost var copied := dAtA[..];
    i := EncodeVarintBackward(dAtA, start, |data|);
    assert dAtA[start..offset] == copied[start..offset] == data;
    ghost var sized := dAtA[..];
    i := i - 1;
    dAtA[i] := tag;
    assert dAtA[i + 1..start] == sized[i + 1..start] == Varint(|data|);
    assert dAtA[start..offset] == sized[start..offset] == data;
    assert dAtA[i..offset] == [dAtA[i]] + (dAtA[i + 1..start] + dAtA[start..offset]);
  }

  /** The same for a field that is left out when empty. */
  method PutOptionalField(dAtA: array<Byte>, offset: nat, tag: Byte, data: seq<Byte>) returns (i: nat)
    requires OptionalSize(data) <= offset <= dAtA.Length
    modifies dAtA
    ensures i == offset - OptionalSize(data)
    ensures dAtA[i..offset] == OptionalField(tag, data)
    ensures forall k :: 0 <= k < dAtA.Length && !(i <= k < offset) ==> dAtA[k] == old(dAtA[k])
  {
    hide Varint, Sov;
    OptionalSizeIsLength(tag, data);
    i := offset;
    if |data| > 0 {
      i := PutField(dAtA, offset, tag, data);
    }
  }

  lemma InThree(s: seq<Byte>, a: nat, b: nat, c: nat)
    requires a <= b <= c <= |s|
    ensures s[a..] == s[a..b] + s[b..c] + s[c..]
  {
  }
}
