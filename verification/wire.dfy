/** The protobuf wire format: base-128 varints, tags, length-delimited data and
    the skipping of unknown fields. */
module Wire {
  import opened Common

  type Byte = b: nat | b < 256

  /** A Go slice: its length is an int. */
  type Buffer = bs: seq<Byte> | |bs| < TWO_63

  const TWO_31: int := 0x8000_0000
  const TWO_32: int := 0x1_0000_0000
  const TWO_63: int := 0x8000_0000_0000_0000

  datatype Error =
    | IntOverflow | UnexpectedEOF | InvalidLength | UnexpectedEndOfGroup
    | EndGroupForNonGroup | IllegalTag | WrongWireType | IllegalWireType | BadAmount

  type Result<+T> = Outcome<T, Error>

  /** Go's conversions to int64 and int32, and int64 addition. */
  function ToInt64(v: int): int {
    var w := v % TWO_64;
    if w < TWO_63 then w else w - TWO_64
  }

  function ToInt32(v: int): int {
    var w := v % TWO_32;
    if w < TWO_31 then w else w - TWO_32
  }

  function Add64(a: int, b: int): int { ToInt64(a + b) }

  // ---------------------------------------------------------------- varints

  /** The canonical encoding: seven bits a byte, low bits first. */
  function Varint(v: nat): (bytes: seq<Byte>)
    ensures |bytes| >= 1
  {
    if v < 128 then [v] else [v % 128 + 128] + Varint(v / 128)
  }

  /** The bit length of a number, and the source's size formula. */
  function BitLength(v: nat): nat { if v == 0 then 0 else 1 + BitLength(v / 2) }

  function Sov(v: nat): nat {
    (BitLength(if v % 2 == 0 then v + 1 else v) + 6) / 7
  }

  function Pow2(n: nat): nat { if n == 0 then 1 else 2 * Pow2(n - 1) }

  /** A decoded number and the index after it. */
  datatype Number = Number(value: nat, next: nat)

  /** The decoding loop from index `i` on: seven more bits are put in place at
      `shift`, those that do not fit in 64 bits being lost. The bits already
      in `acc` all lie below `shift`. */
  function DecodeVarint(bs: Buffer, i: nat, shift: nat, acc: nat): (r: Result<Number>)
    ensures r.Ok? ==> i < r.value.next <= |bs|
    decreases |bs| - i
  {
    if shift >= 64 then Err(IntOverflow)
    else if i >= |bs| then Err(UnexpectedEOF)
    else
      var acc1 := acc + (bs[i] % 128) * Pow2(shift) % TWO_64;
      if bs[i] < 128 then Ok(Number(acc1, i + 1))
      else DecodeVarint(bs, i + 1, shift + 7, acc1)
  }

  function ReadVarint(bs: Buffer, i: nat): (r: Result<Number>)
    ensures r.Ok? ==> i < r.value.next <= |bs|
  {
    DecodeVarint(bs, i, 0, 0)
  }

  /** `part` stands in `bs` at index `i`. */
  predicate At(bs: Buffer, i: nat, part: seq<Byte>) {
    i + |part| <= |bs| && bs[i..i + |part|] == part
  }

  lemma AtSplit(bs: Buffer, i: nat, a: seq<Byte>, b: seq<Byte>)
    requires At(bs, i, a + b)
    ensures At(bs, i, a) && At(bs, i + |a|, b)
  {
    assert bs[i..i + |a|] == bs[i..i + |a + b|][..|a|];
    assert (a + b)[..|a|] == a;
    assert bs[i + |a|..i + |a| + |b|] == bs[i..i + |a + b|][|a|..];
    assert (a + b)[|a|..] == b;
  }

  lemma {:induction false} BitLengthShift7(v: nat)
    requires v >= 128
    ensures BitLength(v) == 7 + BitLength(v / 128)
  {
    var a := v / 2; var b := a / 2; var c := b / 2; var d := c / 2; var e := d / 2; var f := e / 2;
    assert BitLength(v) == 1 + BitLength(a) && BitLength(a) == 1 + BitLength(b) && BitLength(b) == 1 + BitLength(c);
    assert BitLength(c) == 1 + BitLength(d) && BitLength(d) == 1 + BitLength(e) && BitLength(e) == 1 + BitLength(f);
    assert f / 2 == v / 128;
  }

  lemma BitLengthSmall(v: nat)
    requires 0 < v < 128
    ensures 1 <= BitLength(v) <= 7
  {
  }

  lemma BitLengthEven(v: nat)
    requires v > 0 && v % 2 == 0
    ensures BitLength(v + 1) == BitLength(v)
  {
  }

  /** The size formula is the length of the encoding. */
  lemma {:induction false} SovIsLength(v: nat)
    ensures Sov(v) == |Varint(v)|
    decreases v
  {
    if v > 0 && v % 2 == 0 { BitLengthEven(v); }
    if v < 128 {
      if v == 0 { assert BitLength(1) == 1; } else { BitLengthSmall(v); }
    } else {
      BitLengthShift7(v);
      SovIsLength(v / 128);
      if (v / 128) % 2 == 0 { BitLengthEven(v / 128); }
    }
  }

  lemma {:induction false} Pow2Monotone(a: nat, b: nat)
    requires a <= b
    ensures Pow2(a) <= Pow2(b)
    decreases b
  {
    if a < b { Pow2Monotone(a, b - 1); }
  }

  lemma Pow2Add7(n: nat)
    ensures Pow2(n + 7) == 128 * Pow2(n)
  {
    assert Pow2(n + 7) == 2 * Pow2(n + 6) == 4 * Pow2(n + 5) == 8 * Pow2(n + 4);
    assert Pow2(n + 4) == 2 * Pow2(n + 3) == 4 * Pow2(n + 2) == 8 * Pow2(n + 1);
  }

  lemma Pow2Of64()
    ensures Pow2(64) == TWO_64
  {
    var n := 0;
    Pow2Add7(n);
    Pow2Add7(n + 7);
    Pow2Add7(n + 14);
    Pow2Add7(n + 21);
    Pow2Add7(n + 28);
    Pow2Add7(n + 35);
    Pow2Add7(n + 42);
    Pow2Add7(n + 49);
    Pow2Add7(n + 56);
  }

  lemma DigitOf(v: nat, p: nat)
    requires v * p < TWO_64 && p > 0
    ensures (v % 128) * p % TWO_64 == (v % 128) * p
    ensures (v % 128) * p + (v / 128) * (128 * p) == v * p
    ensures v >= 128 ==> 128 * p <= v * p
  {
  }

  /** One turn of the decoding loop. */
  lemma DecodeTurn(bs: Buffer, i: nat, shift: nat, acc: nat)
    requires i < |bs| && shift < 64
    ensures var acc1 := acc + (bs[i] % 128) * Pow2(shift) % TWO_64;
            DecodeVarint(bs, i, shift, acc)
            == if bs[i] < 128 then Ok(Number(acc1, i + 1)) else DecodeVarint(bs, i + 1, shift + 7, acc1)
  {
  }

  /** The decoding loop reads back what was encoded, at any shift it reaches. */
  lemma {:induction false} DecodeVarintReadsBack(bs: Buffer, i: nat, shift: nat, acc: nat, v: nat)
    requires At(bs, i, Varint(v))
    requires shift < 64 && v * Pow2(shift) < TWO_64
    ensures DecodeVarint(bs, i, shift, acc) == Ok(Number(acc + v * Pow2(shift), i + |Varint(v)|))
    decreases v
  {
    hide DecodeVarint;
    Pow2Monotone(0, shift);
    assert Pow2(shift) > 0;
    hide Pow2;
    DigitOf(v, Pow2(shift));
    assert bs[i] == Varint(v)[0];
    DecodeTurn(bs, i, shift, acc);
    if v >= 128 {
      AtSplit(bs, i, [v % 128 + 128], Varint(v / 128));
      Pow2Add7(shift);
      ShiftFits(shift);
      DecodeVarintReadsBack(bs, i + 1, shift + 7, acc + (v % 128) * Pow2(shift), v / 128);
    }
  }

  lemma ShiftFits(shift: nat)
    requires Pow2(shift + 7) < TWO_64
    ensures shift + 7 < 64
  {
    Pow2Of64();
    if shift + 7 >= 64 { Pow2Monotone(64, shift + 7); }
  }

  lemma ReadVarintReadsBack(bs: Buffer, i: nat, v: nat)
    requires At(bs, i, Varint(v)) && v < TWO_64
    ensures ReadVarint(bs, i) == Ok(Number(v, i + |Varint(v)|))
  {
    DecodeVarintReadsBack(bs, i, 0, 0, v);
  }

  // ---------------------------------------------------------------- length-delimited data

  datatype Span = Span(start: nat, end: nat)

  /** The data a decoded length announces, in a buffer of the given size. */
  function SpanOf(n: Number, size: nat): (r: Result<Span>)
    requires n.next <= size < TWO_63
    ensures r.Ok? ==> n.next == r.value.start <= r.value.end <= size
  {
    var length := ToInt64(n.value);
    if length < 0 then Err(InvalidLength)
    else
      var post := Add64(n.next, length);
      if post < 0 then Err(InvalidLength)
      else if post > size then Err(UnexpectedEOF)
      else Ok(Span(n.next, post))
  }

  /** A length and the data it announces. */
  function ReadSpan(bs: Buffer, i: nat): (r: Result<Span>)
    ensures r.Ok? ==> i < r.value.start <= r.value.end <= |bs|
  {
    match ReadVarint(bs, i)
    case Err(e) => Err(e)
    case Ok(n) => SpanOf(n, |bs|)
  }

  function Delimited(data: seq<Byte>): seq<Byte> { Varint(|data|) + data }

  lemma ReadSpanReadsBack(bs: Buffer, i: nat, data: seq<Byte>)
    requires At(bs, i, Delimited(data))
    ensures var r := ReadSpan(bs, i);
            r == Ok(Span(i + |Varint(|data|)|, i + |Delimited(data)|)) && bs[r.value.start..r.value.end] == data
  {
    hide DecodeVarint, Varint;
    AtSplit(bs, i, Varint(|data|), data);
    var n := Number(|data|, i + |Varint(|data|)|);
    ReadVarintReadsBack(bs, i, |data|);
    assert ReadSpan(bs, i) == SpanOf(n, |bs|);
    SpanOfFits(n.next, n.value, |bs|);
  }

  lemma SpanOfFits(next: nat, length: nat, size: nat)
    requires next + length <= size < TWO_63
    ensures SpanOf(Number(length, next), size) == Ok(Span(next, next + length))
  {
  }

  lemma SmallInt64(v: int)
    requires 0 <= v < TWO_63
    ensures ToInt64(v) == v
  {
  }

  // ---------------------------------------------------------------- skipping

  /** The index after the payload of a tag of the given wire type, and the
      group depth there. */
  datatype Position = Position(index: int, depth: int)

  function SkipPayload(bs: Buffer, i: nat, depth: nat, wireType: nat): (r: Result<Position>)
    requires i <= |bs|
    ensures r.Ok? ==> (r.value.index < 0 || r.value.index >= i) && r.value.index < TWO_63
    ensures r.Ok? ==> r.value.depth >= 0
  {
    match wireType
    case 0 =>
      (match ReadVarint(bs, i)
       case Err(e) => Err(e)
       case Ok(n) => Ok(Position(n.next, depth)))
    case 1 => Ok(Position(Add64(i, 8), depth))
    case 2 =>
      (match ReadVarint(bs, i)
       case Err(e) => Err(e)
       case Ok(n) =>
         if ToInt64(n.value) < 0 then Err(InvalidLength)
         else Ok(Position(Add64(n.next, ToInt64(n.value)), depth)))
    case 3 => Ok(Position(i, depth + 1))
    case 4 => if depth == 0 then Err(UnexpectedEndOfGroup) else Ok(Position(i, depth - 1))
    case 5 => Ok(Position(Add64(i, 4), depth))
    case _ => Err(IllegalWireType)
  }

  /** Skips one field, groups included, from index `i` inside `depth` open
      groups; the result is the index after it, possibly past the end. */
  function SkipFrom(bs: Buffer, i: nat, depth: nat): (r: Result<nat>)
    ensures r.Ok? ==> i < r.value < TWO_63
    decreases |bs| - i
  {
    if i >= |bs| then Err(UnexpectedEOF)
    else
      match ReadVarint(bs, i)
      case Err(e) => Err(e)
      case Ok(tag) =>
        match SkipPayload(bs, tag.next, depth, tag.value % 8)
        case Err(e) => Err(e)
        case Ok(p) =>
          if p.index < 0 then Err(InvalidLength)
          else if p.depth == 0 then Ok(p.index)
          else SkipFrom(bs, p.index, p.depth)
  }

  // ---------------------------------------------------------------- what every decoder does with a tag

  datatype FieldTag = FieldTag(num: int, wireType: nat, next: nat)

  /** A tag at message level. The field number is cut to 32 bits. */
  function ReadTag(bs: Buffer, i: nat): (r: Result<FieldTag>)
    ensures r.Ok? ==> i < r.value.next <= |bs|
  {
    match ReadVarint(bs, i)
    case Err(e) => Err(e)
    case Ok(n) =>
      if n.value % 8 == 4 then Err(EndGroupForNonGroup)
      else if ToInt32(n.value / 8) <= 0 then Err(IllegalTag)
      else Ok(FieldTag(ToInt32(n.value / 8), n.value % 8, n.next))
  }

  /** The index `n` bytes after `i`, in a buffer of the given size. */
  function Advance(i: nat, n: nat, size: nat): (r: Result<nat>)
    requires i <= size < TWO_63 && 0 < n < TWO_63
    ensures r.Ok? ==> i < r.value <= size
  {
    var next := Add64(i, n);
    if next < 0 then Err(InvalidLength)
    else if next > size then Err(UnexpectedEOF)
    else Ok(next)
  }

  /** The index after an unknown field whose tag starts at `i`. */
  function SkipAt(bs: Buffer, i: nat): (r: Result<nat>)
    requires i <= |bs|
    ensures r.Ok? ==> i < r.value <= |bs|
  {
    var skipped := SkipFrom(bs[i..], 0, 0);
    if skipped.Err? then Err(skipped.error) else Advance(i, skipped.value, |bs|)
  }
}
