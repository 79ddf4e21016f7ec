/** The GOOSE allData decoder: a list of elements, some of which hold lists again. */
module DataDecoder {
  import opened Bits
  import opened Ber
  import opened BerRoundTrip
  import opened Integers

  datatype DataType =
    | TypeBoolean | TypeBitString | TypeInteger | TypeUnsigned | TypeFloat
    | TypeOctetString | TypeVisibleString | TypeTimeStamp | TypeStructure

  datatype Value =
    | Missing
    | Bool(b: bool)
    | Int(i: int)
    | BitsOf(octets: seq<byte>, bits: int)
    | Octets(octets: seq<byte>)
    | Text(octets: seq<byte>)
    | Float
    | Time(seconds: nat, nanos: nat)
    | Nested(items: seq<DataAttribute>)

  datatype DataAttribute = DataAttribute(kind: DataType, value: Value)

  datatype DataError = Ber(e: BerError) | Unsupported

  datatype Decoded<T> = Good(value: T) | Bad(error: DataError)

  // ---------------------------------------------------------------- primitive decoders

  function DecodeBoolean(data: seq<byte>): Result<bool> {
    var ber :- Parse(data);
    if ber.tagNum != 1 then Err(TagMismatch)
    else if |ber.data| != 1 then Err(LengthMismatch)
    else Ok(ber.data[0] != 0)
  }

  function DecodeBitString(data: seq<byte>): Result<(seq<byte>, int)> {
    var ber :- Parse(data);
    if ber.tagNum != 3 then Err(TagMismatch)
    else if |ber.data| < 1 then Err(LengthMismatch)
    else Ok((ber.data[1..], 8 * (|ber.data| - 1) - ber.data[0]))
  }

  /** `DecodeOctetString` and `DecodeVisibleString` differ only in the tag number they demand. */
  function DecodeString(data: seq<byte>, tagNum: nat): Result<seq<byte>> {
    var ber :- Parse(data);
    if ber.tagNum != tagNum then Err(TagMismatch) else Ok(ber.data)
  }

  /** `uint64` of a decoded int64. */
  function DecodeUnsigned(data: seq<byte>): Result<int> {
    var v :- DecodeIntegerValue(data);
    Ok(v % U64)
  }

  // ---------------------------------------------------------------- the three mutually recursive decoders

  function ParseAllData(data: seq<byte>): Decoded<seq<DataAttribute>>
    decreases |data|, 0
  {
    if data == [] then Good([])
    else
      match Parse(data)
      case Err(e) => Bad(DataError.Ber(e))
      case Ok(ber) =>
        ScannersAgree(data);
        var attr := DecodeAttribute(ber);
        match ParseAllData(data[ElementLength(data).value.1..])
        case Bad(e) => Bad(e)
        case Good(rest) => Good(Kept(attr) + rest)
  }

  /** `decodeDataAttribute`: the tag number alone selects the case, whatever the class. */
  function DecodeAttribute(ber: BerTag): Decoded<DataAttribute>
    decreases |ber.data|, 2
  {
    if ber.tagNum == 1 then
      match DecodeBoolean(ber.fullData)
      case Err(e) => Bad(DataError.Ber(e))
      case Ok(b) => Good(DataAttribute(TypeBoolean, Bool(b)))
    else if ber.tagNum == 2 then
      match DecodeIntegerValue(ber.fullData)
      case Err(e) => Bad(DataError.Ber(e))
      case Ok(i) => Good(DataAttribute(TypeInteger, Int(i)))
    else if ber.tagNum == 3 then
      match DecodeBitString(ber.fullData)
      case Err(e) => Bad(DataError.Ber(e))
      case Ok(v) => Good(DataAttribute(TypeBitString, BitsOf(v.0, v.1)))
    else if ber.tagNum == 4 then
      match DecodeString(ber.fullData, 4)
      case Err(e) => Bad(DataError.Ber(e))
      case Ok(s) => Good(DataAttribute(TypeOctetString, Octets(s)))
    else if ber.tagNum == 26 then
      match DecodeString(ber.fullData, 26)
      case Err(e) => Bad(DataError.Ber(e))
      case Ok(s) => Good(DataAttribute(TypeVisibleString, Text(s)))
    else if ber.tagNum == 16 then
      match ParseAllData(ber.data)
      case Bad(e) => Bad(e)
      case Good(items) => Good(DataAttribute(TypeStructure, Nested(items)))
    else if ber.cls == 0x80 then DecodeContextAttribute(ber)
    else Bad(Unsupported)
  }

  /** `decodeContextSpecificAttribute`. */
  function DecodeContextAttribute(ber: BerTag): Decoded<DataAttribute>
    decreases |ber.data|, 1
  {
    if ber.tagNum == 0 then
      match DecodeUnsigned(ber.data)
      case Err(e) => Bad(DataError.Ber(e))
      case Ok(u) => Good(DataAttribute(TypeUnsigned, Int(u)))
    else if ber.tagNum == 1 then
      match DecodeIntegerValue(ber.data)
      case Err(e) => Bad(DataError.Ber(e))
      case Ok(i) => Good(DataAttribute(TypeInteger, Int(i)))
    else if ber.tagNum == 2 then Good(DataAttribute(TypeFloat, if |ber.data| >= 4 then Float else Missing))
    else if ber.tagNum == 3 then Good(DataAttribute(TypeOctetString, Octets(ber.data)))
    else if ber.tagNum == 4 then Good(DataAttribute(TypeBoolean, Bool(|ber.data| > 0 && ber.data[0] != 0)))
    else if ber.tagNum == 5 then
      Good(DataAttribute(TypeBitString,
        if |ber.data| >= 1 then BitsOf(ber.data[1..], 8 * (|ber.data| - 1) - ber.data[0]) else Missing))
    else if ber.tagNum == 7 then
      match ParseAllData(ber.data)
      case Bad(e) => Bad(e)
      case Good(items) => Good(DataAttribute(TypeStructure, Nested(items)))
    else if ber.tagNum == 8 then
      Good(DataAttribute(TypeTimeStamp,
        if |ber.data| >= 8 then Time(BigEndian(ber.data[0..4]), BigEndian(ber.data[4..8]) * 1000 / 4294967) else Missing))
    else Bad(Unsupported)
  }

  /** The loop of `parseAllData` over an iterator. */
  method ParseAllDataLoop(data: seq<byte>) returns (r: Decoded<seq<DataAttribute>>)
    ensures r == ParseAllData(data)
  {
    var attributes: seq<DataAttribute> := [];
    var it := new BERIterator(data);
    assert data[0..] == data;
    PrependStep([], [], ParseAllData(data));
    var more := it.HasMore();
    while more
      invariant it.index <= |data| && it.data == data && more == (it.index < |data|)
      invariant ParseAllData(data) == Prepend(attributes, ParseAllData(data[it.index..]))
      decreases |data| - it.index
    {
      ghost var here := data[it.index..];
      ParseAllDataStep(here);
      hide ParseAllData, DecodeAttribute, Parse, ElementLength, Elements;
      var n := it.Next();
      if n.Err? {
        return Bad(DataError.Ber(n.error));
      }
      if n.value == [] {
        break;
      }
      var attr := DecodeAttribute(n.value[0]);
      assert here[ElementLength(here).value.1..] == data[it.index..];
      PrependStep(attributes, Kept(attr), ParseAllData(data[it.index..]));
      if attr.Good? {
        attributes := attributes + [attr.value];
      }
      more := it.HasMore();
    }
    assert data[it.index..] == [];
    PrependStep(attributes, [], ParseAllData([]));
    return Good(attributes);
  }

  /** An element that does not decode is skipped. */
  function Kept(attr: Decoded<DataAttribute>): seq<DataAttribute> {
    if attr.Good? then [attr.value] else []
  }

  lemma ParseAllDataStep(data: seq<byte>)
    requires data != []
    ensures Parse(data).Err? ==> ParseAllData(data) == Bad(DataError.Ber(Parse(data).error))
    ensures Parse(data).Ok? ==> ElementLength(data).Ok? && 2 <= ElementLength(data).value.1 <= |data|
    ensures Parse(data).Ok? ==>
      ParseAllData(data) ==
        Prepend(Kept(DecodeAttribute(Parse(data).value)), ParseAllData(data[ElementLength(data).value.1..]))
  {
    ScannersAgree(data);
  }

  function Prepend(a: seq<DataAttribute>, r: Decoded<seq<DataAttribute>>): Decoded<seq<DataAttribute>> {
    match r case Good(rest) => Good(a + rest) case Bad(e) => Bad(e)
  }

  lemma PrependStep(a: seq<DataAttribute>, b: seq<DataAttribute>, r: Decoded<seq<DataAttribute>>)
    ensures Prepend(a, Prepend(b, r)) == Prepend(a + b, r)
    ensures Prepend([], r) == r && a + [] == a
  {
    if r.Good? { assert [] + r.value == r.value; assert a + (b + r.value) == a + b + r.value; }
  }

  // ---------------------------------------------------------------- what a decode keeps

  function KeptAll(bers: seq<BerTag>): seq<DataAttribute> {
    if bers == [] then [] else Kept(DecodeAttribute(bers[0])) + KeptAll(bers[1..])
  }

  /** The decoder succeeds exactly when the iterator runs through (on the concatenations of well-formed elements, by
      IteratesIffTiled); it then keeps the elements in order and leaves out only those that do not decode. */
  lemma {:induction false} KeepsElements(data: seq<byte>)
    ensures ParseAllData(data) ==
            match Elements(data) case Ok(bers) => Good(KeptAll(bers)) case Err(e) => Bad(DataError.Ber(e))
    decreases |data|
  {
    if data != [] {
      ParseAllDataStep(data);
      if Parse(data).Ok? {
        var rest := data[ElementLength(data).value.1..];
        KeepsElements(rest);
        hide Parse, ElementLength, DecodeAttribute, ParseAllData;
        if Elements(rest).Ok? {
          assert ([Parse(data).value] + Elements(rest).value)[1..] == Elements(rest).value;
        }
      }
    }
  }

  /** So the decoder accepts exactly the concatenations of well-formed elements, whatever those elements hold. */
  lemma SucceedsIffTiled(data: seq<byte>)
    ensures ParseAllData(data).Good? <==>
      exists parts: seq<seq<byte>> :: Flatten(parts) == data && forall i | 0 <= i < |parts| :: WellFormed(parts[i])
  {
    KeepsElements(data);
    IteratesIffTiled(data);
    hide ParseAllData, Elements, KeptAll, Flatten, WellFormed;
  }

  /** All attributes of a list, at every depth. */
  ghost function Total(items: seq<DataAttribute>): nat
    decreases items, 0
  {
    if items == [] then 0 else TotalOf(items[0]) + Total(items[1..])
  }

  ghost function TotalOf(a: DataAttribute): nat
    decreases a, 1
  {
    1 + match a.value case Nested(items) => Total(items) case _ => 0
  }

  lemma ElementSize(data: seq<byte>)
    requires data != [] && Parse(data).Ok?
    ensures ElementLength(data).Ok? && |Parse(data).value.data| + 2 <= ElementLength(data).value.1 <= |data|
    ensures |Parse(data).value.data| < |data|
  {
    ScannersAgree(data);
  }

  /** The attributes at all depths together number at most half the bytes. */
  lemma {:induction false} TotalBound(data: seq<byte>)
    requires ParseAllData(data).Good?
    ensures 2 * Total(ParseAllData(data).value) <= |data|
    decreases |data|, 0
  {
    if data != [] {
      ParseAllDataStep(data);
      ElementSize(data);
      var ber, rest := Parse(data).value, data[ElementLength(data).value.1..];
      TotalBound(rest);
      if DecodeAttribute(ber).Good? {
        TotalOfBound(ber);
        var a, tail := DecodeAttribute(ber).value, ParseAllData(rest).value;
        assert ([a] + tail)[1..] == tail;
      } else {
        assert [] + ParseAllData(rest).value == ParseAllData(rest).value;
      }
    }
  }

  lemma {:induction false} TotalOfBound(ber: BerTag)
    requires DecodeAttribute(ber).Good?
    ensures 2 * TotalOf(DecodeAttribute(ber).value) <= |ber.data| + 2
    decreases |ber.data|, 2
  {
    if ParseAllData(ber.data).Good? { TotalBound(ber.data); }
  }

  /** No attribute at any depth is a float. */
  ghost predicate FloatFree(items: seq<DataAttribute>)
    decreases items, 0
  {
    items == [] || (FloatFreeOne(items[0]) && FloatFree(items[1..]))
  }

  ghost predicate FloatFreeOne(a: DataAttribute)
    decreases a, 1
  {
    a.kind != TypeFloat && match a.value case Nested(items) => FloatFree(items) case _ => true
  }

  /** The tag number is looked at before the class, so a context-specific [2] is read as an INTEGER and the float case of
      the context decoder is never reached: no input produces a float attribute. */
  lemma {:induction false} NoFloats(data: seq<byte>)
    requires ParseAllData(data).Good?
    ensures FloatFree(ParseAllData(data).value)
    decreases |data|, 0
  {
    if data != [] {
      ParseAllDataStep(data);
      ElementSize(data);
      var ber, rest := Parse(data).value, data[ElementLength(data).value.1..];
      NoFloats(rest);
      if DecodeAttribute(ber).Good? {
        NoFloatOne(ber);
        var a, tail := DecodeAttribute(ber).value, ParseAllData(rest).value;
        assert ([a] + tail)[1..] == tail;
      } else {
        assert [] + ParseAllData(rest).value == ParseAllData(rest).value;
      }
    }
  }

  lemma {:induction false} NoFloatOne(ber: BerTag)
    requires DecodeAttribute(ber).Good?
    ensures FloatFreeOne(DecodeAttribute(ber).value)
    decreases |ber.data|, 2
  {
    if ParseAllData(ber.data).Good? { NoFloats(ber.data); }
  }

  // ---------------------------------------------------------------- round trip

  type Class = c: nat | c < 4

  /** Data the encoder side can write, structures to any depth. The decoder switches on the tag number first, so the
      elements numbered as universal types may come in any class. */
  datatype Datum =
    | DBool(cls: Class, octet: byte)
    | DInt(cls: Class, i: int)
    | DBits(cls: Class, octets: seq<byte>, unused: byte)
    | DOctets(cls: Class, octets: seq<byte>)
    | DText(cls: Class, octets: seq<byte>)
    | DStruct(cls: Class, items: seq<Datum>)
    | DUnsigned(u: int)                                               // context-specific [0]
    | DContextBits(octets: seq<byte>, unused: byte)                   // [5]
    | DEmptyBits
    | DContextStruct(items: seq<Datum>)                               // [7]
    | DTime(seconds: nat, fraction: nat, more: seq<byte>)             // [8]
    | DShortTime(octets: seq<byte>)
    | DOther(cls: Class, num: nat, octets: seq<byte>)                 // no attribute

  /** An element with its length in four octets. */
  function Tlv(e: Element): seq<byte>
    requires e.cls < 4
  {
    Identifier(e) + ([132] + BigEndianBytes(|e.content|, 4)) + e.content
  }

  function ElementOf(d: Datum): (e: Element)
    ensures e.cls < 4
    decreases d, 1
  {
    match d
    case DBool(cls, octet) => Element(cls, false, 1, [octet])
    case DInt(cls, i) => Element(cls, false, 2, IntOctets(i, 8))
    case DBits(cls, octets, unused) => Element(cls, false, 3, [unused] + octets)
    case DOctets(cls, octets) => Element(cls, false, 4, octets)
    case DText(cls, octets) => Element(cls, false, 26, octets)
    case DStruct(cls, items) => Element(cls, true, 16, EncodeData(items))
    case DUnsigned(u) => Element(2, false, 0, Tlv(Element(0, false, 2, IntOctets(u, 8))))
    case DContextBits(octets, unused) => Element(2, false, 5, [unused] + octets)
    case DEmptyBits => Element(2, false, 5, [])
    case DContextStruct(items) => Element(2, true, 7, EncodeData(items))
    case DTime(seconds, fraction, more) =>
      Element(2, false, 8, BigEndianBytes(seconds, 4) + BigEndianBytes(fraction, 4) + more)
    case DShortTime(octets) => Element(2, false, 8, octets)
    case DOther(cls, num, octets) => Element(cls, false, num, octets)
  }

  function EncodeData(items: seq<Datum>): seq<byte>
    decreases items, 0
  {
    if items == [] then [] else Tlv(ElementOf(items[0])) + EncodeData(items[1..])
  }

  /** The attribute an element stands for, if any. */
  function Meaning(d: Datum): (m: seq<DataAttribute>)
    ensures |m| <= 1
    decreases d, 1
  {
    match d
    case DBool(_, octet) => [DataAttribute(TypeBoolean, Bool(octet != 0))]
    case DInt(_, i) => [DataAttribute(TypeInteger, Int(i))]
    case DBits(_, octets, unused) => [DataAttribute(TypeBitString, BitsOf(octets, 8 * |octets| - unused))]
    case DOctets(_, octets) => [DataAttribute(TypeOctetString, Octets(octets))]
    case DText(_, octets) => [DataAttribute(TypeVisibleString, Text(octets))]
    case DStruct(_, items) => [DataAttribute(TypeStructure, Nested(Meanings(items)))]
    case DUnsigned(u) => [DataAttribute(TypeUnsigned, Int(u))]
    case DContextBits(octets, unused) => [DataAttribute(TypeBitString, BitsOf(octets, 8 * |octets| - unused))]
    case DEmptyBits => [DataAttribute(TypeBitString, Missing)]
    case DContextStruct(items) => [DataAttribute(TypeStructure, Nested(Meanings(items)))]
    case DTime(seconds, fraction, _) => [DataAttribute(TypeTimeStamp, Time(seconds, fraction * 1000 / 4294967))]
    case DShortTime(_) => [DataAttribute(TypeTimeStamp, Missing)]
    case DOther(_, _, _) => []
  }

  function Meanings(items: seq<Datum>): seq<DataAttribute>
    decreases items, 0
  {
    if items == [] then [] else Meaning(items[0]) + Meanings(items[1..])
  }

  /** Integers in their 64-bit and times in their 32-bit ranges, every content below 2^32 bytes. */
  predicate Writable(d: Datum)
    decreases d, 1
  {
    && |ElementOf(d).content| < U32
    && match d
       case DInt(_, i) => -I63 <= i < I63
       case DUnsigned(u) => 0 <= u < U64
       case DStruct(_, items) => AllWritable(items)
       case DContextStruct(items) => AllWritable(items)
       case DTime(seconds, fraction, _) => seconds < U32 && fraction < U32
       case DShortTime(octets) => |octets| < 8
       case DOther(cls, num, _) => num < U32 && num !in UNIVERSAL && (cls == 2 ==> num !in CONTEXT)
       case _ => true
  }

  const UNIVERSAL: set<nat> := {1, 2, 3, 4, 16, 26}
  const CONTEXT: set<nat> := {0, 1, 2, 3, 4, 5, 7, 8}

  predicate AllWritable(items: seq<Datum>)
    decreases items, 0
  {
    items == [] || (Writable(items[0]) && AllWritable(items[1..]))
  }

  lemma TlvIsEncoding(e: Element)
    requires e.cls < 4 && e.num < U32 && |e.content| < U32
    ensures Encodable(e, 4) && Tlv(e) == Encode(e, 4)
  {
    Pow256Values();
  }

  lemma HeaderIs(data: seq<byte>)
    requires Parse(data).Ok?
    ensures Parse(data).value.fullData == data && Parse(data).value.cls % 64 == 0
  {
  }

  /** What the parser makes of an element in front of any bytes. */
  predicate Parsed(b: BerTag, e: Element) {
    && b.cls == 64 * e.cls && b.tagNum == e.num && b.data == e.content
    && Parse(b.fullData) == Ok(b)
  }

  lemma ParseTlv(e: Element, rest: seq<byte>)
    requires e.cls < 4 && e.num < U32 && |e.content| < U32
    ensures Parse(Tlv(e) + rest).Ok? && Parse(Tlv(e) + rest).value.fullData == Tlv(e) + rest
    ensures Parsed(Parse(Tlv(e) + rest).value, e)
  {
    TlvIsEncoding(e);
    ParseEncoded(e, 4, rest);
    HeaderIs(Tlv(e) + rest);
  }

  /** The elements that hold their octets as they are. */
  lemma PlainMeaning(d: Datum, b: BerTag)
    requires d.DBool? || d.DBits? || d.DOctets? || d.DText?
    requires Parsed(b, ElementOf(d))
    ensures Kept(DecodeAttribute(b)) == Meaning(d)
  {
    hide Parse;
    match d
    case DBits(_, octets, unused) => assert b.data[1..] == octets;
    case _ =>
  }

  lemma ContextMeaning(d: Datum, b: BerTag)
    requires d.DContextBits? || d.DEmptyBits? || d.DShortTime? || d.DOther?
    requires Writable(d) && Parsed(b, ElementOf(d))
    ensures Kept(DecodeAttribute(b)) == Meaning(d)
  {
    hide Parse;
    match d
    case DContextBits(octets, unused) => assert b.data[1..] == octets;
    case _ =>
  }

  lemma TimeMeaning(seconds: nat, fraction: nat, more: seq<byte>, b: BerTag)
    requires Writable(DTime(seconds, fraction, more)) && Parsed(b, ElementOf(DTime(seconds, fraction, more)))
    ensures Kept(DecodeAttribute(b)) == Meaning(DTime(seconds, fraction, more))
  {
    Pow256Values();
    BigEndianInverse(seconds, 4);
    BigEndianInverse(fraction, 4);
    hide Parse, BigEndian, BigEndianBytes;
    assert b.data[0..4] == BigEndianBytes(seconds, 4) && b.data[4..8] == BigEndianBytes(fraction, 4);
  }

  /** Eight octets hold every int64, and an unsigned value wraps to its pattern and back. */
  lemma EightOctets(cls: Class, v: int, rest: seq<byte>)
    requires -I63 <= v < U64
    ensures DecodeIntegerValue(Tlv(Element(cls, false, 2, IntOctets(v, 8))) + rest) == Ok(if v < I63 then v else v - U64)
  {
    Pow256Values();
    var w := if v < I63 then v else v - U64;
    if v >= I63 {
      DivUnique(v, U64, 0, v);
      DivUnique(w, U64, -1, v);
    }
    assert IntOctets(v, 8) == IntOctets(w, 8);
    ParseTlv(Element(cls, false, 2, IntOctets(w, 8)), rest);
    IntOctetsInverse(w, 8);
    hide Parse, Tlv, IntOctets;
  }

  /** Decoding an encoded list, structures to any depth, gives its meaning back. */
  lemma {:induction false} DataRoundTrip(items: seq<Datum>)
    requires AllWritable(items)
    ensures ParseAllData(EncodeData(items)) == Good(Meanings(items))
    decreases items, 0
  {
    if items != [] {
      var e, rest := ElementOf(items[0]), EncodeData(items[1..]);
      var data := Tlv(e) + rest;
      DatumRoundTrip(items[0], rest);
      DataRoundTrip(items[1..]);
      NumBelow(items[0]);
      TlvIsEncoding(e);
      ParseEncoded(e, 4, rest);
      ParseAllDataStep(data);
      hide ParseAllData, DecodeAttribute, Parse, ElementLength, Encode, Tlv, Writable, Meaning, ElementOf;
      assert data[|Tlv(e)|..] == rest;
    }
  }

  lemma NumBelow(d: Datum)
    requires Writable(d)
    ensures ElementOf(d).num < U32 && |ElementOf(d).content| < U32
  {
  }

  lemma {:induction false} DatumRoundTrip(d: Datum, rest: seq<byte>)
    requires Writable(d)
    ensures Parse(Tlv(ElementOf(d)) + rest).Ok?
    ensures Kept(DecodeAttribute(Parse(Tlv(ElementOf(d)) + rest).value)) == Meaning(d)
    decreases d, 1
  {
    hide Parse, Tlv, IntOctets, ParseAllData;
    NumBelow(d);
    ParseTlv(ElementOf(d), rest);
    var b := Parse(Tlv(ElementOf(d)) + rest).value;
    match d
    case DInt(cls, i) => EightOctets(cls, i, rest);
    case DUnsigned(u) =>
      var inner := Tlv(Element(0, false, 2, IntOctets(u, 8)));
      EightOctets(0, u, []);
      assert inner + [] == inner;
      if u >= I63 { DivUnique(u - U64, U64, -1, u); }
    case DStruct(_, sub) => DataRoundTrip(sub);
    case DContextStruct(sub) => DataRoundTrip(sub);
    case DTime(seconds, fraction, more) => TimeMeaning(seconds, fraction, more, b);
    case _ =>
      hide DecodeAttribute, Parsed, ElementOf, Writable, Meaning;
      if d.DBool? || d.DBits? || d.DOctets? || d.DText? { PlainMeaning(d, b); } else { ContextMeaning(d, b); }
  }

  // ---------------------------------------------------------------- what the primitive decoders refuse

  /** On any encoding with any bytes behind: each decoder demands its own tag number, whatever the class, then its own
      content length; a boolean is any octet but zero. */
  lemma DecodersDemand(e: Element, form: nat, rest: seq<byte>)
    requires Encodable(e, form)
    ensures var data := Encode(e, form) + rest;
            && DecodeBoolean(data) == (if e.num != 1 then Err(TagMismatch) else if |e.content| != 1 then Err(LengthMismatch)
                                       else Ok(e.content[0] != 0))
            && DecodeBitString(data) == (if e.num != 3 then Err(TagMismatch) else if e.content == [] then Err(LengthMismatch)
                                         else Ok((e.content[1..], 8 * (|e.content| - 1) - e.content[0])))
            && (DecodeIntegerValue(data).Err? <==> e.num != 2 || |e.content| == 0 || |e.content| > 8)
            && (DecodeIntegerValue(data).Err? ==>
                  DecodeIntegerValue(data).error == if e.num != 2 then TagMismatch else LengthMismatch)
            && DecodeString(data, 4) == (if e.num != 4 then Err(TagMismatch) else Ok(e.content))
            && DecodeString(data, 26) == (if e.num != 26 then Err(TagMismatch) else Ok(e.content))
  {
    hide Parse, ElementLength, Encode, TwosComplement;
    ParseEncoded(e, form, rest);
  }

  // ---------------------------------------------------------------- named booleans

  /** The boolean an attribute stands for: its own, or that of the first member of a structure. */
  function BooleanOf(a: DataAttribute): (b: seq<bool>)
    ensures |b| <= 1
  {
    if a.kind == TypeBoolean then (if a.value.Bool? then [a.value.b] else [])
    else if a.kind == TypeStructure && a.value.Nested? && |a.value.items| > 0 then
      var first := a.value.items[0];
      if first.kind == TypeBoolean && first.value.Bool? then [first.value.b] else []
    else []
  }

  /** The first `k` attributes entered under their names. */
  function Extracted(attrs: seq<DataAttribute>, names: seq<string>, k: nat): map<string, bool>
    requires k <= |attrs| && k <= |names|
  {
    if k == 0 then map[]
    else
      var m, b := Extracted(attrs, names, k - 1), BooleanOf(attrs[k - 1]);
      if b == [] then m else m[names[k - 1] := b[0]]
  }

  function Common(attrs: seq<DataAttribute>, names: seq<string>): nat {
    if |attrs| < |names| then |attrs| else |names|
  }

  method ExtractBooleanValues(attrs: seq<DataAttribute>, names: seq<string>) returns (result: map<string, bool>)
    ensures result == Extracted(attrs, names, Common(attrs, names))
  {
    result := map[];
    for i := 0 to |attrs|
      invariant i <= |names| && result == Extracted(attrs, names, i)
    {
      if i >= |names| {
        break;
      }
      var name, attr := names[i], attrs[i];
      if attr.kind == TypeBoolean {
        if attr.value.Bool? {
          result := result[name := attr.value.b];
        }
      } else if attr.kind == TypeStructure {
        if attr.value.Nested? && |attr.value.items| > 0 {
          if attr.value.items[0].kind == TypeBoolean {
            if attr.value.items[0].value.Bool? {
              result := result[name := attr.value.items[0].value.b];
            }
          }
        }
      }
    }
  }

  /** Position `i` is the last one under this name that holds a boolean. */
  ghost predicate Decides(attrs: seq<DataAttribute>, names: seq<string>, k: nat, name: string, i: nat)
    requires k <= |attrs| && k <= |names|
  {
    && i < k && names[i] == name && BooleanOf(attrs[i]) != []
    && forall j | i < j < k :: names[j] == name ==> BooleanOf(attrs[j]) == []
  }

  /** A name is entered exactly when some position decides it, and that position gives its value. */
  lemma {:induction false} ExtractedIffDecided(attrs: seq<DataAttribute>, names: seq<string>, k: nat, name: string)
    requires k <= |attrs| && k <= |names|
    ensures name in Extracted(attrs, names, k) <==> exists i: nat :: Decides(attrs, names, k, name, i)
    ensures forall i: nat | Decides(attrs, names, k, name, i) ::
      name in Extracted(attrs, names, k) && BooleanOf(attrs[i]) == [Extracted(attrs, names, k)[name]]
  {
    if k > 0 {
      ExtractedIffDecided(attrs, names, k - 1, name);
      forall i: nat { DecidesStep(attrs, names, k, name, i); }
      hide BooleanOf, Decides;
      if names[k - 1] == name && BooleanOf(attrs[k - 1]) != [] {
        assert Decides(attrs, names, k, name, k - 1);
      } else if name in Extracted(attrs, names, k) {
        var i: nat :| Decides(attrs, names, k - 1, name, i);
        assert Decides(attrs, names, k, name, i);
      }
    }
  }

  lemma DecidesStep(attrs: seq<DataAttribute>, names: seq<string>, k: nat, name: string, i: nat)
    requires 0 < k <= |attrs| && k <= |names|
    ensures Decides(attrs, names, k, name, i) <==>
      if names[k - 1] == name && BooleanOf(attrs[k - 1]) != [] then i == k - 1
      else Decides(attrs, names, k - 1, name, i)
  {
    hide BooleanOf;
  }

  /** The attribute is a boolean `b`, or a structure whose first member is one. */
  ghost predicate Shows(a: DataAttribute, b: bool) {
    || (a.kind == TypeBoolean && a.value == Bool(b))
    || (a.kind == TypeStructure && exists first, more ::
          a.value == Nested([first] + more) && first.kind == TypeBoolean && first.value == Bool(b))
  }

  lemma BooleanShown(a: DataAttribute, b: bool)
    ensures BooleanOf(a) == [b] <==> Shows(a, b)
  {
    if a.value.Nested? && |a.value.items| > 0 {
      assert a.value == Nested([a.value.items[0]] + a.value.items[1..]);
    }
  }

  /** On the attributes' own fields: a name gets the value `b` exactly when the last attribute under that name that shows
      a boolean shows `b`, among the positions that both lists have. */
  lemma ExtractedShows(attrs: seq<DataAttribute>, names: seq<string>, name: string, b: bool)
    ensures var m := Extracted(attrs, names, Common(attrs, names));
            (name in m && m[name] == b) <==>
              exists i: nat :: i < |attrs| && i < |names| && names[i] == name && Shows(attrs[i], b)
                && forall j, c | i < j < |attrs| && j < |names| && names[j] == name :: !Shows(attrs[j], c)
  {
    var k := Common(attrs, names);
    ExtractedIffDecided(attrs, names, k, name);
    forall i: nat | i < k
      ensures Decides(attrs, names, k, name, i) && BooleanOf(attrs[i]) == [b] <==>
        names[i] == name && Shows(attrs[i], b)
        && forall j, c | i < j < |attrs| && j < |names| && names[j] == name :: !Shows(attrs[j], c)
    {
      DecidesShows(attrs, names, name, b, i);
    }
    hide Shows, BooleanOf, Extracted;
  }

  lemma DecidesShows(attrs: seq<DataAttribute>, names: seq<string>, name: string, b: bool, i: nat)
    requires i < Common(attrs, names)
    ensures Decides(attrs, names, Common(attrs, names), name, i) && BooleanOf(attrs[i]) == [b] <==>
      names[i] == name && Shows(attrs[i], b)
      && forall j, c | i < j < |attrs| && j < |names| && names[j] == name :: !Shows(attrs[j], c)
  {
    BooleanShown(attrs[i], b);
    forall j, c | i < j < |attrs| && j < |names| ensures BooleanOf(attrs[j]) == [c] <==> Shows(attrs[j], c) {
      BooleanShown(attrs[j], c);
    }
    hide Shows, BooleanOf;
    forall j | i < j < Common(attrs, names)
      ensures BooleanOf(attrs[j]) == [] <==> forall c :: !Shows(attrs[j], c)
    {
      NoneShown(attrs[j]);
    }
  }

  lemma NoneShown(a: DataAttribute)
    ensures BooleanOf(a) == [] <==> forall c :: !Shows(a, c)
  {
    forall c ensures Shows(a, c) <==> BooleanOf(a) == [c] { BooleanShown(a, c); }
    if BooleanOf(a) != [] {
      var b := BooleanOf(a)[0];
      assert BooleanOf(a) == [b];
      assert Shows(a, b);
    }
  }
}
