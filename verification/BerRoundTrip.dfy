/** An X.690 definite-length encoder, and what the decoder makes of encodings and of arbitrary bytes. */
module BerRoundTrip {
  import opened Bits
  import opened Ber

  // ---------------------------------------------------------------- the encoder

  /** An element as section 8.1 of X.690 describes it; `cls` is 0 to 3. */
  datatype Element = Element(cls: nat, constructed: bool, num: nat, content: seq<byte>)

  function Pow256(n: nat): (p: nat)
    ensures p > 0
  {
    if n == 0 then 1 else 256 * Pow256(n - 1)
  }

  /** `form` 0 is the short length form, 1 to 4 the long form with that many octets, minimal or not. */
  predicate Encodable(e: Element, form: nat) {
    && e.cls < 4 && e.num < U32 && form <= 4
    && |e.content| < (if form == 0 then 128 else Pow256(form))
  }

  function HighDigits(n: nat): seq<byte> {
    (if n >= 128 then HighDigits(n / 128) else []) + [128 + n % 128]
  }

  function TagDigits(n: nat): seq<byte> {
    (if n >= 128 then HighDigits(n / 128) else []) + [n % 128]
  }

  function Identifier(e: Element): (id: seq<byte>)
    requires e.cls < 4
    ensures |id| >= 1
  {
    var lead := e.cls * 64 + if e.constructed then 32 else 0;
    if e.num < 31 then [lead + e.num] else [lead + 31] + TagDigits(e.num)
  }

  function BigEndianBytes(v: nat, n: nat): (s: seq<byte>)
    ensures |s| == n
  {
    if n == 0 then [] else BigEndianBytes(v / 256, n - 1) + [v % 256]
  }

  function LengthOctets(length: nat, form: nat): (len: seq<byte>)
    requires form == 0 ==> length < 128
    requires form <= 4
    ensures |len| >= 1
  {
    if form == 0 then [length] else [128 + form] + BigEndianBytes(length, form)
  }

  function Encode(e: Element, form: nat): seq<byte>
    requires Encodable(e, form)
  {
    Identifier(e) + LengthOctets(|e.content|, form) + e.content
  }

  lemma {:induction false} BigEndianInverse(v: nat, n: nat)
    requires v < Pow256(n)
    ensures BigEndian(BigEndianBytes(v, n)) == v
  {
    if n > 0 {
      BigEndianInverse(v / 256, n - 1);
      var s := BigEndianBytes(v, n);
      assert s[..n - 1] == BigEndianBytes(v / 256, n - 1);
    }
  }

  // ---------------------------------------------------------------- a parse looks only at its own element

  lemma {:induction false} ScanTagAppend(data: seq<byte>, rest: seq<byte>, pos: nat, acc: nat)
    requires ScanTag(data, pos, acc).Ok?
    ensures ScanTag(data + rest, pos, acc) == ScanTag(data, pos, acc)
    decreases |data| - pos
  {
    if data[pos] >= 128 { ScanTagAppend(data, rest, pos + 1, (acc * 128 + data[pos] % 128) % U32); }
  }

  lemma ReadLengthAppend(data: seq<byte>, rest: seq<byte>, pos: nat)
    requires ReadLength(data, pos).Ok?
    ensures ReadLength(data + rest, pos) == ReadLength(data, pos)
  {
    if data[pos] >= 128 {
      var n := data[pos] - 128;
      assert (data + rest)[pos + 1..pos + 1 + n] == data[pos + 1..pos + 1 + n];
    }
  }

  /** Where the parts of the element at the front lie. */
  ghost predicate Header(data: seq<byte>, num: nat, pos: nat, length: nat, start: nat) {
    && |data| >= 2
    && (if data[0] % 32 == 31 then ScanTag(data, 1, 0) == Ok((num, pos)) else num == data[0] % 32 && pos == 1)
    && ReadLength(data, pos) == Ok((length, start)) && start + length <= |data|
  }

  function TagOf(data: seq<byte>, num: nat, length: nat, start: nat): BerTag
    requires |data| >= 2 && start + length <= |data|
  {
    BerTag(data[0], data[0] / 64 * 64, data[0] / 32 % 2 * 32, num, length, data[start..start + length], data)
  }

  /** Parsing and measuring, once the identifier and the length are known to be read right. */
  lemma ParseFromHeader(data: seq<byte>, num: nat, pos: nat, length: nat, start: nat)
    requires Header(data, num, pos, length, start)
    ensures Parse(data) == Ok(TagOf(data, num, length, start)) && ElementLength(data) == Ok((start, start + length))
    ensures 2 <= start + length
  {
    hide ScanTag, SkipTag, ReadLength;
    ScanSkip(data, 1, 0);
    ScannersAgree(data);
  }

  /** Conversely, an element that parses has such parts. */
  lemma HeaderOf(data: seq<byte>) returns (num: nat, pos: nat, length: nat, start: nat)
    requires Parse(data).Ok?
    ensures Header(data, num, pos, length, start)
    ensures Parse(data) == Ok(TagOf(data, num, length, start)) && ElementLength(data) == Ok((start, start + length))
  {
    hide ScanTag, SkipTag, ReadLength;
    ScanSkip(data, 1, 0);
    num, pos := if data[0] % 32 == 31 then ScanTag(data, 1, 0).value.0 else data[0] % 32,
                if data[0] % 32 == 31 then ScanTag(data, 1, 0).value.1 else 1;
    length, start := ReadLength(data, pos).value.0, ReadLength(data, pos).value.1;
  }

  /** Bytes behind an element change nothing but the slice it was parsed from. */
  lemma ParseAppend(data: seq<byte>, rest: seq<byte>)
    requires Parse(data).Ok?
    ensures Parse(data + rest) == Ok(Parse(data).value.(fullData := data + rest))
    ensures ElementLength(data).Ok? && ElementLength(data + rest) == ElementLength(data)
  {
    hide Parse, ElementLength, ScanTag, ReadLength;
    var num, pos, length, start := HeaderOf(data);
    if data[0] % 32 == 31 { ScanTagAppend(data, rest, 1, 0); }
    ReadLengthAppend(data, rest, pos);
    ParseFromHeader(data + rest, num, pos, length, start);
    assert (data + rest)[start..start + length] == data[start..start + length];
  }

  lemma {:induction false} ScanTagPrefix(data: seq<byte>, t: nat, pos: nat, acc: nat)
    requires ScanTag(data, pos, acc).Ok? && ScanTag(data, pos, acc).value.1 <= t <= |data|
    ensures ScanTag(data[..t], pos, acc) == ScanTag(data, pos, acc)
    decreases |data| - pos
  {
    ScanSkip(data, pos, acc);
    if data[pos] >= 128 { ScanTagPrefix(data, t, pos + 1, (acc * 128 + data[pos] % 128) % U32); }
  }

  lemma ReadLengthPrefix(data: seq<byte>, t: nat, pos: nat)
    requires ReadLength(data, pos).Ok? && ReadLength(data, pos).value.1 <= t <= |data|
    ensures ReadLength(data[..t], pos) == ReadLength(data, pos)
  {
    if data[pos] >= 128 {
      var n := data[pos] - 128;
      assert data[..t][pos + 1..pos + 1 + n] == data[pos + 1..pos + 1 + n];
    }
  }

  /** The element at the front, cut out, parses to the same tag. */
  lemma ParsePrefix(data: seq<byte>)
    requires Parse(data).Ok?
    ensures ElementLength(data).Ok? && ElementLength(data).value.1 <= |data|
    ensures var t := ElementLength(data).value.1;
            Parse(data[..t]) == Ok(Parse(data).value.(fullData := data[..t])) && ElementLength(data[..t]) == ElementLength(data)
  {
    hide Parse, ElementLength, ScanTag, ReadLength;
    var num, pos, length, start := HeaderOf(data);
    var t := start + length;
    ParseFromHeader(data, num, pos, length, start);
    LengthBounds(data, pos);
    if data[0] % 32 == 31 { ScanTagPrefix(data, t, 1, 0); }
    ReadLengthPrefix(data, t, pos);
    ParseFromHeader(data[..t], num, pos, length, start);
    assert data[..t][start..t] == data[start..t];
  }

  lemma LengthBounds(data: seq<byte>, pos: nat)
    requires ReadLength(data, pos).Ok?
    ensures pos < ReadLength(data, pos).value.1 <= |data|
  {
  }

  // ---------------------------------------------------------------- tiling

  /** One element and nothing else. */
  ghost predicate WellFormed(part: seq<byte>) {
    Parse(part).Ok? && ElementLength(part).Ok? && ElementLength(part).value.1 == |part|
  }

  function Flatten(parts: seq<seq<byte>>): seq<byte> {
    if parts == [] then [] else parts[0] + Flatten(parts[1..])
  }

  /** A tag without the slice it was parsed from. */
  function Core(b: BerTag): BerTag {
    b.(fullData := [])
  }

  ghost predicate Tiles(parts: seq<seq<byte>>, bers: seq<BerTag>) {
    && |parts| == |bers|
    && forall i | 0 <= i < |parts| ::
         WellFormed(parts[i]) && Core(bers[i]) == Core(Parse(parts[i]).value)
  }

  lemma TilesCons(part: seq<byte>, ber: BerTag, parts: seq<seq<byte>>, bers: seq<BerTag>)
    requires WellFormed(part) && Core(ber) == Core(Parse(part).value) && Tiles(parts, bers)
    ensures Tiles([part] + parts, [ber] + bers)
    ensures Flatten([part] + parts) == part + Flatten(parts)
  {
    hide Parse, ElementLength, Core;
    assert ([part] + parts)[1..] == parts;
  }

  lemma {:induction false} TilesGiveElements(parts: seq<seq<byte>>) returns (bers: seq<BerTag>)
    requires forall i | 0 <= i < |parts| :: WellFormed(parts[i])
    ensures Elements(Flatten(parts)) == Ok(bers) && Tiles(parts, bers)
  {
    if parts == [] {
      bers := [];
    } else {
      var rest := TilesGiveElements(parts[1..]);
      var data := Flatten(parts);
      ParseAppend(parts[0], Flatten(parts[1..]));
      assert data[|parts[0]|..] == Flatten(parts[1..]);
      ScannersAgree(parts[0]);
      hide Parse, ElementLength;
      bers := [Parse(data).value] + rest;
      TilesCons(parts[0], Parse(data).value, parts[1..], rest);
      assert [parts[0]] + parts[1..] == parts;
    }
  }

  lemma {:induction false} ElementsGiveTiles(data: seq<byte>) returns (parts: seq<seq<byte>>)
    requires Elements(data).Ok?
    ensures Flatten(parts) == data && Tiles(parts, Elements(data).value)
    decreases |data|
  {
    if data == [] {
      parts := [];
    } else {
      hide *;
      ElementsStep(data);
      var t := ElementLength(data).value.1;
      var part, tail := data[..t], data[t..];
      assert data == part + tail;
      var rest := ElementsGiveTiles(tail);
      FirstPart(data);
      TilesCons(part, Parse(data).value, rest, Elements(tail).value);
      parts := [part] + rest;
    }
  }

  lemma ElementsStep(data: seq<byte>)
    requires data != [] && Elements(data).Ok?
    ensures Parse(data).Ok? && ElementLength(data).Ok? && 2 <= ElementLength(data).value.1 <= |data|
    ensures var t := ElementLength(data).value.1;
            Elements(data[t..]).Ok? && Elements(data).value == [Parse(data).value] + Elements(data[t..]).value
  {
    ScannersAgree(data);
    ElementsUnfold(data);
    hide Elements, Parse, ElementLength;
  }

  lemma FirstPart(data: seq<byte>)
    requires Parse(data).Ok? && ElementLength(data).Ok? && ElementLength(data).value.1 <= |data|
    ensures var part := data[..ElementLength(data).value.1];
            WellFormed(part) && Core(Parse(data).value) == Core(Parse(part).value)
  {
    hide Parse, ElementLength;
    ParsePrefix(data);
  }

  /** The iterator runs through to the end exactly on concatenations of well-formed elements, and then it yields
      those elements, in order. */
  lemma IteratesIffTiled(data: seq<byte>)
    ensures Elements(data).Ok? <==>
      exists parts: seq<seq<byte>> :: Flatten(parts) == data && forall i | 0 <= i < |parts| :: WellFormed(parts[i])
    ensures forall parts: seq<seq<byte>> ::
      Flatten(parts) == data && (forall i | 0 <= i < |parts| :: WellFormed(parts[i])) ==>
        Elements(data).Ok? && Tiles(parts, Elements(data).value)
  {
    if Elements(data).Ok? { var parts := ElementsGiveTiles(data); }
    forall parts: seq<seq<byte>> | Flatten(parts) == data && forall i | 0 <= i < |parts| :: WellFormed(parts[i])
      ensures Elements(data).Ok? && Tiles(parts, Elements(data).value)
    {
      var bers := TilesGiveElements(parts);
    }
  }

  // ---------------------------------------------------------------- round trip

  lemma ScanDigit(data: seq<byte>, p: nat, n: nat)
    requires n < U32 && p < |data|
    ensures data[p] == 128 + n % 128 ==> ScanTag(data, p, n / 128) == ScanTag(data, p + 1, n)
    ensures data[p] == n % 128 ==> ScanTag(data, p, n / 128) == Ok((n, p + 1))
  {
    assert n / 128 * 128 + n % 128 == n;
  }

  /** Scanning the continued digits of `n` accumulates `n`. */
  lemma {:induction false} ScanHighDigits(data: seq<byte>, pos: nat, n: nat)
    requires n < U32 && pos + |HighDigits(n)| <= |data|
    requires data[pos..pos + |HighDigits(n)|] == HighDigits(n)
    ensures ScanTag(data, pos, 0) == ScanTag(data, pos + |HighDigits(n)|, n)
  {
    var d, k := HighDigits(n), |HighDigits(n)| - 1;
    LastDigit(n);
    hide HighDigits, ScanTag;
    assert data[pos + k] == d[k];
    ScanDigit(data, pos + k, n);
    if n >= 128 {
      var high := d[..k];
      assert data[pos..pos + k] == high;
      ScanHighDigits(data, pos, n / 128);
    }
  }

  lemma LastDigit(n: nat)
    ensures var d := HighDigits(n);
            && |d| >= 1 && d[|d| - 1] == 128 + n % 128
            && (n >= 128 ==> d[..|d| - 1] == HighDigits(n / 128))
            && (n < 128 ==> |d| == 1)
  {
  }

  lemma ScanTagDigits(data: seq<byte>, n: nat)
    requires n < U32 && 1 + |TagDigits(n)| <= |data| && data[1..1 + |TagDigits(n)|] == TagDigits(n)
    ensures ScanTag(data, 1, 0) == Ok((n, 1 + |TagDigits(n)|))
  {
    var d, k := TagDigits(n), |TagDigits(n)| - 1;
    var high := if n >= 128 then HighDigits(n / 128) else [];
    assert d == high + [n % 128];
    hide TagDigits, HighDigits, ScanTag;
    assert data[1 + k] == d[k];
    ScanDigit(data, 1 + k, n);
    if n >= 128 {
      assert data[1..1 + k] == d[..k] == high;
      ScanHighDigits(data, 1, n / 128);
    }
  }

  lemma LeadByte(e: Element)
    requires e.cls < 4
    ensures var b := Identifier(e)[0];
            && b / 64 * 64 == e.cls * 64
            && b / 32 % 2 * 32 == (if e.constructed then 32 else 0)
            && b % 32 == (if e.num < 31 then e.num else 31)
  {
  }

  /** The tag a decoded element must give. */
  function Fields(b: BerTag): Element {
    Element(b.cls / 64, b.pc == 32, b.tagNum, b.data)
  }

  /** Decoding any encoding, followed by any bytes, gives the element back and finds its exact length. */
  lemma ParseEncoded(e: Element, form: nat, rest: seq<byte>)
    requires Encodable(e, form)
    ensures Parse(Encode(e, form) + rest).Ok? && Fields(Parse(Encode(e, form) + rest).value) == e
    ensures ElementLength(Encode(e, form) + rest).Ok?
    ensures ElementLength(Encode(e, form) + rest).value.1 == |Encode(e, form)|
    ensures WellFormed(Encode(e, form))
  {
    ParseWhole(e, form);
    ParseAppend(Encode(e, form), rest);
  }

  /** Where the parts of an encoding lie. */
  lemma EncodingParts(e: Element, form: nat)
    requires Encodable(e, form)
    ensures var data, id, len := Encode(e, form), Identifier(e), LengthOctets(|e.content|, form);
            && |data| == |id| + |len| + |e.content|
            && data[0] == id[0] && data[1..|id|] == id[1..]
            && data[|id|..|id| + |len|] == len
            && data[|id| + |len|..|id| + |len| + |e.content|] == e.content
            && (if e.num < 31 then |id| == 1 else id[1..] == TagDigits(e.num))
  {
  }

  lemma ParseWhole(e: Element, form: nat)
    requires Encodable(e, form)
    ensures Parse(Encode(e, form)).Ok? && Fields(Parse(Encode(e, form)).value) == e
    ensures WellFormed(Encode(e, form))
  {
    hide Identifier, LengthOctets, Encode, TagDigits, ScanTag, Parse, ReadLength, WellFormed;
    EncodingParts(e, form);
    LeadByte(e);
    var data, id := Encode(e, form), Identifier(e);
    if e.num >= 31 { ScanTagDigits(data, e.num); }
    ReadEncodedLength(data, |id|, |e.content|, form);
    ParseFromHeader(data, e.num, |id|, |e.content|, |id| + |LengthOctets(|e.content|, form)|);
    WholeIsWellFormed(data);
  }

  lemma WholeIsWellFormed(data: seq<byte>)
    requires Parse(data).Ok? && ElementLength(data).Ok? && ElementLength(data).value.1 == |data|
    ensures WellFormed(data)
  {
  }

  lemma ReadEncodedLength(data: seq<byte>, pos: nat, length: nat, form: nat)
    requires form <= 4 && length < (if form == 0 then 128 else Pow256(form))
    requires pos + |LengthOctets(length, form)| <= |data|
    requires data[pos..pos + |LengthOctets(length, form)|] == LengthOctets(length, form)
    ensures ReadLength(data, pos) == Ok((length, pos + |LengthOctets(length, form)|))
  {
    var len := LengthOctets(length, form);
    assert data[pos] == len[0];
    if form > 0 {
      BigEndianInverse(length, form);
      assert data[pos + 1..pos + 1 + form] == len[1..] == BigEndianBytes(length, form);
    }
  }

  datatype Encoded = Encoded(e: Element, form: nat)

  function EncodeAll(list: seq<Encoded>): seq<byte>
    requires forall i | 0 <= i < |list| :: Encodable(list[i].e, list[i].form)
  {
    if list == [] then [] else Encode(list[0].e, list[0].form) + EncodeAll(list[1..])
  }

  /** Iterating over the concatenation of any encodings returns exactly the encoded elements, in order. */
  lemma {:induction false} IterateEncoded(list: seq<Encoded>) returns (bers: seq<BerTag>)
    requires forall i | 0 <= i < |list| :: Encodable(list[i].e, list[i].form)
    ensures Ber.Elements(EncodeAll(list)) == Ok(bers) && |bers| == |list|
    ensures forall i | 0 <= i < |list| :: Fields(bers[i]) == list[i].e
  {
    if list == [] {
      bers := [];
    } else {
      var data, first := EncodeAll(list), Encode(list[0].e, list[0].form);
      ParseEncoded(list[0].e, list[0].form, EncodeAll(list[1..]));
      ElementsUnfold(data);
      assert data[|first|..] == EncodeAll(list[1..]);
      hide Ber.Elements, Parse, ElementLength, Encode, Encodable, WellFormed, Fields;
      var rest := IterateEncoded(list[1..]);
      bers := [Parse(data).value] + rest;
    }
  }

  // ---------------------------------------------------------------- what parses, on all bytes

  /** Identifier octets of section 8.1.2: one octet for tag numbers up to 30, else base-128 digits up to the first octet
      without the continuation bit. */
  predicate IdentifierOctets(id: seq<byte>) {
    && |id| >= 1
    && if id[0] % 32 == 31 then |id| >= 2 && Digits(id[1..]) else |id| == 1
  }

  predicate Digits(s: seq<byte>) {
    |s| >= 1 && s[|s| - 1] < 128 && forall i | 0 <= i < |s| - 1 :: s[i] >= 128
  }

  function Base128(s: seq<byte>): nat {
    if s == [] then 0 else 128 * Base128(s[..|s| - 1]) + s[|s| - 1] % 128
  }

  /** The tag number of identifier octets, in 32 bits. */
  function TagNumber(id: seq<byte>): nat
    requires IdentifierOctets(id)
  {
    if id[0] % 32 == 31 then Base128(id[1..]) % U32 else id[0] % 32
  }

  /** Definite length octets of section 8.1.3 for a content of `n` octets: the short form, or one to four octets behind a
      first octet that counts them. */
  predicate LengthForm(len: seq<byte>, n: nat) {
    || (|len| == 1 && len[0] < 128 && len[0] == n)
    || (2 <= |len| <= 5 && len[0] == 128 + |len| - 1 && BigEndian(len[1..]) == n)
  }

  lemma TagTurn(b: nat, d: nat)
    requires d < 128
    ensures (b % U32 * 128 + d) % U32 == (128 * b + d) % U32
  {
    var q, r := b / U32, b % U32;
    var a := r * 128 + d;
    assert 128 * b + d == (128 * q + a / U32) * U32 + a % U32;
    DivUnique(128 * b + d, U32, 128 * q + a / U32, a % U32);
  }

  /** A successful scan from `p` ends behind the first octet without the continuation bit, with the base-128 value of all
      digits from octet 1. */
  lemma {:induction false} ScanIsBase128(data: seq<byte>, p: nat)
    requires 1 <= p <= |data| && forall i | 1 <= i < p :: data[i] >= 128
    ensures match ScanTag(data, p, Base128(data[1..p]) % U32)
            case Ok((num, pos)) =>
              p < pos <= |data| && Digits(data[1..pos]) && num == Base128(data[1..pos]) % U32
            case Err(_) => forall i | p <= i < |data| :: data[i] >= 128
    decreases |data| - p
  {
    if p < |data| {
      var s := data[1..p + 1];
      assert s[..|s| - 1] == data[1..p] && s[|s| - 1] == data[p];
      TagTurn(Base128(data[1..p]), data[p] % 128);
      if data[p] >= 128 { ScanIsBase128(data, p + 1); }
    }
  }

  /** Identifier octets at the front are found by the scan, whatever follows. */
  lemma IdentifierFound(data: seq<byte>, id: seq<byte>)
    requires IdentifierOctets(id) && id <= data
    ensures data[0] == id[0]
    ensures if data[0] % 32 == 31 then ScanTag(data, 1, 0) == Ok((TagNumber(id), |id|)) else TagNumber(id) == data[0] % 32 && |id| == 1
  {
    if data[0] % 32 == 31 {
      assert data[1..1] == [];
      ScanIsBase128(data, 1);
      var digits := id[1..];
      assert digits <= data[1..] by { assert data[1..][..|digits|] == digits; }
      assert data[|id| - 1] == digits[|digits| - 1] < 128;
      var pos := ScanTag(data, 1, 0).value.1;
      DigitsUnique(digits, data[1..pos], data[1..]);
    }
  }

  lemma DigitsUnique(a: seq<byte>, b: seq<byte>, s: seq<byte>)
    requires Digits(a) && Digits(b) && a <= s && b <= s
    ensures a == b
  {
    assert forall i | 0 <= i < |a| :: a[i] == s[i];
    assert forall i | 0 <= i < |b| :: b[i] == s[i];
    assert s[|a| - 1] < 128 && s[|b| - 1] < 128;
  }

  /** Conversely, where the scan succeeds there are identifier octets. */
  lemma IdentifierAt(data: seq<byte>, num: nat, pos: nat)
    requires |data| >= 1
    requires if data[0] % 32 == 31 then ScanTag(data, 1, 0) == Ok((num, pos)) else num == data[0] % 32 && pos == 1
    ensures 1 <= pos <= |data| && IdentifierOctets(data[..pos]) && TagNumber(data[..pos]) == num
  {
    if data[0] % 32 == 31 {
      assert data[1..1] == [];
      ScanIsBase128(data, 1);
      assert data[..pos][1..] == data[1..pos];
    }
  }

  /** The length octets at `pos` are read exactly when they have a definite form. */
  lemma LengthFound(data: seq<byte>, pos: nat, len: seq<byte>, n: nat)
    requires pos + |len| <= |data| && data[pos..pos + |len|] == len && LengthForm(len, n)
    ensures ReadLength(data, pos) == Ok((n, pos + |len|))
  {
    assert data[pos] == len[0];
    if |len| > 1 { assert data[pos + 1..pos + |len|] == len[1..]; }
  }

  lemma LengthAt(data: seq<byte>, pos: nat)
    requires ReadLength(data, pos).Ok?
    ensures var (n, start) := ReadLength(data, pos).value;
            pos < start <= |data| && LengthForm(data[pos..start], n)
  {
    var (n, start) := ReadLength(data, pos).value;
    var len := data[pos..start];
    assert len[0] == data[pos];
    if data[pos] >= 128 { assert len[1..] == data[pos + 1..start]; }
  }

  /** An element of X.690 in definite form stands at the front: identifier octets, length octets and content. */
  ghost predicate StartsWith(data: seq<byte>, id: seq<byte>, len: seq<byte>, content: seq<byte>) {
    IdentifierOctets(id) && LengthForm(len, |content|) && id + len + content <= data
  }

  lemma ElementSlices(data: seq<byte>, id: seq<byte>, len: seq<byte>, content: seq<byte>)
    requires id + len + content <= data
    ensures var start := |id| + |len|;
            id <= data && data[|id|..start] == len && data[start..start + |content|] == content
  {
    var start, whole := |id| + |len|, id + len + content;
    assert whole[..|id|] == id && whole[|id|..start] == len && whole[start..] == content;
    assert data[..|whole|] == whole;
  }

  lemma ElementHeader(data: seq<byte>, id: seq<byte>, len: seq<byte>, content: seq<byte>)
    requires StartsWith(data, id, len, content)
    ensures Header(data, TagNumber(id), |id|, |content|, |id| + |len|)
    ensures data[0] == id[0] && data[|id| + |len|..|id| + |len| + |content|] == content
  {
    ElementSlices(data, id, len, content);
    IdentifierFound(data, id);
    LengthFound(data, |id|, len, |content|);
    hide TagNumber, ScanTag, ReadLength;
  }

  /** On all bytes: whenever such an element stands at the front, it is what the parser and the scanner find, with every
      field. */
  lemma ElementParses(data: seq<byte>, id: seq<byte>, len: seq<byte>, content: seq<byte>)
    requires StartsWith(data, id, len, content)
    ensures Parse(data) ==
      Ok(BerTag(id[0], id[0] / 64 * 64, id[0] / 32 % 2 * 32, TagNumber(id), |content|, content, data))
    ensures ElementLength(data) == Ok((|id| + |len|, |id| + |len| + |content|))
  {
    ElementHeader(data, id, len, content);
    ParseFromHeader(data, TagNumber(id), |id|, |content|, |id| + |len|);
    hide TagNumber, LengthForm, Header, Parse, ElementLength;
  }

  /** And conversely: whatever parses has such an element at the front, and its fields are those of that element. */
  lemma ParsedIsElement(data: seq<byte>) returns (id: seq<byte>, len: seq<byte>)
    requires Parse(data).Ok?
    ensures StartsWith(data, id, len, Parse(data).value.data)
    ensures Parse(data).value ==
      BerTag(id[0], id[0] / 64 * 64, id[0] / 32 % 2 * 32, TagNumber(id), |Parse(data).value.data|, Parse(data).value.data, data)
  {
    hide Parse, ElementLength, ScanTag, ReadLength;
    var num, pos, length, start := HeaderOf(data);
    IdentifierAt(data, num, pos);
    LengthAt(data, pos);
    id, len := data[..pos], data[pos..start];
    hide IdentifierOctets, TagNumber, LengthForm;
    assert id + len + data[start..start + length] == data[..start + length];
  }

  /** A byte string parses exactly when an element in definite form stands at its front. */
  lemma ParsesIff(data: seq<byte>)
    ensures Parse(data).Ok? <==> exists id, len, content :: StartsWith(data, id, len, content)
  {
    hide Parse, StartsWith;
    if Parse(data).Ok? { var id, len := ParsedIsElement(data); }
    forall id, len, content | StartsWith(data, id, len, content) ensures Parse(data).Ok? {
      ElementParses(data, id, len, content);
    }
  }

  /** A whole well-formed part is nothing but such an element. */
  lemma WellFormedIff(part: seq<byte>)
    ensures WellFormed(part) <==>
      exists id, len, content :: StartsWith(part, id, len, content) && part == id + len + content
  {
    hide Parse, ElementLength, StartsWith;
    if WellFormed(part) {
      var id, len := ParsedIsElement(part);
      ElementParses(part, id, len, Parse(part).value.data);
      PrefixIsWhole(part, id, len, Parse(part).value.data);
    }
    forall id, len, content | StartsWith(part, id, len, content) && part == id + len + content ensures WellFormed(part) {
      ElementParses(part, id, len, content);
    }
  }

  lemma PrefixIsWhole(part: seq<byte>, id: seq<byte>, len: seq<byte>, content: seq<byte>)
    requires StartsWith(part, id, len, content) && |part| == |id| + |len| + |content|
    ensures part == id + len + content
  {
    hide IdentifierOctets, LengthForm;
  }

  /** The indefinite form and first length octets that announce more than four octets are invalid, for both scanners and
      whatever follows. */
  lemma BadLengthRejected(data: seq<byte>, id: seq<byte>)
    requires IdentifierOctets(id) && id <= data && |id| < |data|
    requires data[|id|] == 0x80 || data[|id|] > 0x84
    ensures Parse(data) == Err(InvalidBER) && ElementLength(data) == Err(InvalidBER)
  {
    IdentifierFound(data, id);
    ScanSkip(data, 1, 0);
    hide ScanTag, SkipTag, IdentifierOctets, TagNumber;
  }

  /** Every other failure is truncation: either the bytes end within the identifier octets, or the first length octet is
      fine. */
  lemma OtherErrorsAreTruncation(data: seq<byte>)
    requires Parse(data).Err?
    ensures Parse(data).error == InvalidBER || Parse(data).error == Truncated
    ensures Parse(data).error == InvalidBER <==>
      exists pos: nat :: pos < |data| && IdentifierOctets(data[..pos]) && (data[pos] == 0x80 || data[pos] > 0x84)
  {
    forall pos: nat | pos < |data| && IdentifierOctets(data[..pos]) && (data[pos] == 0x80 || data[pos] > 0x84)
      ensures Parse(data) == Err(InvalidBER)
    {
      BadLengthRejected(data, data[..pos]);
    }
    ErrorKinds(data);
    hide Parse, IdentifierOctets;
    if Parse(data).error == InvalidBER { var pos := InvalidAt(data); }
  }

  lemma ErrorKinds(data: seq<byte>)
    requires Parse(data).Err?
    ensures Parse(data).error == InvalidBER || Parse(data).error == Truncated
  {
    ScanSkip(data, 1, 0);
  }

  lemma InvalidAt(data: seq<byte>) returns (pos: nat)
    requires Parse(data) == Err(InvalidBER)
    ensures pos < |data| && IdentifierOctets(data[..pos]) && (data[pos] == 0x80 || data[pos] > 0x84)
  {
    ScanSkip(data, 1, 0);
    var num;
    if data[0] % 32 == 31 {
      num, pos := ScanTag(data, 1, 0).value.0, ScanTag(data, 1, 0).value.1;
    } else {
      num, pos := data[0] % 32, 1;
    }
    IdentifierAt(data, num, pos);
  }
}
