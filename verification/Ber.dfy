/** BER headers (ITU-T X.690, sections 8.1.2 and 8.1.3): the parser, the independent length scanner and the iterator
    over both. */
module Ber {
  import opened Bits

  const U32: nat := 0x1_0000_0000

  datatype BerError = Truncated | InvalidBER | TagMismatch | LengthMismatch

  datatype Result<T> = Ok(value: T) | Err(error: BerError) {
    predicate IsFailure() {
      Err?
    }

    function PropagateFailure<U>(): Result<U>
      requires Err?
    {
      Err(error)
    }

    function Extract(): T
      requires Ok?
    {
      value
    }
  }

  datatype BerTag = BerTag(
    tag: byte, cls: byte, pc: byte, tagNum: nat, length: nat, data: seq<byte>, fullData: seq<byte>)

  // ---------------------------------------------------------------- specification

  /** The base-128 digits of a high tag number from `pos`, accumulated in 32 bits, and the position behind them. */
  function ScanTag(data: seq<byte>, pos: nat, acc: nat): (r: Result<(nat, nat)>)
    decreases |data| - pos
  {
    if pos >= |data| then Err(Truncated)
    else
      var acc' := (acc * 128 + data[pos] % 128) % U32;
      if data[pos] < 128 then Ok((acc', pos + 1)) else ScanTag(data, pos + 1, acc')
  }

  /** The position behind the digits alone. */
  function SkipTag(data: seq<byte>, pos: nat): Result<nat>
    decreases |data| - pos
  {
    if pos >= |data| then Err(Truncated)
    else if data[pos] < 128 then Ok(pos + 1)
    else SkipTag(data, pos + 1)
  }

  /** The length octets at `pos`: the content length and the position of the content. The indefinite form is invalid. */
  function ReadLength(data: seq<byte>, pos: nat): Result<(nat, nat)> {
    if pos >= |data| then Err(Truncated)
    else if data[pos] < 128 then Ok((data[pos], pos + 1))
    else
      var n := data[pos] - 128;
      if n == 0 || n > 4 then Err(InvalidBER)
      else if pos + 1 + n > |data| then Err(Truncated)
      else Ok((BigEndian(data[pos + 1..pos + 1 + n]), pos + 1 + n))
  }

  function Parse(data: seq<byte>): Result<BerTag> {
    if |data| < 2 then Err(Truncated)
    else
      var (num, pos) :- if data[0] % 32 == 31 then ScanTag(data, 1, 0) else Ok((data[0] % 32, 1));
      var (length, start) :- ReadLength(data, pos);
      if start + length > |data| then Err(Truncated)
      else
        Ok(BerTag(data[0], data[0] / 64 * 64, data[0] / 32 % 2 * 32, num, length, data[start..start + length], data))
  }

  /** Header length and total length of the element at the front. */
  function ElementLength(data: seq<byte>): Result<(nat, nat)> {
    if |data| < 2 then Err(Truncated)
    else
      var pos :- if data[0] % 32 == 31 then SkipTag(data, 1) else Ok(1);
      var (length, start) :- ReadLength(data, pos);
      Ok((start, start + length))
  }

  // ---------------------------------------------------------------- the code

  /** `tagNum << 7 | y` in 32 bits. */
  lemma TagShift(acc: nat, y: nat)
    requires y < 128
    ensures Or(acc * 128 % U32, y) == (acc * 128 + y) % U32
  {
    hide Or;
    var q, z := acc / 0x200_0000, acc % 0x200_0000;
    DivUnique(acc * 128, U32, q, 128 * z);
    DivUnique(acc * 128 + y, U32, q, 128 * z + y);
    OrShifted7(z, y);
  }

  method ScanTagOctets(data: seq<byte>) returns (tagNum: nat, pos: nat, ok: bool)
    ensures ScanTag(data, 1, 0) == if ok then Ok((tagNum, pos)) else Err(Truncated)
    ensures ok ==> 1 < pos <= |data|
  {
    hide And, Or;
    tagNum, pos := 0, 1;
    while true
      invariant 1 <= pos && ScanTag(data, 1, 0) == ScanTag(data, pos, tagNum)
      decreases |data| - pos
    {
      if pos >= |data| {
        return tagNum, pos, false;
      }
      ByteMasks(data[pos]);
      TagShift(tagNum, data[pos] % 128);
      tagNum := Or(tagNum * 128 % U32, And(data[pos], 0x7F));
      if And(data[pos], 0x80) == 0 {
        pos := pos + 1;
        return tagNum, pos, true;
      }
      pos := pos + 1;
    }
  }

  /** The length octets, read by a shift loop. */
  method ReadLengthOctets(data: seq<byte>, start: nat) returns (r: Result<(nat, nat)>)
    ensures r == ReadLength(data, start)
  {
    hide And, Or;
    var pos := start;
    if pos >= |data| {
      return Err(Truncated);
    }
    var lengthByte := data[pos];
    pos := pos + 1;
    ByteMasks(lengthByte);
    if And(lengthByte, 0x80) == 0 {
      return Ok((lengthByte, pos));
    }
    var numBytes := And(lengthByte, 0x7F);
    if numBytes == 0 || numBytes > 4 {
      return Err(InvalidBER);
    }
    if pos + numBytes > |data| {
      return Err(Truncated);
    }
    var length := 0;
    for i := 0 to numBytes
      invariant length == BigEndian(data[pos..pos + i])
    {
      OrShifted8(length, data[pos + i]);
      assert data[pos..pos + i + 1][..i] == data[pos..pos + i];
      length := Or(256 * length, data[pos + i]);
    }
    return Ok((length, pos + numBytes));
  }

  method ParseBER(data: seq<byte>) returns (r: Result<BerTag>)
    ensures r == Parse(data)
  {
    hide And, Or;
    if |data| < 2 {
      return Err(Truncated);
    }
    ByteMasks(data[0]);
    var tag, cls, pc := data[0], And(data[0], 0xC0), And(data[0], 0x20);
    var pos, tagNum := 1, 0;
    if And(data[0], 0x1F) == 0x1F {
      var ok;
      tagNum, pos, ok := ScanTagOctets(data);
      if !ok {
        return Err(Truncated);
      }
    } else {
      tagNum := And(data[0], 0x1F);
    }
    var l := ReadLengthOctets(data, pos);
    if l.Err? {
      return Err(l.error);
    }
    var (length, start) := l.value;
    if start + length > |data| {
      return Err(Truncated);
    }
    return Ok(BerTag(tag, cls, pc, tagNum, length, data[start..start + length], data));
  }

  method GetElementLength(data: seq<byte>) returns (r: Result<(nat, nat)>)
    ensures r == ElementLength(data)
  {
    hide And, Or;
    if |data| < 2 {
      return Err(Truncated);
    }
    ByteMasks(data[0]);
    var pos := 1;
    if And(data[0], 0x1F) == 0x1F {
      while true
        invariant 1 <= pos && SkipTag(data, 1) == SkipTag(data, pos)
        decreases |data| - pos
      {
        if pos >= |data| {
          return Err(Truncated);
        }
        ByteMasks(data[pos]);
        if And(data[pos], 0x80) == 0 {
          pos := pos + 1;
          break;
        }
        pos := pos + 1;
      }
      assert SkipTag(data, 1) == Ok(pos);
    }
    var l := ReadLengthOctets(data, pos);
    if l.Err? {
      return Err(l.error);
    }
    var (length, start) := l.value;
    return Ok((start, start + length));
  }

  // ---------------------------------------------------------------- the two scanners agree

  lemma {:induction false} ScanSkip(data: seq<byte>, pos: nat, acc: nat)
    ensures SkipTag(data, pos) ==
            match ScanTag(data, pos, acc) case Ok(v) => Ok(v.1) case Err(e) => Err(e)
    ensures SkipTag(data, pos).Ok? ==> pos < SkipTag(data, pos).value <= |data|
    ensures SkipTag(data, pos).Err? ==> SkipTag(data, pos).error == Truncated
    decreases |data| - pos
  {
    if pos < |data| && data[pos] >= 128 {
      ScanSkip(data, pos + 1, (acc * 128 + data[pos] % 128) % U32);
    }
  }

  /** On any bytes: `ParseBER` succeeds exactly when `GetElementLength` does and the element fits; then both see the same
      header, at least two bytes long in all, and otherwise they report the same error, or truncation. */
  lemma ScannersAgree(data: seq<byte>)
    ensures Parse(data).Ok? <==> ElementLength(data).Ok? && ElementLength(data).value.1 <= |data|
    ensures Parse(data).Ok? ==>
      var (header, total) := ElementLength(data).value;
      && 2 <= header <= total <= |data| && total == header + Parse(data).value.length
      && Parse(data).value.data == data[header..total]
    ensures Parse(data).Err? ==>
      Parse(data).error == if ElementLength(data).Err? then ElementLength(data).error else Truncated
  {
    ScanSkip(data, 1, 0);
  }

  // ---------------------------------------------------------------- the iterator

  /** All elements of `data`, front to back, or the first error. */
  function Elements(data: seq<byte>): Result<seq<BerTag>>
  {
    if data == [] then Ok([])
    else
      var ber :- Parse(data);
      var (header, total) :- ElementLength(data);
      ScannersAgree(data);
      var rest :- Elements(data[total..]);
      Ok([ber] + rest)
  }

  /** One step of the iterator is one step of `Elements`. */
  lemma ElementsUnfold(data: seq<byte>)
    requires data != []
    ensures Parse(data).Err? ==> Elements(data) == Err(Parse(data).error)
    ensures Parse(data).Ok? ==> ElementLength(data).Ok? && ElementLength(data).value.1 <= |data|
    ensures Parse(data).Ok? ==>
      Elements(data) ==
        match Elements(data[ElementLength(data).value.1..])
        case Ok(rest) => Ok([Parse(data).value] + rest)
        case Err(e) => Err(e)
  {
    ScannersAgree(data);
  }

  class BERIterator {
    const data: seq<byte>
    var index: nat

    constructor (data: seq<byte>)
      ensures this.data == data && index == 0
    {
      this.data, index := data, 0;
    }

    method HasMore() returns (b: bool)
      ensures b <==> index < |data|
    {
      return index < |data|;
    }

    /** The next element, or none at the end; on an error the position stays. */
    method Next() returns (r: Result<seq<BerTag>>)
      requires index <= |data|
      modifies this
      ensures index <= |data|
      ensures r.Ok? ==> |r.value| <= 1 && (r.value == [] <==> old(index) == |data|)
      ensures r.Err? ==> old(index) < |data| && index == old(index) && Parse(data[old(index)..]) == Err(r.error)
      ensures r.Ok? && r.value == [] ==> index == old(index)
      ensures r.Ok? && r.value != [] ==>
        && Parse(data[old(index)..]) == Ok(r.value[0])
        && ElementLength(data[old(index)..]).Ok?
        && index == old(index) + ElementLength(data[old(index)..]).value.1 > old(index)
    {
      if index >= |data| {
        return Ok([]);
      }
      var here := data[index..];
      ScannersAgree(here);
      hide Parse, ElementLength;
      var ber := ParseBER(here);
      if ber.Err? {
        return Err(ber.error);
      }
      var l := GetElementLength(here);
      if l.Err? {
        assert false;   // the second scanner cannot fail where the first succeeded
      }
      var total := l.value.1;
      index := index + total;
      return Ok([ber.value]);
    }
  }
}
