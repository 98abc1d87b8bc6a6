/** Hex text of bytes and string joining (lib/debugger-utils/util.cc). */
module Hex {
  import opened Prelude

  /** HexCharToByte. */
  function DigitValue(c: char): (r: Option<Byte>)
    ensures r.Some? ==> r.value < 16
  {
    if 'a' <= c <= 'f' then Some(c as int - 'a' as int + 10)
    else if '0' <= c <= '9' then Some(c as int - '0' as int)
    else if 'A' <= c <= 'F' then Some(c as int - 'A' as int + 10)
    else None
  }

  /** HalfByteToHexChar: always a lower-case digit, and DigitValue reads it back. */
  function DigitChar(d: Byte): (c: char)
    requires d < 16
    ensures DigitValue(c) == Some(d)
    ensures '0' <= c <= '9' || 'a' <= c <= 'f'
  {
    if d < 10 then ('0' as int + d) as char else ('a' as int + d % 10) as char
  }

  /** The digits: sixteen of them, letters in either case when read and in lower case when written. */
  lemma DigitsAre(c: char, d: Byte)
    requires d < 16
    ensures DigitValue(c) == Some(d) <==> c == "0123456789abcdef"[d] || c == "0123456789ABCDEF"[d]
    ensures DigitChar(d) == "0123456789abcdef"[d]
  {
  }

  predicate IsHex(s: string) {
    forall i :: 0 <= i < |s| ==> DigitValue(s[i]).Some?
  }

  /** DecodeByteString: the high digit comes first. */
  function DecodeByte(high: char, low: char): (r: Option<Byte>)
    ensures r.Some? <==> DigitValue(high).Some? && DigitValue(low).Some?
  {
    match (DigitValue(high), DigitValue(low))
    case (Some(h), Some(l)) => Some(16 * h + l)
    case _ => None
  }

  /** EncodeByteString. */
  function EncodeByte(b: Byte): (s: string)
    ensures |s| == 2 && DecodeByte(s[0], s[1]) == Some(b)
    ensures IsHex(s)
  {
    [DigitChar(b / 16), DigitChar(b % 16)]
  }

  /** The lower-case hex text of a byte array. */
  function EncodeBytes(bytes: seq<Byte>): (s: string)
    ensures |s| == 2 * |bytes|
  {
    if bytes == [] then "" else EncodeBytes(bytes[..|bytes| - 1]) + EncodeByte(bytes[|bytes| - 1])
  }

  /** The bytes that pairs of hex digits stand for. */
  function DecodePairs(s: string): (bytes: seq<Byte>)
    requires |s| % 2 == 0 && IsHex(s)
    ensures 2 * |bytes| == |s|
  {
    if s == "" then []
    else DecodePairs(s[..|s| - 2]) + [DecodeByte(s[|s| - 2], s[|s| - 1]).value]
  }

  /** DecodeByteArrayString: nothing at all unless every digit is good. */
  function DecodeBytes(s: string): (bytes: seq<Byte>) {
    if |s| % 2 == 0 && IsHex(s) then DecodePairs(s) else []
  }

  /** Decoding inverts encoding, for every byte array. */
  lemma {:induction false} DecodeOfEncode(bytes: seq<Byte>)
    ensures IsHex(EncodeBytes(bytes))
    ensures DecodeBytes(EncodeBytes(bytes)) == bytes
    decreases |bytes|
  {
    hide DecodeByte, EncodeByte, DigitValue;
    if bytes != [] {
      var init, last := bytes[..|bytes| - 1], bytes[|bytes| - 1];
      DecodeOfEncode(init);
      var s := EncodeBytes(bytes);
      assert s[..|s| - 2] == EncodeBytes(init);
      assert bytes == init + [last];
    }
  }

  /** Two digits are a byte, the high one first. */
  lemma PairIs(high: char, low: char, b: Byte)
    ensures DecodeByte(high, low) == Some(b) <==> DigitValue(high) == Some(b / 16) && DigitValue(low) == Some(b % 16)
    ensures EncodeByte(b) == ["0123456789abcdef"[b / 16], "0123456789abcdef"[b % 16]]
  {
    hide DigitValue;
    DigitsAre('0', b / 16);
    DigitsAre('0', b % 16);
  }

  /** Byte i of an array is written at 2 * i. */
  lemma {:induction false} PairAt(bytes: seq<Byte>, i: nat)
    requires i < |bytes|
    ensures EncodeBytes(bytes)[2 * i..2 * i + 2] == ["0123456789abcdef"[bytes[i] / 16], "0123456789abcdef"[bytes[i] % 16]]
    decreases |bytes|
  {
    hide EncodeByte, DigitValue;
    var init, last := bytes[..|bytes| - 1], bytes[|bytes| - 1];
    if i == |init| {
      PairIs('0', '0', last);
    } else {
      PairAt(init, i);
      assert EncodeBytes(bytes)[2 * i..2 * i + 2] == EncodeBytes(init)[2 * i..2 * i + 2];
    }
  }

  function LowerDigit(c: char): char {
    if 'A' <= c <= 'F' then (c as int + 32) as char else c
  }

  lemma DigitsOfPair(high: char, low: char)
    requires DecodeByte(high, low).Some?
    ensures EncodeByte(DecodeByte(high, low).value) == [LowerDigit(high), LowerDigit(low)]
  {
    var h, l := DigitValue(high).value, DigitValue(low).value;
    assert (16 * h + l) / 16 == h && (16 * h + l) % 16 == l;
    assert DigitChar(h) == LowerDigit(high) && DigitChar(l) == LowerDigit(low);
  }

  function LowerDigits(s: string): string {
    if s == "" then "" else LowerDigits(s[..|s| - 1]) + [LowerDigit(s[|s| - 1])]
  }

  /** Encoding inverts decoding up to the case of the digits, on every text that decodes. */
  lemma {:induction false} EncodeOfDecode(s: string)
    requires |s| % 2 == 0 && IsHex(s)
    ensures EncodeBytes(DecodeBytes(s)) == LowerDigits(s)
    decreases |s|
  {
    hide DecodeByte, EncodeByte, DigitValue, LowerDigit;
    if s != "" {
      var init, high, low := s[..|s| - 2], s[|s| - 2], s[|s| - 1];
      EncodeOfDecode(init);
      DigitsOfPair(high, low);
      var bytes := DecodeBytes(s);
      assert bytes[..|bytes| - 1] == DecodeBytes(init);
      assert s[..|s| - 1][..|s| - 2] == init;
      assert LowerDigits(s) == LowerDigits(init) + [LowerDigit(high)] + [LowerDigit(low)];
    }
  }

  method EncodeByteArrayString(bytes: array<Byte>) returns (result: string)
    ensures result == EncodeBytes(bytes[..])
  {
    hide EncodeByte;
    var size := bytes.Length * 2;
    var text := new char[size];
    var next := 0;
    var i := 0;
    while i < size
      invariant 0 <= i <= size && i == 2 * next
      invariant text[..i] == EncodeBytes(bytes[..next])
    {
      var pair := EncodeByte(bytes[next]);
      text[i], text[i + 1] := pair[0], pair[1];
      assert bytes[..next + 1][..next] == bytes[..next];
      assert text[..i + 2] == text[..i] + pair;
      next := next + 1;
      i := i + 2;
    }
    assert bytes[..next] == bytes[..];
    result := text[..];
  }

  method DecodeByteArrayString(s: string) returns (result: seq<Byte>)
    ensures result == DecodeBytes(s)
  {
    hide DecodeByte, DigitValue;
    if |s| % 2 != 0 || s == "" {
      return [];
    }
    var size := |s| / 2;
    var bytes := new Byte[size];
    var i := 0;
    while i < size
      invariant 0 <= i <= size
      invariant IsHex(s[..2 * i])
      invariant bytes[..i] == DecodePairs(s[..2 * i])
    {
      var b := DecodeByte(s[2 * i], s[2 * i + 1]);
      if b.None? {
        assert DigitValue(s[2 * i]).None? || DigitValue(s[2 * i + 1]).None?;
        return [];
      }
      bytes[i] := b.value;
      assert s[..2 * i + 2][..2 * i] == s[..2 * i];
      assert bytes[..i + 1] == bytes[..i] + [b.value];
      i := i + 1;
    }
    assert s[..2 * i] == s;
    result := bytes[..];
  }

  /** Every part followed by the separator. */
  function Closed(parts: seq<string>, sep: char): string {
    if |parts| == 0 then "" else Closed(parts[..|parts| - 1], sep) + parts[|parts| - 1] + [sep]
  }

  lemma {:induction false} JoinFrom(parts: seq<string>, sep: char, i: nat)
    requires i < |parts|
    ensures Join(parts, sep) == Closed(parts[..i], sep) + Join(parts[i..], sep)
    decreases i
  {
    if i == 0 {
      assert parts[0..] == parts;
    } else {
      JoinFrom(parts, sep, i - 1);
      assert parts[..i][..i - 1] == parts[..i - 1];
      assert parts[i - 1..][1..] == parts[i..];
    }
  }

  /** memcpy of a string into a buffer. */
  method CopyTo(buffer: array<char>, at: nat, str: string)
    requires at + |str| <= buffer.Length
    modifies buffer
    ensures forall i :: 0 <= i < buffer.Length ==>
                          buffer[i] == if at <= i < at + |str| then str[i - at] else old(buffer[i])
  {
    forall j | 0 <= j < |str| {
      buffer[at + j] := str[j];
    }
  }

  /**
   * `buffer` and `start` stand for the pointer that is passed in. The precondition
   * is what the two checks in the loop amount to; when the buffer has exactly the
   * size of the joined text it is filled to the last character.
   */
  method JoinStrings(strings: seq<string>, delimiter: char, buffer: array<char>, start: nat, size: nat)
    returns (index: nat)
    requires start + size <= buffer.Length
    requires |Join(strings, delimiter)| <= size
    modifies buffer
    ensures index == |Join(strings, delimiter)|
    ensures buffer[start..start + index] == Join(strings, delimiter)
    ensures forall i :: 0 <= i < buffer.Length && !(start <= i < start + index) ==> buffer[i] == old(buffer[i])
  {
    hide Join, Closed;
    index := 0;
    var count := 0;
    EmptyJoin(delimiter);
    assert strings[..0] == [];
    ghost var text := "";
    while count < |strings|
      invariant 0 <= count <= |strings|
      invariant |strings| > 0 ==> count < |strings|
      invariant text == Closed(strings[..count], delimiter)
      invariant index == |text| <= size
      invariant forall i :: 0 <= i < buffer.Length ==>
                              buffer[i] == if start <= i < start + index then text[i - start] else old(buffer[i])
    {
      var str := strings[count];
      JoinFrom(strings, delimiter, count);
      FirstOfJoin(strings, delimiter, count);
      assert index + |str| <= size;
      CopyTo(buffer, start + index, str);
      text := text + str;
      index := index + |str|;
      count := count + 1;
      if count == |strings| {
        break;
      }
      assert index < size;
      CopyTo(buffer, start + index, [delimiter]);
      text := text + [delimiter];
      index := index + 1;
    }
    assert text == Join(strings, delimiter);
  }

  lemma EmptyJoin(sep: char)
    ensures Join([], sep) == "" == Closed([], sep)
  {
  }

  lemma FirstOfJoin(parts: seq<string>, sep: char, i: nat)
    requires i < |parts|
    ensures i + 1 == |parts| ==> Join(parts[i..], sep) == parts[i]
    ensures i + 1 < |parts| ==> |Join(parts[i..], sep)| > |parts[i]|
    ensures Closed(parts[..i + 1], sep) == Closed(parts[..i], sep) + parts[i] + [sep]
  {
    assert parts[..i + 1][..i] == parts[..i];
  }
}
