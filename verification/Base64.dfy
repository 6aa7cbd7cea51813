/** The streaming base64 decoder, against the encoding of section 4 of RFC 4648. Bytes and six-bit digits are
    natural numbers; shifts and masks are the equal multiplications, quotients and remainders. */
module Base64 {
  import opened Common

  const ENCODED_LIMIT := 900000
  const DECODED_LIMIT := 700000

  type Byte = b: int | 0 <= b < 256
  type Digit = d: int | 0 <= d < 64

  /** The alphabet of table 1. */
  function Letter(d: Digit): (c: char)
    ensures Position(c) == Some(d) && !IsSpace(c) && c != '='
  {
    if d < 26 then 'A' + d as char
    else if d < 52 then 'a' + (d - 26) as char
    else if d < 62 then '0' + (d - 52) as char
    else if d == 62 then '+' else '/'
  }

  /** `alphabet.find`. */
  function Position(c: char): (d: Option<Digit>) {
    if 'A' <= c <= 'Z' then Some(c as int - 'A' as int)
    else if 'a' <= c <= 'z' then Some(c as int - 'a' as int + 26)
    else if '0' <= c <= '9' then Some(c as int - '0' as int + 52)
    else if c == '+' then Some(62)
    else if c == '/' then Some(63)
    else None
  }

  /** `std::isspace` in the default locale. */
  predicate IsSpace(c: char) {
    c == ' ' || 9 <= c as int <= 13
  }

  // ----- the encoding

  /** The four digits of a three-byte group; missing bytes count as zero. */
  function Digit0(x: Byte): (d: Digit) {
    var x: int := x;
    x / 4
  }

  function Digit1(x: Byte, y: Byte): (d: Digit) {
    var x: int, y: int := x, y;
    x % 4 * 16 + y / 16
  }

  function Digit2(y: Byte, z: Byte): (d: Digit) {
    var y: int, z: int := y, z;
    y % 16 * 4 + z / 64
  }

  function Digit3(z: Byte): (d: Digit) {
    var z: int := z;
    z % 64
  }

  function Encode(bytes: seq<Byte>): (s: string) {
    if |bytes| == 0 then []
    else if |bytes| == 1 then
      [Letter(Digit0(bytes[0])), Letter(Digit1(bytes[0], 0))] + ['=', '=']
    else if |bytes| == 2 then
      [Letter(Digit0(bytes[0])), Letter(Digit1(bytes[0], bytes[1]))] + ([Letter(Digit2(bytes[1], 0))] + ['='])
    else
      [Letter(Digit0(bytes[0])), Letter(Digit1(bytes[0], bytes[1])), Letter(Digit2(bytes[1], bytes[2])),
       Letter(Digit3(bytes[2]))] + Encode(bytes[3..])
  }

  // ----- what the decoder computes

  /** The digits before the first padding character; `None` if another character precedes it. */
  function Digits(s: string): (ds: Option<seq<Digit>>) {
    if s == [] || s[0] == '=' then Some([])
    else if IsSpace(s[0]) then Digits(s[1..])
    else if Position(s[0]).None? then None
    else
      var rest := Digits(s[1..]);
      if rest.None? then None else Some([Position(s[0]).value] + rest.value)
  }

  const ALPHABET := "ABCDEFGHIJKLMNOPQRSTUVWXYZ" + "abcdefghijklmnopqrstuvwxyz" + "0123456789" + "+/"

  /** The letter of a digit is its entry in the table. */
  lemma LetterOfTable(d: Digit)
    ensures |ALPHABET| == 64 && Letter(d) == ALPHABET[d]
  {
    if d < 26 {
      assert "ABCDEFGHIJKLMNOPQRSTUVWXYZ"[d] == 'A' + d as char;
    } else if d < 52 {
      assert "abcdefghijklmnopqrstuvwxyz"[d - 26] == 'a' + (d - 26) as char;
    } else if d < 62 {
      assert "0123456789"[d - 52] == '0' + (d - 52) as char;
    }
  }

  lemma PositionInTable(c: char)
    ensures Position(c).Some? <==> c in ALPHABET
    ensures Position(c).Some? ==> ALPHABET[Position(c).value] == c
  {
    if Position(c).Some? {
      LetterOfTable(Position(c).value);
      assert Letter(Position(c).value) == c;
    }
    if c in ALPHABET {
      var i :| 0 <= i < |ALPHABET| && ALPHABET[i] == c;
      LetterOfTable(i);
    }
  }

  /** Character `i`, before any padding, is neither whitespace nor in the table. */
  predicate Offends(s: string, i: nat)
    requires i < |s|
  {
    '=' !in s[..i + 1] && s[i] !in ALPHABET && s[i] !in " \t\n\U{0B}\U{0C}\r"
  }

  lemma SpaceIsListed(c: char)
    ensures IsSpace(c) <==> c in " \t\n\U{0B}\U{0C}\r"
  {
    var spaces := " \t\n\U{0B}\U{0C}\r";
    assert spaces == [32 as char, 9 as char, 10 as char, 11 as char, 12 as char, 13 as char];
    if IsSpace(c) {
      assert c == spaces[0] || c == spaces[1] || c == spaces[2] || c == spaces[3] || c == spaces[4] || c == spaces[5];
    }
  }

  lemma {:induction false} NoDigitsMeansOffence(s: string)
    ensures Digits(s).None? <==> exists i: nat :: i < |s| && Offends(s, i)
  {
    if s != [] {
      SpaceIsListed(s[0]);
      PositionInTable(s[0]);
      NoDigitsMeansOffence(s[1..]);
      OffenceInTail(s);
    }
  }

  /** Apart from the first character, a string offends where its tail does, unless it starts with padding. */
  lemma OffenceInTail(s: string)
    requires s != []
    ensures (exists i: nat :: i < |s| && Offends(s, i)) <==>
            s[0] != '=' && (Offends(s, 0) || exists i: nat :: i < |s| - 1 && Offends(s[1..], i))
  {
    forall i: nat | i < |s| - 1
      ensures Offends(s, i + 1) <==> s[0] != '=' && Offends(s[1..], i)
    {
      assert s[..i + 2] == [s[0]] + s[1..][..i + 1];
      assert s[1..][i] == s[i + 1];
    }
    if i: nat :| i < |s| && Offends(s, i) {
      assert s[0] in s[..i + 1];
      if i > 0 {
        assert Offends(s[1..], i - 1);
      }
    }
    if s[0] != '=' && exists i: nat :: i < |s| - 1 && Offends(s[1..], i) {
      var i: nat :| i < |s| - 1 && Offends(s[1..], i);
      assert Offends(s, i + 1);
    }
  }

  /** The three bytes of a four-digit group. */
  function Byte0(a: Digit, b: Digit): (x: Byte) {
    var a: int, b: int := a, b;
    a * 4 + b / 16
  }

  function Byte1(b: Digit, c: Digit): (y: Byte) {
    var b: int, c: int := b, c;
    b % 16 * 16 + c / 4
  }

  function Byte2(c: Digit, d: Digit): (z: Byte) {
    var c: int, d: int := c, d;
    c % 4 * 64 + d
  }

  /** Whole groups of four digits are three bytes; a last group of three is two bytes, of two is one. */
  function Regroup(ds: seq<Digit>): (bytes: seq<Byte>)
    ensures |bytes| == |ds| * 3 / 4
  {
    if |ds| < 2 then []
    else if |ds| == 2 then [Byte0(ds[0], ds[1])]
    else if |ds| == 3 then [Byte0(ds[0], ds[1]), Byte1(ds[1], ds[2])]
    else [Byte0(ds[0], ds[1]), Byte1(ds[1], ds[2]), Byte2(ds[2], ds[3])] + Regroup(ds[4..])
  }

  function PowerOfTwo(bits: int): (p: int)
    requires bits == 0 || bits == 2 || bits == 4 || bits == 6
    ensures p >= 1
  {
    if bits == 0 then 1 else if bits == 2 then 4 else if bits == 4 then 16 else 64
  }

  /** Between characters at most six bits are pending and the accumulator holds exactly those. */
  predicate Pending(accumulator: int, bits: int) {
    (bits == 0 || bits == 2 || bits == 4 || bits == 6) && 0 <= accumulator < PowerOfTwo(bits)
  }

  /** The bytes still to come from the remaining digits, taken one at a time. */
  function Drain(accumulator: int, bits: int, ds: seq<Digit>): (bytes: seq<Byte>)
    requires Pending(accumulator, bits)
    decreases |ds|
  {
    if ds == [] then []
    else if bits == 0 then Drain(ds[0], 6, ds[1..])
    else
      var shifted: int := accumulator * 64 + ds[0];
      var p := PowerOfTwo(bits - 2);
      [shifted / p % 256] + Drain(shifted % p, bits - 2, ds[1..])
  }

  /** What six more bits make of two, four or six pending ones. */
  lemma ShiftTwo(x: int, y: int)
    requires x >= 0 && 0 <= y < 64
    ensures (x % 4 * 64 + y) / 1 % 256 == x % 4 * 64 + y && (x % 4 * 64 + y) % 1 == 0
  {
  }

  lemma ShiftFour(x: int, y: int)
    requires x >= 0 && 0 <= y < 64
    ensures (x % 16 * 64 + y) / 4 % 256 == x % 16 * 16 + y / 4 && (x % 16 * 64 + y) % 4 == y % 4
  {
  }

  lemma ShiftSix(x: int, y: int)
    requires 0 <= x < 64 && 0 <= y < 64
    ensures (x * 64 + y) / 16 % 256 == x * 4 + y / 16 && (x * 64 + y) % 16 == y % 16
  {
  }

  lemma DrainTwo(d: Digit, ds: seq<Digit>)
    ensures ds == [] ==> Drain(d as int % 4, 2, ds) == []
    ensures ds != [] ==> Drain(d as int % 4, 2, ds) == [Byte2(d, ds[0])] + Drain(0, 0, ds[1..])
  {
    if ds != [] {
      ShiftTwo(d as int, ds[0] as int);
    }
  }

  lemma DrainFour(d: Digit, ds: seq<Digit>)
    ensures ds == [] ==> Drain(d as int % 16, 4, ds) == []
    ensures ds != [] ==> Drain(d as int % 16, 4, ds) == [Byte1(d, ds[0])] + Drain(ds[0] as int % 4, 2, ds[1..])
  {
    if ds != [] {
      ShiftFour(d as int, ds[0] as int);
    }
  }

  lemma DrainSix(d: Digit, ds: seq<Digit>)
    ensures ds == [] ==> Drain(d, 6, ds) == []
    ensures ds != [] ==> Drain(d, 6, ds) == [Byte0(d, ds[0])] + Drain(ds[0] as int % 16, 4, ds[1..])
  {
    if ds != [] {
      ShiftSix(d as int, ds[0] as int);
    }
  }

  lemma {:induction false} DrainRegroups(ds: seq<Digit>)
    ensures Drain(0, 0, ds) == Regroup(ds)
  {
    if |ds| >= 1 {
      DrainSix(ds[0], ds[1..]);
    }
    if |ds| >= 2 {
      assert ds[1..][1..] == ds[2..];
      DrainFour(ds[1], ds[2..]);
    }
    if |ds| >= 3 {
      assert ds[2..][1..] == ds[3..];
      DrainTwo(ds[2], ds[3..]);
    }
    if |ds| >= 4 {
      assert ds[3..][1..] == ds[4..];
      DrainRegroups(ds[4..]);
    }
  }

  datatype Outcome = Decoded(bytes: seq<Byte>) | TooLarge | InvalidEncoding

  function Decode(s: string): (r: Outcome) {
    if |s| > ENCODED_LIMIT then TooLarge
    else if Digits(s).None? then InvalidEncoding
    else Decoded(Regroup(Digits(s).value))
  }

  /** The bytes so far and those the rest of the input will add. */
  function Completed(output: seq<Byte>, accumulator: int, bits: int, rest: string): (bytes: Option<seq<Byte>>)
    requires Pending(accumulator, bits)
  {
    match Digits(rest)
    case None => None
    case Some(ds) => Some(output + Drain(accumulator, bits, ds))
  }

  lemma {:induction false} DigitsBounded(s: string)
    ensures Digits(s).Some? ==> |Digits(s).value| <= |s|
  {
    if s != [] {
      DigitsBounded(s[1..]);
    }
  }

  /** The errors exactly: too long, or some character before the padding that is neither whitespace nor a letter. */
  lemma ErrorsExact(s: string)
    ensures Decode(s).TooLarge? <==> |s| > 900000
    ensures Decode(s).InvalidEncoding? <==> |s| <= 900000 && exists i: nat :: i < |s| && Offends(s, i)
  {
    NoDigitsMeansOffence(s);
  }

  method DecodeBase64(encoded: string) returns (r: Outcome)
    ensures r == Decode(encoded)
  {
    if |encoded| > ENCODED_LIMIT {
      return TooLarge;
    }
    var output: seq<Byte> := [];
    var accumulator, bits := 0, 0;
    var k, padded := 0, false;
    assert encoded[0..] == encoded;
    while k < |encoded| && !padded
      invariant 0 <= k <= |encoded| && Pending(accumulator, bits)
      invariant Completed([], 0, 0, encoded) ==
                if padded then Some(output) else Completed(output, accumulator, bits, encoded[k..])
      decreases |encoded| - k, if padded then 0 else 1
    {
      var c := encoded[k];
      ghost var rest := encoded[k..];
      assert rest[0] == c && rest[1..] == encoded[k + 1..];
      if c == '=' {
        assert output + [] == output;
        padded := true;
      } else if IsSpace(c) {
        k := k + 1;
      } else {
        var position := Position(c);
        if position.None? {
          return InvalidEncoding;
        }
        ghost var before := output;
        ghost var pending, width := accumulator, bits;
        assert accumulator * 64 + position.value < 0x1_0000_0000;
        accumulator := accumulator * 64 + position.value;
        bits := bits + 6;
        if bits >= 8 {
          bits := bits - 8;
          output := output + [accumulator / PowerOfTwo(bits) % 256];
          accumulator := if bits == 0 then 0 else accumulator % PowerOfTwo(bits);
        }
        DigitTaken(before, pending, width, rest, output, accumulator, bits);
        k := k + 1;
      }
    }
    assert output + [] == output;
    DigitsBounded(encoded);
    if Digits(encoded).Some? {
      var bytes := Regroup(Digits(encoded).value);
      DrainRegroups(Digits(encoded).value);
      assert [] + bytes == bytes;
    }
    if |output| > DECODED_LIMIT {
      return TooLarge;
    }
    return Decoded(output);
  }

  /** Taking one digit moves its bits from the input to the output and the accumulator. */
  lemma DigitTaken(before: seq<Byte>, pending: int, width: int, rest: string, output: seq<Byte>, accumulator: int,
                   bits: int)
    requires Pending(pending, width) && rest != [] && rest[0] != '=' && !IsSpace(rest[0])
    requires Position(rest[0]).Some?
    requires var shifted := pending * 64 + Position(rest[0]).value;
             if width == 0 then bits == 6 && accumulator == shifted && output == before
             else bits == width - 2 && accumulator == shifted % PowerOfTwo(bits) &&
                  output == before + [shifted / PowerOfTwo(bits) % 256]
    ensures Pending(accumulator, bits)
    ensures Completed(before, pending, width, rest) == Completed(output, accumulator, bits, rest[1..])
  {
    var tail := Digits(rest[1..]);
    if tail.Some? {
      var ds := [Position(rest[0]).value] + tail.value;
      assert ds[1..] == tail.value;
      assert before + Drain(pending, width, ds) == output + Drain(accumulator, bits, tail.value);
    }
  }

  // ----- round trip

  function Strip(s: string): (r: string) {
    if s == [] then [] else if IsSpace(s[0]) then Strip(s[1..]) else [s[0]] + Strip(s[1..])
  }

  lemma {:induction false} WhitespaceIgnored(s: string)
    ensures Digits(s) == Digits(Strip(s))
  {
    if s != [] {
      WhitespaceIgnored(s[1..]);
      if !IsSpace(s[0]) {
        assert ([s[0]] + Strip(s[1..]))[1..] == Strip(s[1..]);
      }
    }
  }

  /** A letter in front adds its digit in front. */
  lemma DigitsOfLetter(d: Digit, rest: string)
    requires Digits(rest).Some?
    ensures Digits([Letter(d)] + rest) == Some([d] + Digits(rest).value)
  {
    assert ([Letter(d)] + rest)[1..] == rest;
  }

  lemma DigitsOfTwo(a: Digit, b: Digit, rest: string)
    requires Digits(rest).Some?
    ensures Digits([Letter(a), Letter(b)] + rest) == Some([a, b] + Digits(rest).value)
  {
    DigitsOfLetter(b, rest);
    DigitsOfLetter(a, [Letter(b)] + rest);
    assert [Letter(a), Letter(b)] + rest == [Letter(a)] + ([Letter(b)] + rest);
    assert [a, b] + Digits(rest).value == [a] + ([b] + Digits(rest).value);
  }

  lemma DigitsOfFour(a: Digit, b: Digit, c: Digit, d: Digit, rest: string)
    requires Digits(rest).Some?
    ensures Digits([Letter(a), Letter(b), Letter(c), Letter(d)] + rest) ==
            Some([a, b, c, d] + Digits(rest).value)
  {
    DigitsOfTwo(c, d, rest);
    DigitsOfTwo(a, b, [Letter(c), Letter(d)] + rest);
    assert [Letter(a), Letter(b), Letter(c), Letter(d)] + rest ==
           [Letter(a), Letter(b)] + ([Letter(c), Letter(d)] + rest);
    assert [a, b, c, d] + Digits(rest).value == [a, b] + ([c, d] + Digits(rest).value);
  }

  lemma BytesOfDigits(x: Byte, y: Byte, z: Byte)
    ensures Byte0(Digit0(x), Digit1(x, y)) == x && Byte1(Digit1(x, y), Digit2(y, z)) == y &&
            Byte2(Digit2(y, z), Digit3(z)) == z
  {
  }

  lemma GroupRegroups(x: Byte, y: Byte, z: Byte, ds: seq<Digit>)
    ensures Regroup([Digit0(x), Digit1(x, y), Digit2(y, z), Digit3(z)] + ds) == [x, y, z] + Regroup(ds)
  {
    var all := [Digit0(x), Digit1(x, y), Digit2(y, z), Digit3(z)] + ds;
    assert all[4..] == ds;
    BytesOfDigits(x, y, z);
  }

  ghost predicate DecodesTo(s: string, bytes: seq<Byte>) {
    Digits(s).Some? && Regroup(Digits(s).value) == bytes
  }

  lemma OneByteDecodes(x: Byte)
    ensures DecodesTo(Encode([x]), [x])
  {
    DigitsOfTwo(Digit0(x), Digit1(x, 0), ['=', '=']);
    BytesOfDigits(x, 0, 0);
  }

  lemma TwoBytesDecode(x: Byte, y: Byte)
    ensures DecodesTo(Encode([x, y]), [x, y])
  {
    var c := Digit2(y, 0);
    DigitsOfLetter(c, ['=']);
    DigitsOfTwo(Digit0(x), Digit1(x, y), [Letter(c)] + ['=']);
    BytesOfDigits(x, y, 0);
  }

  lemma GroupDecodes(x: Byte, y: Byte, z: Byte, rest: string, bytes: seq<Byte>)
    requires DecodesTo(rest, bytes)
    ensures DecodesTo([Letter(Digit0(x)), Letter(Digit1(x, y)), Letter(Digit2(y, z)), Letter(Digit3(z))] + rest,
                      [x, y, z] + bytes)
  {
    DigitsOfFour(Digit0(x), Digit1(x, y), Digit2(y, z), Digit3(z), rest);
    GroupRegroups(x, y, z, Digits(rest).value);
  }

  lemma {:induction false} EncodingDecodes(bytes: seq<Byte>)
    ensures DecodesTo(Encode(bytes), bytes)
  {
    if |bytes| == 1 {
      OneByteDecodes(bytes[0]);
      assert bytes == [bytes[0]];
    } else if |bytes| == 2 {
      TwoBytesDecode(bytes[0], bytes[1]);
      assert bytes == [bytes[0], bytes[1]];
    } else if |bytes| >= 3 {
      EncodingDecodes(bytes[3..]);
      GroupDecodes(bytes[0], bytes[1], bytes[2], Encode(bytes[3..]), bytes[3..]);
      assert bytes == [bytes[0], bytes[1], bytes[2]] + bytes[3..];
    }
  }

  /** Round trip: any text within the size limit that is, whitespace apart, the standard encoding of some bytes
      decodes to those bytes. */
  lemma RoundTrip(bytes: seq<Byte>, s: string)
    requires Strip(s) == Encode(bytes) && |s| <= ENCODED_LIMIT
    ensures Decode(s) == Decoded(bytes)
  {
    WhitespaceIgnored(s);
    EncodingDecodes(bytes);
  }

  /** Whatever is decoded stays under the second limit, so only the length of the text can be refused as too
      large. */
  lemma SecondLimitNeverFires(s: string)
    requires |s| <= ENCODED_LIMIT
    ensures !Decode(s).TooLarge? && (Decode(s).Decoded? ==> |Decode(s).bytes| <= 675000 < DECODED_LIMIT)
  {
    DigitsBounded(s);
  }
}
