/**
 * The base64url codec and the nonce comparison of the sign-in flow
 * (apps/staff/lib/google-signin.ts), over the `btoa` and `atob` they call
 * (RFC 4648 section 4, and the forgiving decode of the WHATWG Infra standard).
 */
module Base64Url {
  import opened Sequences
  import opened Wrappers

  type byte = b: int | 0 <= b < 256
  type sextet = s: int | 0 <= s < 64

  // ---------------------------------------------------------------- the alphabet

  /** Table 1 of RFC 4648. */
  function StdChar(s: sextet): char {
    if s < 26 then ('A' as int + s) as char
    else if s < 52 then ('a' as int + s - 26) as char
    else if s < 62 then ('0' as int + s - 52) as char
    else if s == 62 then '+'
    else '/'
  }

  function CharValue(c: char): Option<sextet> {
    if 'A' <= c <= 'Z' then Some(c as int - 'A' as int)
    else if 'a' <= c <= 'z' then Some(c as int - 'a' as int + 26)
    else if '0' <= c <= '9' then Some(c as int - '0' as int + 52)
    else if c == '+' then Some(62)
    else if c == '/' then Some(63)
    else None
  }

  /** Table 2 of RFC 4648: the alphabet safe in a URL. */
  predicate UrlSafe(c: char) {
    'A' <= c <= 'Z' || 'a' <= c <= 'z' || '0' <= c <= '9' || c == '-' || c == '_'
  }

  function ToUrl(c: char): char {
    if c == '+' then '-' else if c == '/' then '_' else c
  }

  function FromUrl(c: char): char {
    if c == '-' then '+' else if c == '_' then '/' else c
  }

  function MapText(f: char -> char, text: string): (mapped: string)
    ensures |mapped| == |text| && forall k :: 0 <= k < |text| ==> mapped[k] == f(text[k])
  {
    if text == "" then "" else [f(text[0])] + MapText(f, text[1..])
  }

  lemma CharsRoundTrip(s: sextet)
    ensures CharValue(StdChar(s)) == Some(s)
    ensures UrlSafe(ToUrl(StdChar(s))) && FromUrl(ToUrl(StdChar(s))) == StdChar(s)
    ensures StdChar(s) != '='
  {
  }

  // ---------------------------------------------------------------- encoding

  /** The four values of three bytes. */
  function Value1(b0: byte): sextet { b0 / 4 }

  function Value2(b0: byte, b1: byte): sextet { b0 % 4 * 16 + b1 / 16 }

  function Value3(b1: byte, b2: byte): sextet { b1 % 16 * 4 + b2 / 64 }

  function Value4(b2: byte): sextet { b2 % 64 }

  /** `btoa`: three bytes to four characters, the last group padded. */
  function Btoa(bytes: seq<byte>): string {
    if bytes == [] then ""
    else if |bytes| == 1 then
      [StdChar(Value1(bytes[0])), StdChar(Value2(bytes[0], 0)), '=', '=']
    else if |bytes| == 2 then
      [StdChar(Value1(bytes[0])), StdChar(Value2(bytes[0], bytes[1])), StdChar(Value3(bytes[1], 0)), '=']
    else
      [StdChar(Value1(bytes[0])), StdChar(Value2(bytes[0], bytes[1])),
       StdChar(Value3(bytes[1], bytes[2])), StdChar(Value4(bytes[2]))]
      + Btoa(bytes[3..])
  }

  function StripPadding(text: string): string {
    if text != "" && text[|text| - 1] == '=' then StripPadding(text[..|text| - 1]) else text
  }

  function Encode(bytes: seq<byte>): string {
    StripPadding(MapText(ToUrl, Btoa(bytes)))
  }

  // ---------------------------------------------------------------- decoding

  predicate AsciiSpace(c: char) {
    c == '\t' || c == '\n' || c == '\U{C}' || c == '\r' || c == ' '
  }

  function DropSpaces(text: string): string {
    if text == "" then ""
    else if AsciiSpace(text[0]) then DropSpaces(text[1..])
    else [text[0]] + DropSpaces(text[1..])
  }

  /** At most two padding characters, and only when they complete a group of four. */
  function DropPadding(text: string): string {
    if |text| % 4 != 0 || text == "" || text[|text| - 1] != '=' then text
    else if text[|text| - 2] == '=' then text[..|text| - 2]
    else text[..|text| - 1]
  }

  predicate InAlphabet(text: string) {
    forall k :: 0 <= k < |text| ==> CharValue(text[k]).Some?
  }

  function Values(text: string): seq<sextet>
    requires InAlphabet(text)
  {
    if text == "" then [] else [CharValue(text[0]).value] + Values(text[1..])
  }

  /** The first, second and third byte of a group of values. */
  function Byte1(s0: int, s1: int): byte
    requires 0 <= s0 < 64 && 0 <= s1 < 64
  {
    s0 * 4 + s1 / 16
  }

  function Byte2(s1: int, s2: int): byte
    requires 0 <= s1 < 64 && 0 <= s2 < 64
  {
    s1 % 16 * 16 + s2 / 4
  }

  function Byte3(s2: int, s3: int): byte
    requires 0 <= s2 < 64 && 0 <= s3 < 64
  {
    s2 % 4 * 64 + s3
  }

  /** Four values to three bytes; bits left over at the end are discarded. */
  function BytesOf(values: seq<sextet>): seq<byte> {
    if |values| < 2 then []
    else if |values| == 2 then [Byte1(values[0], values[1])]
    else if |values| == 3 then [Byte1(values[0], values[1]), Byte2(values[1], values[2])]
    else
      [Byte1(values[0], values[1]), Byte2(values[1], values[2]), Byte3(values[2], values[3])]
      + BytesOf(values[4..])
  }

  /** `atob`; None where it throws. */
  function Atob(text: string): Option<seq<byte>> {
    var data := DropPadding(DropSpaces(text));
    if |data| % 4 == 1 || !InAlphabet(data) then None else Some(BytesOf(Values(data)))
  }

  function Equals(n: nat): (pad: string)
    ensures |pad| == n && forall k :: 0 <= k < n ==> pad[k] == '='
  {
    if n == 0 then "" else "=" + Equals(n - 1)
  }

  function Decode(value: string): Option<seq<byte>> {
    var base64 := MapText(FromUrl, value);
    Atob(base64 + Equals((4 - |base64| % 4) % 4))
  }

  // ---------------------------------------------------------------- the six-bit view

  /** The values of an encoding, without its padding. */
  function Sextets(bytes: seq<byte>): seq<sextet> {
    if bytes == [] then []
    else if |bytes| == 1 then [Value1(bytes[0]), Value2(bytes[0], 0)]
    else if |bytes| == 2 then [Value1(bytes[0]), Value2(bytes[0], bytes[1]), Value3(bytes[1], 0)]
    else
      [Value1(bytes[0]), Value2(bytes[0], bytes[1]), Value3(bytes[1], bytes[2]), Value4(bytes[2])]
      + Sextets(bytes[3..])
  }

  function StdText(values: seq<sextet>): (text: string)
    ensures |text| == |values| && forall k :: 0 <= k < |values| ==> text[k] == StdChar(values[k])
  {
    if values == [] then "" else [StdChar(values[0])] + StdText(values[1..])
  }

  function UrlText(values: seq<sextet>): (text: string)
    ensures |text| == |values| && forall k :: 0 <= k < |values| ==> text[k] == ToUrl(StdChar(values[k]))
  {
    if values == [] then "" else [ToUrl(StdChar(values[0]))] + UrlText(values[1..])
  }

  lemma GroupRoundTrip(b0: byte, b1: byte, b2: byte)
    ensures Byte1(Value1(b0), Value2(b0, b1)) == b0
    ensures Byte2(Value2(b0, b1), Value3(b1, b2)) == b1
    ensures Byte3(Value3(b1, b2), Value4(b2)) == b2
  {
  }

  lemma {:induction false} SextetsRoundTrip(bytes: seq<byte>)
    ensures BytesOf(Sextets(bytes)) == bytes
  {
    hide Value1, Value2, Value3, Value4, Byte1, Byte2, Byte3;
    if bytes != [] {
      GroupRoundTrip(bytes[0], if |bytes| > 1 then bytes[1] else 0, if |bytes| > 2 then bytes[2] else 0);
    }
    if |bytes| >= 3 {
      SextetsRoundTrip(bytes[3..]);
      var values := Sextets(bytes);
      assert values[4..] == Sextets(bytes[3..]);
      assert bytes == [bytes[0], bytes[1], bytes[2]] + bytes[3..];
    }
  }

  lemma {:induction false} SextetsLength(bytes: seq<byte>)
    ensures |Sextets(bytes)| == (4 * |bytes| + 2) / 3
    ensures |Sextets(bytes)| % 4 != 1
  {
    hide Value1, Value2, Value3, Value4;
    if |bytes| >= 3 { SextetsLength(bytes[3..]); }
  }

  function PaddingOf(n: nat): nat {
    (3 - n % 3) % 3
  }

  /** Encoding is choosing characters for the values, and padding. */
  lemma {:induction false} BtoaIsSextets(bytes: seq<byte>)
    ensures Btoa(bytes) == StdText(Sextets(bytes)) + Equals(PaddingOf(|bytes|))
  {
    hide StdChar, Value1, Value2, Value3, Value4, StdText, Equals;
    EqualsOf(PaddingOf(|bytes|));
    if bytes == [] {
      StdTextOfFour(0, 0, 0, 0);
    } else if |bytes| == 1 {
      StdTextOfFour(Value1(bytes[0]), Value2(bytes[0], 0), 0, 0);
    } else if |bytes| == 2 {
      StdTextOfFour(Value1(bytes[0]), Value2(bytes[0], bytes[1]), Value3(bytes[1], 0), 0);
    } else {
      BtoaIsSextets(bytes[3..]);
      var quad := [Value1(bytes[0]), Value2(bytes[0], bytes[1]), Value3(bytes[1], bytes[2]), Value4(bytes[2])];
      var rest := Sextets(bytes[3..]);
      StdTextOfFour(quad[0], quad[1], quad[2], quad[3]);
      StdTextAppend(quad, rest);
      assert Sextets(bytes) == quad + rest;
      Associative(StdText(quad), StdText(rest), Equals(PaddingOf(|bytes|)));
    }
  }

  lemma EqualsOf(n: nat)
    requires n <= 2
    ensures Equals(n) == if n == 0 then "" else if n == 1 then "=" else "=="
  {
  }

  lemma StdTextOfFour(a: sextet, b: sextet, c: sextet, d: sextet)
    ensures StdText([]) == ""
    ensures StdText([a, b]) == [StdChar(a), StdChar(b)]
    ensures StdText([a, b, c]) == [StdChar(a), StdChar(b), StdChar(c)]
    ensures StdText([a, b, c, d]) == [StdChar(a), StdChar(b), StdChar(c), StdChar(d)]
  {
    hide StdChar;
  }

  lemma StdTextAppend(x: seq<sextet>, y: seq<sextet>)
    ensures StdText(x + y) == StdText(x) + StdText(y)
  {
    hide StdChar;
  }

  lemma {:induction false} StripEquals(text: string, n: nat)
    requires text == "" || text[|text| - 1] != '='
    ensures StripPadding(text + Equals(n)) == text
  {
    var padded := text + Equals(n);
    if n == 0 {
      assert padded == text;
    } else {
      StripEquals(text, n - 1);
      assert padded[|padded| - 1] == '=';
      assert padded[..|padded| - 1] == text + Equals(n - 1);
    }
  }

  /** What an encoding is: its six-bit values in the URL-safe alphabet, nothing else. */
  lemma EncodeIsUrlText(bytes: seq<byte>)
    ensures Encode(bytes) == UrlText(Sextets(bytes))
  {
    var values := Sextets(bytes);
    BtoaIsSextets(bytes);
    var text := UrlText(values);
    forall k | 0 <= k < |text| ensures text[k] != '=' { CharsRoundTrip(values[k]); }
    assert MapText(ToUrl, Btoa(bytes)) == text + Equals(PaddingOf(|bytes|));
    StripEquals(text, PaddingOf(|bytes|));
  }

  lemma {:induction false} NoSpaces(text: string)
    requires forall k :: 0 <= k < |text| ==> !AsciiSpace(text[k])
    ensures DropSpaces(text) == text
  {
    if text != "" { NoSpaces(text[1..]); }
  }

  lemma {:induction false} ValuesOfStdText(values: seq<sextet>)
    ensures InAlphabet(StdText(values)) && Values(StdText(values)) == values
  {
    forall k | 0 <= k < |values| ensures CharValue(StdText(values)[k]) == Some(values[k]) { CharsRoundTrip(values[k]); }
    if values != [] {
      ValuesOfStdText(values[1..]);
      assert StdText(values)[1..] == StdText(values[1..]);
    }
  }

  lemma DropEquals(text: string, n: nat)
    requires n == (4 - |text| % 4) % 4 && |text| % 4 != 1
    requires text == "" || text[|text| - 1] != '='
    ensures DropPadding(text + Equals(n)) == text
  {
    hide Equals;
    EqualsOf(n);
    if n == 0 {
      assert text + "" == text;
      UnpadsNone(text);
    } else if n == 1 {
      UnpadsOne(text);
    } else {
      UnpadsTwo(text);
    }
  }

  lemma UnpadsNone(text: string)
    requires text == "" || text[|text| - 1] != '='
    ensures DropPadding(text) == text
  {
  }

  lemma UnpadsOne(text: string)
    requires |text| % 4 == 3 && text[|text| - 1] != '='
    ensures DropPadding(text + "=") == text
  {
    var padded := text + "=";
    assert padded[|padded| - 1] == '=' && padded[|padded| - 2] == text[|text| - 1];
    assert padded[..|padded| - 1] == text;
  }

  lemma UnpadsTwo(text: string)
    requires |text| % 4 == 2
    ensures DropPadding(text + "==") == text
  {
    var padded := text + "==";
    assert padded[|padded| - 1] == '=' && padded[|padded| - 2] == '=';
    assert padded[..|padded| - 2] == text;
  }

  lemma UnpadsAgain(text: string, n: nat)
    requires n == (4 - |text| % 4) % 4 && |text| % 4 != 1
    requires forall k :: 0 <= k < |text| ==> text[k] != '=' && !AsciiSpace(text[k])
    ensures DropPadding(DropSpaces(text + Equals(n))) == text
  {
    hide DropPadding, DropSpaces;
    NoSpaces(text + Equals(n));
    DropEquals(text, n);
  }

  /** `atob` reads back any text of values, however padding completes it. */
  lemma AtobOfStdText(values: seq<sextet>)
    requires |values| % 4 != 1
    ensures var text := StdText(values); Atob(text + Equals((4 - |text| % 4) % 4)) == Some(BytesOf(values))
  {
    hide StdChar, CharValue, BytesOf, DropPadding, DropSpaces, AsciiSpace, StdText, InAlphabet, Values, Equals;
    var text := StdText(values);
    forall k | 0 <= k < |values| ensures text[k] != '=' && !AsciiSpace(text[k]) {
      CharsRoundTrip(values[k]);
      NotSpace(values[k]);
    }
    UnpadsAgain(text, (4 - |text| % 4) % 4);
    ValuesOfStdText(values);
  }

  lemma NotSpace(s: sextet)
    ensures !AsciiSpace(StdChar(s))
  {
  }

  lemma FromUrlText(values: seq<sextet>)
    ensures MapText(FromUrl, UrlText(values)) == StdText(values)
  {
    hide StdChar, ToUrl, FromUrl;
    var mapped := MapText(FromUrl, UrlText(values));
    forall k | 0 <= k < |values| ensures mapped[k] == StdText(values)[k] { CharsRoundTrip(values[k]); }
  }

  /** Decoding restores every byte array from its encoding. */
  lemma DecodeEncode(bytes: seq<byte>)
    ensures Decode(Encode(bytes)) == Some(bytes)
  {
    hide Encode, Atob, BytesOf, Sextets;
    EncodeIsUrlText(bytes);
    FromUrlText(Sextets(bytes));
    SextetsRoundTrip(bytes);
    SextetsLength(bytes);
    AtobOfStdText(Sextets(bytes));
  }

  /** An encoding needs no quoting in a URL or a cookie, and has four characters for every three bytes, rounded up. */
  lemma EncodeIsUrlSafe(bytes: seq<byte>)
    ensures forall k :: 0 <= k < |Encode(bytes)| ==> UrlSafe(Encode(bytes)[k])
    ensures |Encode(bytes)| == (4 * |bytes| + 2) / 3
  {
    EncodeIsUrlText(bytes);
    SextetsLength(bytes);
    forall k | 0 <= k < |Encode(bytes)| ensures UrlSafe(Encode(bytes)[k]) { CharsRoundTrip(Sextets(bytes)[k]); }
  }

  /** A 32-byte token is 43 characters, which RFC 7636 section 4.1 admits as a code verifier. */
  lemma RandomTokenLength(bytes: seq<byte>)
    requires |bytes| == 32
    ensures |Encode(bytes)| == 43 && 43 <= |Encode(bytes)| <= 128
  {
    EncodeIsUrlSafe(bytes);
  }

  /** Three of the vectors of RFC 4648 section 10, without their padding: f, fo and foo. */
  lemma RfcVectors(f: byte, o: byte)
    requires f == 102 && o == 111
    ensures Encode([f]) == "Zg" && Encode([f, o]) == "Zm8" && Encode([f, o, o]) == "Zm9v"
  {
    hide Encode, StdChar, ToUrl, UrlText, Sextets;
    VectorSextets(f, o);
    VectorChars();
    EncodeIsUrlText([f]);
    EncodeIsUrlText([f, o]);
    EncodeIsUrlText([f, o, o]);
  }

  lemma VectorSextets(f: byte, o: byte)
    requires f == 102 && o == 111
    ensures Sextets([f]) == [25, 32] && Sextets([f, o]) == [25, 38, 60] && Sextets([f, o, o]) == [25, 38, 61, 47]
  {
    assert [f, o, o][3..] == [];
  }

  lemma VectorChars()
    ensures ToUrl(StdChar(25)) == 'Z' && ToUrl(StdChar(32)) == 'g' && ToUrl(StdChar(38)) == 'm'
    ensures ToUrl(StdChar(60)) == '8' && ToUrl(StdChar(61)) == '9' && ToUrl(StdChar(47)) == 'v'
  {
  }

  /** Different byte arrays have different encodings. */
  lemma EncodeIsInjective(a: seq<byte>, b: seq<byte>)
    ensures Encode(a) == Encode(b) <==> a == b
  {
    DecodeEncode(a);
    DecodeEncode(b);
  }

  predicate AllUrlSafe(text: string) {
    forall k :: 0 <= k < |text| ==> UrlSafe(text[k])
  }

  lemma UrlCharRoundTrip(c: char)
    requires UrlSafe(c)
    ensures CharValue(FromUrl(c)).Some? && ToUrl(StdChar(CharValue(FromUrl(c)).value)) == c
  {
  }

  /** The values a URL-safe text stands for. */
  function UrlValues(text: string): (values: seq<sextet>)
    requires AllUrlSafe(text)
    ensures |values| == |text|
    ensures forall k :: 0 <= k < |text| ==> CharValue(FromUrl(text[k])) == Some(values[k])
  {
    seq(|text|, k requires 0 <= k < |text| =>
      UrlCharRoundTrip(text[k]);
      CharValue(FromUrl(text[k])).value)
  }

  lemma UrlTextOfValues(text: string)
    requires AllUrlSafe(text)
    ensures UrlText(UrlValues(text)) == text
  {
    hide CharValue, StdChar, ToUrl, FromUrl, UrlSafe;
    forall k | 0 <= k < |text| ensures UrlText(UrlValues(text))[k] == text[k] { UrlCharRoundTrip(text[k]); }
  }

  /** The bits a last, incomplete group leaves over are zero. */
  predicate NothingLeftOver(values: seq<sextet>) {
    && (|values| % 4 == 2 ==> values[|values| - 1] % 16 == 0)
    && (|values| % 4 == 3 ==> values[|values| - 1] % 4 == 0)
  }

  lemma {:induction false} SextetsLeaveNothing(bytes: seq<byte>)
    ensures NothingLeftOver(Sextets(bytes))
  {
    hide Value1, Value2, Value3, Value4;
    if |bytes| >= 3 {
      SextetsLeaveNothing(bytes[3..]);
      var rest := Sextets(bytes[3..]);
      var values := Sextets(bytes);
      assert |values| == |rest| + 4 && (rest != [] ==> values[|values| - 1] == rest[|rest| - 1]);
    } else if bytes != [] {
      LastValues(bytes[0], bytes[|bytes| - 1]);
    }
  }

  /** The last value of a group of one byte, and of two. */
  lemma LastValues(b0: byte, b1: byte)
    ensures Value2(b0, 0) % 16 == 0 && Value3(b1, 0) % 4 == 0
  {
  }

  lemma ValuesRoundTrip(s0: sextet, s1: sextet, s2: sextet, s3: sextet)
    ensures Value1(Byte1(s0, s1)) == s0
    ensures Value2(Byte1(s0, s1), Byte2(s1, s2)) == s1
    ensures Value3(Byte2(s1, s2), Byte3(s2, s3)) == s2
    ensures Value4(Byte3(s2, s3)) == s3
    ensures s1 % 16 == 0 ==> Value2(Byte1(s0, s1), 0) == s1
    ensures s2 % 4 == 0 ==> Value3(Byte2(s1, s2), 0) == s2
  {
  }

  /** Values come back from their bytes when their number is possible and nothing is left over. */
  lemma {:induction false} BytesRoundTrip(values: seq<sextet>)
    requires |values| % 4 != 1 && NothingLeftOver(values)
    ensures Sextets(BytesOf(values)) == values
  {
    hide Value1, Value2, Value3, Value4, Byte1, Byte2, Byte3;
    if values != [] {
      ValuesRoundTrip(values[0], values[1],
                      if |values| > 2 then values[2] else 0, if |values| > 3 then values[3] else 0);
    }
    if |values| >= 4 {
      BytesRoundTrip(values[4..]);
      var bytes := BytesOf(values);
      assert bytes[3..] == BytesOf(values[4..]);
      assert values == [values[0], values[1], values[2], values[3]] + values[4..];
    }
  }

  /** Whether encoding what a text decodes to gives the text back. */
  predicate IsEncoding(text: string) {
    Decode(text).Some? && Encode(Decode(text).value) == text
  }

  lemma DecodeUrlText(values: seq<sextet>)
    requires |values| % 4 != 1
    ensures Decode(UrlText(values)) == Some(BytesOf(values))
  {
    hide *;
    FromUrlText(values);
    AtobOfStdText(values);
    DecodeMeans(UrlText(values), StdText(values));
  }

  lemma DecodeMeans(value: string, base64: string)
    requires base64 == MapText(FromUrl, value)
    ensures Decode(value) == Atob(base64 + Equals((4 - |base64| % 4) % 4))
  {
    hide Atob, MapText, Equals;
  }

  /** A text is an encoding exactly when it is URL-safe, of a length some encoding has, and ends in no stray bits. */
  lemma EncodingsAre(text: string)
    ensures IsEncoding(text) <==> AllUrlSafe(text) && |text| % 4 != 1 && NothingLeftOver(UrlValues(text))
  {
    hide Decode, Encode, BytesOf, Sextets, NothingLeftOver, UrlSafe;
    if IsEncoding(text) {
      var bytes := Decode(text).value;
      EncodeIsUrlSafe(bytes);
      EncodeIsUrlText(bytes);
      SextetsLength(bytes);
      SextetsLeaveNothing(bytes);
      SameValues(text, Sextets(bytes));
    }
    if AllUrlSafe(text) && |text| % 4 != 1 && NothingLeftOver(UrlValues(text)) {
      var values := UrlValues(text);
      UrlTextOfValues(text);
      DecodeUrlText(values);
      BytesRoundTrip(values);
      EncodeIsUrlText(BytesOf(values));
    }
  }

  lemma SameValues(text: string, values: seq<sextet>)
    requires AllUrlSafe(text) && text == UrlText(values)
    ensures UrlValues(text) == values
  {
    hide StdChar, ToUrl, FromUrl, UrlSafe, CharValue;
    forall k | 0 <= k < |values| ensures UrlValues(text)[k] == values[k] { CharsRoundTrip(values[k]); }
  }

  /** The discarded bits make decoding many-to-one: not every text is an encoding. */
  lemma DecodeIsNotInjective()
    ensures Decode("QQ") == Decode("QR") == Some([65])
  {
    hide Decode;
    DecodeTwo('Q', 'Q');
    DecodeTwo('Q', 'R');
  }

  lemma DecodeTwo(c: char, d: char)
    requires 'A' <= c <= 'Z' && 'A' <= d <= 'Z'
    ensures Decode([c, d]) == Some([Byte1(CharValue(c).value, CharValue(d).value)])
  {
    var text := [c, d];
    assert MapText(FromUrl, text) == text;
    NoSpaces(text + Equals(2));
    DropEquals(text, 2);
    assert Values(text) == [CharValue(c).value] + Values(text[1..]);
    assert text[1..] == [d] && Values([d]) == [CharValue(d).value] + Values([d][1..]);
    assert [d][1..] == "";
  }

  // ---------------------------------------------------------------- the loops

  /** A string whose characters stand for bytes, as `btoa` takes and `atob` gives. */
  predicate IsBinary(text: string) {
    forall k :: 0 <= k < |text| ==> text[k] as int < 256
  }

  function Codes(text: string): seq<byte>
    requires IsBinary(text)
  {
    seq(|text|, k requires 0 <= k < |text| => text[k] as int)
  }

  function Binary(bytes: seq<byte>): (text: string)
    ensures IsBinary(text) && Codes(text) == bytes
  {
    seq(|bytes|, k requires 0 <= k < |bytes| => bytes[k] as char)
  }

  /** `base64UrlEncode`: the bytes become characters one by one, and `btoa` takes them from there. */
  method Base64UrlEncode(bytes: array<byte>) returns (text: string)
    ensures text == Encode(bytes[..])
  {
    var binary := "";
    for i := 0 to bytes.Length
      invariant |binary| == i && IsBinary(binary)
      invariant forall k :: 0 <= k < i ==> binary[k] as int == bytes[k]
    {
      binary := binary + [bytes[i] as char];
    }
    assert Codes(binary) == bytes[..];
    text := StripPadding(MapText(ToUrl, Btoa(Codes(binary))));
  }

  /** `base64UrlDecode`; null where `atob` throws. */
  method Base64UrlDecode(value: string) returns (bytes: array?<byte>)
    ensures bytes == null <==> Decode(value).None?
    ensures bytes != null ==> fresh(bytes) && Decode(value) == Some(bytes[..])
  {
    hide Atob, Equals, FromUrl;
    var base64 := MapText(FromUrl, value);
    var padded := base64 + Equals((4 - |base64| % 4) % 4);
    var decoded := Atob(padded);
    if decoded.None? { return null; }
    var binary := Binary(decoded.value);
    bytes := new byte[|binary|](_ => 0);
    for i := 0 to |binary|
      invariant forall k :: 0 <= k < i ==> bytes[k] == Codes(binary)[k]
    {
      bytes[i] := binary[i] as int;
    }
    assert bytes[..] == Codes(binary);
  }

  // ---------------------------------------------------------------- the nonce comparison

  /** A JavaScript string, as its UTF-16 code units. */
  type CodeUnits = seq<bv16>

  /** `statesMatch`: the whole string is compared, and the empty one never matches. */
  method StatesMatch(expected: CodeUnits, returned: Option<CodeUnits>) returns (match': bool)
    ensures match' <==> expected != [] && returned == Some(expected)
  {
    if |expected| == 0 || returned.None? || |returned.value| == 0 || |expected| != |returned.value| {
      return false;
    }
    var difference: bv16 := 0;
    for i := 0 to |expected|
      invariant difference == 0 <==> forall k :: 0 <= k < i ==> expected[k] == returned.value[k]
    {
      XorIsZero(difference, expected[i], returned.value[i]);
      difference := difference | (expected[i] ^ returned.value[i]);
    }
    match' := difference == 0;
    assert match' ==> returned.value == expected;
  }

  lemma XorIsZero(d: bv16, x: bv16, y: bv16)
    ensures d | (x ^ y) == 0 <==> d == 0 && x == y
  {
  }
}
