/**
 The text of a chunk's size line: byte strings are UTF-8 text exactly if they encode code points, trimming bytes
 is trimming characters, and a size is read exactly from hexadecimal digits.
 */
module GatewayText {
  import opened Results
  import opened GatewayChunked
  import Text

  /** A Unicode scalar value (definition D76 of the Unicode Standard). */
  type Scalar = n: nat | n < 0x110000 && !(0xD800 <= n < 0xE000)

  // ---------------------------------------------------------------- UTF-8

  /** The bytes of one scalar value (section 3 of RFC 3629). */
  function Encode(c: Scalar): (s: Bytes)
    ensures s != []
  {
    if c < 0x80 then [c]
    else if c < 0x800 then [0xC0 + c / 64, 0x80 + c % 64]
    else if c < 0x10000 then [0xE0 + c / 4096, 0x80 + c / 64 % 64, 0x80 + c % 64]
    else [0xF0 + c / 262144, 0x80 + c / 4096 % 64, 0x80 + c / 64 % 64, 0x80 + c % 64]
  }

  function EncodeAll(cs: seq<Scalar>): Bytes {
    if cs == [] then [] else Encode(cs[0]) + EncodeAll(cs[1..])
  }

  /** The bytes that one scalar value can have (section 4 of RFC 3629). */
  ghost predicate OneScalar(e: Bytes) {
    || (|e| == 1 && e[0] < 0x80)
    || (|e| == 2 && 0xC2 <= e[0] <= 0xDF && Continuation(e[1]))
    || (|e| == 3 && 0xE0 <= e[0] <= 0xEF && Continuation(e[1]) && Continuation(e[2])
        && (e[0] == 0xE0 ==> e[1] >= 0xA0) && (e[0] == 0xED ==> e[1] <= 0x9F))
    || (|e| == 4 && 0xF0 <= e[0] <= 0xF4 && Continuation(e[1]) && Continuation(e[2]) && Continuation(e[3])
        && (e[0] == 0xF0 ==> e[1] >= 0x90) && (e[0] == 0xF4 ==> e[1] <= 0x8F))
  }

  lemma EncodedScalar(c: Scalar)
    ensures OneScalar(Encode(c))
  {
  }

  lemma ScalarLength(e: Bytes, rest: Bytes)
    requires OneScalar(e)
    ensures SequenceLength(e + rest) == |e|
  {
    var s := e + rest;
    assert forall i :: 0 <= i < |e| ==> s[i] == e[i];
  }

  lemma EncodedLength(c: Scalar, rest: Bytes)
    ensures SequenceLength(Encode(c) + rest) == |Encode(c)|
  {
    EncodedScalar(c);
    ScalarLength(Encode(c), rest);
  }

  lemma {:induction false} EncodedIsValid(cs: seq<Scalar>)
    ensures ValidUtf8(EncodeAll(cs))
    decreases |cs|
  {
    if cs != [] {
      var first, rest := Encode(cs[0]), EncodeAll(cs[1..]);
      EncodedIsValid(cs[1..]);
      EncodedLength(cs[0], rest);
      assert (first + rest)[|first|..] == rest;
    }
  }

  lemma TwoBytes(a: Byte, b: Byte) returns (c: Scalar)
    requires 0xC2 <= a <= 0xDF && Continuation(b)
    ensures Encode(c) == [a, b]
  {
    c := (a - 0xC0) * 64 + (b - 0x80);
  }

  lemma ThreeBytes(x: Byte, y: Byte, z: Byte) returns (c: Scalar)
    requires Continuation(y) && Continuation(z) && 0xE0 <= x <= 0xEF
    requires (x == 0xE0 ==> y >= 0xA0) && (x == 0xED ==> y <= 0x9F)
    ensures Encode(c) == [x, y, z]
  {
    c := (x - 0xE0) * 4096 + (y - 0x80) * 64 + (z - 0x80);
    Places(0, x - 0xE0, y - 0x80, z - 0x80);
  }

  lemma FourBytes(w: Byte, x: Byte, y: Byte, z: Byte) returns (c: Scalar)
    requires Continuation(x) && Continuation(y) && Continuation(z) && 0xF0 <= w <= 0xF4
    requires (w == 0xF0 ==> x >= 0x90) && (w == 0xF4 ==> x <= 0x8F)
    ensures Encode(c) == [w, x, y, z]
  {
    c := (w - 0xF0) * 262144 + (x - 0x80) * 4096 + (y - 0x80) * 64 + (z - 0x80);
    Places(w - 0xF0, x - 0x80, y - 0x80, z - 0x80);
  }

  /** The places of a number in base 64. */
  lemma Places(a: nat, b: nat, c: nat, d: nat)
    requires b < 64 && c < 64 && d < 64
    ensures var n := a * 262144 + b * 4096 + c * 64 + d;
      && n / 262144 == a && n / 4096 == a * 64 + b && n / 4096 % 64 == b
      && n / 64 % 64 == c && n % 64 == d
  {
    var n := a * 262144 + b * 4096 + c * 64 + d;
    LastPlace(n, a * 4096 + b * 64 + c, d);
    LastPlace(a * 4096 + b * 64 + c, a * 64 + b, c);
    LastPlace(a * 64 + b, a, b);
    TwoPlaces(n);
    TwoPlaces(n / 64);
  }

  lemma LastPlace(n: nat, q: nat, r: nat)
    requires n == 64 * q + r && r < 64
    ensures n / 64 == q && n % 64 == r
  {
  }

  lemma TwoPlaces(n: nat)
    ensures n / 4096 == n / 64 / 64 && n / 262144 == n / 64 / 4096
  {
  }

  lemma FirstScalar(s: Bytes) returns (c: Scalar)
    requires SequenceLength(s) > 0
    ensures s[..SequenceLength(s)] == Encode(c)
  {
    var n := SequenceLength(s);
    if n == 1 {
      c := s[0];
    } else if n == 2 {
      c := TwoBytes(s[0], s[1]);
    } else if n == 3 {
      c := ThreeBytes(s[0], s[1], s[2]);
    } else {
      c := FourBytes(s[0], s[1], s[2], s[3]);
    }
  }

  lemma EncodeFirst(c: Scalar, more: seq<Scalar>)
    ensures EncodeAll([c] + more) == Encode(c) + EncodeAll(more)
  {
    assert ([c] + more)[1..] == more;
  }

  lemma {:induction false} ValidIsEncoded(s: Bytes) returns (cs: seq<Scalar>)
    requires ValidUtf8(s)
    ensures EncodeAll(cs) == s
    decreases |s|
  {
    if s == [] {
      cs := [];
    } else {
      ValidParts(s);
      var n := SequenceLength(s);
      var c := FirstScalar(s);
      var more := ValidIsEncoded(s[n..]);
      cs := [c] + more;
      EncodeFirst(c, more);
      JoinedAt(s, n);
    }
  }

  lemma ValidParts(s: Bytes)
    requires ValidUtf8(s) && s != []
    ensures SequenceLength(s) > 0 && ValidUtf8(s[SequenceLength(s)..])
  {
  }

  lemma JoinedAt(s: Bytes, n: nat)
    requires n <= |s|
    ensures s[..n] + s[n..] == s
  {
  }

  /** A byte string passes as UTF-8 exactly when it is the encoding of some scalar values. */
  lemma Utf8Exactly(s: Bytes)
    ensures ValidUtf8(s) <==> exists cs :: EncodeAll(cs) == s
  {
    if ValidUtf8(s) {
      var cs := ValidIsEncoded(s);
    } else {
      forall cs ensures EncodeAll(cs) != s {
        EncodedIsValid(cs);
      }
    }
  }

  // ---------------------------------------------------------------- trimming

  predicate White(c: Scalar) {
    Text.IsWhitespace(c as char)
  }

  function StripStart(cs: seq<Scalar>): seq<Scalar> {
    if cs != [] && White(cs[0]) then StripStart(cs[1..]) else cs
  }

  function StripEnd(cs: seq<Scalar>): seq<Scalar> {
    if cs != [] && White(cs[|cs| - 1]) then StripEnd(cs[..|cs| - 1]) else cs
  }

  lemma WhiteBytes(c: Scalar)
    ensures White(c) <==> Space(Encode(c))
  {
  }

  ghost predicate Space(e: Bytes) {
    (|e| == 1 && AsciiSpace(e[0])) || WideSpace(e)
  }

  /** White space at either end is recognised as a whole, whatever stands beside it. */
  lemma FrontSpace(e: Bytes, rest: Bytes)
    requires OneScalar(e)
    ensures TrimStart(e + rest) == if Space(e) then TrimStart(rest) else e + rest
  {
    var s, n := e + rest, |e|;
    assert s[..n] == e && s[n..] == rest && s[0] == e[0];
  }

  /** The last bytes of a text say which white space it ends in. */
  lemma EndsInOne(front: Bytes, e: Bytes)
    requires OneScalar(e)
    ensures AsciiSpace((front + e)[|front + e| - 1]) <==> |e| == 1 && AsciiSpace(e[0])
  {
    assert (front + e)[|front + e| - 1] == e[|e| - 1];
  }

  ghost predicate EndsInTwoBytes(s: Bytes) {
    |s| >= 2 && WideSpace(s[|s| - 2..])
  }

  ghost predicate EndsInThreeBytes(s: Bytes) {
    |s| >= 3 && WideSpace(s[|s| - 3..])
  }

  /** White space of two or three bytes, by its bytes. */
  ghost predicate Wide2(a: Byte, b: Byte) {
    a == 0xC2 && (b == 0x85 || b == 0xA0)
  }

  ghost predicate Wide3(a: Byte, b: Byte, c: Byte) {
    || (a == 0xE1 && b == 0x9A && c == 0x80)
    || (a == 0xE2 && b == 0x80 && (0x80 <= c <= 0x8A || c == 0xA8 || c == 0xA9 || c == 0xAF))
    || (a == 0xE2 && b == 0x81 && c == 0x9F)
    || (a == 0xE3 && b == 0x80 && c == 0x80)
  }

  lemma WideByBytes(s: Bytes)
    ensures WideSpace(s) <==> (|s| == 2 && Wide2(s[0], s[1])) || (|s| == 3 && Wide3(s[0], s[1], s[2]))
  {
  }

  lemma EndsInTwo(s: Bytes)
    ensures EndsInTwoBytes(s) <==> |s| >= 2 && Wide2(s[|s| - 2], s[|s| - 1])
  {
    if |s| >= 2 {
      WideByBytes(s[|s| - 2..]);
    }
  }

  lemma EndsInThree(s: Bytes)
    ensures EndsInThreeBytes(s) <==> |s| >= 3 && Wide3(s[|s| - 3], s[|s| - 2], s[|s| - 1])
  {
    if |s| >= 3 {
      WideByBytes(s[|s| - 3..]);
    }
  }

  /** One step of trimming at the end. */
  lemma TrimEndStep(s: Bytes)
    requires s != []
    ensures TrimEnd(s)
         == if AsciiSpace(s[|s| - 1]) then TrimEnd(s[..|s| - 1])
            else if EndsInTwoBytes(s) then TrimEnd(s[..|s| - 2])
            else if EndsInThreeBytes(s) then TrimEnd(s[..|s| - 3])
            else s
  {
  }

  /** The last bytes of a text are those of `e`, up to three of them. */
  ghost predicate EndsLike(s: Bytes, e: Bytes) {
    && 0 < |e| <= |s| && s[|s| - 1] == e[|e| - 1]
    && (|e| >= 2 ==> s[|s| - 2] == e[|e| - 2]) && (|e| >= 3 ==> s[|s| - 3] == e[|e| - 3])
  }

  lemma JoinEndsLike(front: Bytes, e: Bytes)
    requires e != []
    ensures EndsLike(front + e, e)
  {
  }

  lemma TwoEnd(e: Bytes, s: Bytes)
    requires OneScalar(e) && EndsLike(s, e)
    ensures EndsInTwoBytes(s) <==> |e| == 2 && WideSpace(e)
  {
    EndsInTwo(s);
    WideByBytes(e);
  }

  lemma ThreeEnd(e: Bytes, s: Bytes)
    requires OneScalar(e) && EndsLike(s, e)
    ensures EndsInThreeBytes(s) <==> |e| == 3 && WideSpace(e)
  {
    EndsInThree(s);
    WideByBytes(e);
  }

  lemma WideIsLong(e: Bytes)
    requires WideSpace(e)
    ensures |e| == 2 || |e| == 3
  {
  }

  lemma BackSpace(front: Bytes, e: Bytes)
    requires OneScalar(e)
    ensures TrimEnd(front + e) == if Space(e) then TrimEnd(front) else front + e
  {
    var s := front + e;
    TrimEndStep(s);
    EndsInOne(front, e);
    JoinEndsLike(front, e);
    TwoEnd(e, s);
    ThreeEnd(e, s);
    assert s[..|s| - |e|] == front;
    if WideSpace(e) {
      WideIsLong(e);
    }
  }

  lemma FrontTrimmed(c: Scalar, rest: Bytes)
    ensures TrimStart(Encode(c) + rest) == if White(c) then TrimStart(rest) else Encode(c) + rest
  {
    WhiteBytes(c);
    EncodedScalar(c);
    FrontSpace(Encode(c), rest);
  }

  lemma BackTrimmed(front: Bytes, c: Scalar)
    ensures TrimEnd(front + Encode(c)) == if White(c) then TrimEnd(front) else front + Encode(c)
  {
    WhiteBytes(c);
    EncodedScalar(c);
    BackSpace(front, Encode(c));
  }

  lemma {:induction false} TrimStartByCharacters(cs: seq<Scalar>)
    ensures TrimStart(EncodeAll(cs)) == EncodeAll(StripStart(cs))
    decreases |cs|
  {
    if cs != [] {
      FrontTrimmed(cs[0], EncodeAll(cs[1..]));
      if White(cs[0]) {
        TrimStartByCharacters(cs[1..]);
      }
    }
  }

  lemma {:induction false} EncodeLast(cs: seq<Scalar>, c: Scalar)
    ensures EncodeAll(cs + [c]) == EncodeAll(cs) + Encode(c)
    decreases |cs|
  {
    if cs == [] {
      assert [] + [c] == [c] && [c][1..] == [];
    } else {
      assert (cs + [c])[1..] == cs[1..] + [c];
      EncodeLast(cs[1..], c);
      assert Encode(cs[0]) + (EncodeAll(cs[1..]) + Encode(c)) == EncodeAll(cs) + Encode(c);
    }
  }

  lemma {:induction false} TrimEndByCharacters(cs: seq<Scalar>)
    ensures TrimEnd(EncodeAll(cs)) == EncodeAll(StripEnd(cs))
    decreases |cs|
  {
    if cs != [] {
      var n := |cs| - 1;
      assert cs == cs[..n] + [cs[n]];
      EncodeLast(cs[..n], cs[n]);
      BackTrimmed(EncodeAll(cs[..n]), cs[n]);
      if White(cs[n]) {
        TrimEndByCharacters(cs[..n]);
      }
    }
  }

  /** Trimming the bytes of a text removes the white-space characters at both ends and nothing else. */
  lemma TrimIsByCharacters(cs: seq<Scalar>)
    ensures TrimEnd(TrimStart(EncodeAll(cs))) == EncodeAll(StripEnd(StripStart(cs)))
  {
    TrimStartByCharacters(cs);
    TrimEndByCharacters(StripStart(cs));
  }

  // ---------------------------------------------------------------- sizes

  /** The value of a hexadecimal digit, of either case. */
  lemma HexDigitExactly(b: Byte)
    ensures 48 <= b <= 57 ==> HexDigitValue(b) == Some(b - 48)
    ensures 65 <= b <= 70 ==> HexDigitValue(b) == Some(b - 65 + 10)
    ensures 97 <= b <= 102 ==> HexDigitValue(b) == Some(b - 97 + 10)
    ensures HexDigitValue(b).Some? ==> 48 <= b <= 57 || 65 <= b <= 70 || 97 <= b <= 102
  {
  }

  /** What stands before the first semicolon, or everything if there is none. */
  lemma {:induction false} ExtensionsCut(s: Bytes, extension: Bytes)
    requires 59 !in s && (extension == [] || extension[0] == 59)
    ensures BeforeSemicolon(s + extension) == s
    decreases |s|
  {
    if s == [] {
      assert s + extension == extension;
    } else {
      assert (s + extension)[1..] == s[1..] + extension;
      ExtensionsCut(s[1..], extension);
    }
  }

  /** The digits stand for this number in base 16, most significant first. */
  predicate Denotes(digits: Bytes, n: nat) {
    if digits == [] then n == 0
    else
      var low := HexDigitValue(digits[|digits| - 1]);
      low.Some? && n % 16 == low.value && Denotes(digits[..|digits| - 1], n / 16)
  }

  lemma {:induction false} HexValueExactly(digits: Bytes, n: nat)
    ensures HexValue(digits) == Some(n) <==> Denotes(digits, n)
    decreases |digits|
  {
    if digits != [] {
      HexDigitExactly(digits[|digits| - 1]);
      HexValueExactly(digits[..|digits| - 1], n / 16);
    }
  }

  /** A size is read exactly from one or more hexadecimal digits, after an optional plus sign, that stand for a
      number below 2^64. */
  lemma SizeReadExactly(text: Bytes, n: nat)
    ensures ParseHex(text) == Some(n) <==>
      && n < 0x1_0000_0000_0000_0000
      && ((text != [] && Denotes(text, n)) || (|text| > 1 && text[0] == 43 && Denotes(text[1..], n)))
  {
    HexValueExactly(text, n);
    if text != [] {
      HexValueExactly(text[1..], n);
      if text[0] == 43 {
        SignIsNoDigit(text, n);
      }
    }
  }

  lemma {:induction false} SignIsNoDigit(text: Bytes, n: nat)
    requires text != [] && text[0] == 43
    ensures !Denotes(text, n)
    decreases |text|
  {
    if |text| > 1 {
      SignIsNoDigit(text[..|text| - 1], n / 16);
    }
  }
}
