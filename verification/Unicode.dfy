/**
 Text as Unicode: the byte predicates of module Bytes against the encoding of code points of section 3
 of RFC 3629, and white space by code point.
 */
module Unicode {
  import opened Bytes

  /** Unicode scalar values: code points without the surrogates. */
  predicate IsScalar(c: nat) {
    c < 0xD800 || 0xE000 <= c <= 0x10FFFF
  }

  type Scalar = c: nat | IsScalar(c)

  /** The UTF-8 encoding of a scalar value. */
  function Encode(c: Scalar): (s: seq<byte>)
    ensures 1 <= |s| <= 4
  {
    var h := c / 64;
    var g := h / 64;
    assert IsScalar(c);
    if c < 0x80 then [c]
    else if c < 0x800 then [0xC0 + h, 0x80 + c % 64]
    else if c < 0x10000 then [0xE0 + g, 0x80 + h % 64, 0x80 + c % 64]
    else [0xF0 + g / 64, 0x80 + g % 64, 0x80 + h % 64, 0x80 + c % 64]
  }

  function EncodeAll(points: seq<Scalar>): seq<byte> {
    if points == [] then [] else Encode(points[0]) + EncodeAll(points[1..])
  }

  /** An encoding is read as one scalar value, whatever follows. */
  lemma EncodedIsRead(c: Scalar, rest: seq<byte>)
    ensures ScalarLength(Encode(c) + rest) == |Encode(c)|
  {
    var s := Encode(c) + rest;
    assert IsScalar(c);
    if c < 0x80 {
      assert s[0] == c;
    } else if c < 0x800 {
      assert s[0] == 0xC0 + c / 64 && s[1] == 0x80 + c % 64;
    } else if c < 0x10000 {
      assert s[0] == 0xE0 + c / 64 / 64 && s[1] == 0x80 + c / 64 % 64 && s[2] == 0x80 + c % 64;
    } else {
      assert s[0] == 0xF0 + c / 64 / 64 / 64 && s[1] == 0x80 + c / 64 / 64 % 64;
      assert s[2] == 0x80 + c / 64 % 64 && s[3] == 0x80 + c % 64;
    }
  }

  /** One more six-bit group. */
  function Join(high: nat, low: nat): (c: nat)
    ensures low < 64 ==> c / 64 == high && c % 64 == low
  {
    64 * high + low
  }

  /** The code point of the first `n` bytes. */
  function Decode(s: seq<byte>, n: nat): (c: nat)
    requires s != [] && n == ScalarLength(s) && n > 0
    ensures IsScalar(c)
  {
    if n == 1 then s[0]
    else if n == 2 then Join(s[0] - 0xC0, s[1] - 0x80)
    else if n == 3 then Join(Join(s[0] - 0xE0, s[1] - 0x80), s[2] - 0x80)
    else Join(Join(Join(s[0] - 0xF0, s[1] - 0x80), s[2] - 0x80), s[3] - 0x80)
  }

  /** The scalar value whose encoding is read. */
  function First(s: seq<byte>): (c: Scalar)
    requires s != [] && ScalarLength(s) > 0
  {
    Decode(s, ScalarLength(s))
  }

  lemma ReadIsEncoded(s: seq<byte>)
    requires s != [] && ScalarLength(s) > 0
    ensures Encode(First(s)) == s[..ScalarLength(s)]
  {
  }

  /** The scalar values of a text. */
  function Points(s: seq<byte>): (points: seq<Scalar>)
    requires Scalars(s)
  {
    if s == [] then [] else [First(s)] + Points(s[ScalarLength(s)..])
  }

  lemma {:induction false} PointsEncode(s: seq<byte>)
    requires Scalars(s)
    ensures EncodeAll(Points(s)) == s
  {
    hide Encode, ScalarLength;
    if s != [] {
      var n := ScalarLength(s);
      ReadIsEncoded(s);
      PointsEncode(s[n..]);
      assert Points(s)[1..] == Points(s[n..]) && s == s[..n] + s[n..];
    }
  }

  lemma {:induction false} EncodingIsText(points: seq<Scalar>)
    ensures Scalars(EncodeAll(points))
  {
    hide Encode, ScalarLength;
    if points != [] {
      var head, rest := Encode(points[0]), EncodeAll(points[1..]);
      EncodedIsRead(points[0], rest);
      EncodingIsText(points[1..]);
      assert (head + rest)[|head|..] == rest;
    }
  }

  /** Text is exactly what encodes a sequence of scalar values. */
  lemma TextExact(s: seq<byte>)
    ensures Utf8(s) <==> exists points: seq<Scalar> :: EncodeAll(points) == s
  {
    hide Utf8, Scalars;
    Utf8IsScalars(s);
    if Utf8(s) {
      PointsEncode(s);
    }
    forall points: seq<Scalar> ensures EncodeAll(points) == s ==> Utf8(s) {
      EncodingIsText(points);
    }
  }

  // ---------------------------------------------------------------- white space

  /** The code points with the White_Space property. */
  predicate White(c: nat) {
    || 9 <= c <= 13 || c == 0x20 || c == 0x85 || c == 0xA0 || c == 0x1680 || 0x2000 <= c <= 0x200A
    || c == 0x2028 || c == 0x2029 || c == 0x202F || c == 0x205F || c == 0x3000
  }

  lemma SpaceIsWhite(c: Scalar, rest: seq<byte>)
    ensures SpaceLength(Encode(c) + rest) == if White(c) then |Encode(c)| else 0
  {
    var s := Encode(c) + rest;
    assert forall i | 0 <= i < |Encode(c)| :: s[i] == Encode(c)[i];
  }

  /** A text is blank exactly when each of its code points is white space. */
  lemma {:induction false} BlankExact(points: seq<Scalar>)
    ensures Blank(EncodeAll(points)) <==> forall i | 0 <= i < |points| :: White(points[i])
  {
    hide Encode, SpaceLength, White;
    if points != [] {
      var head, rest := Encode(points[0]), EncodeAll(points[1..]);
      SpaceIsWhite(points[0], rest);
      BlankExact(points[1..]);
      assert (head + rest)[|head|..] == rest;
      assert forall i | 0 < i < |points| :: points[i] == points[1..][i - 1];
    }
  }

  lemma BlankText(s: Text)
    ensures Scalars(s) && (Blank(s) <==> forall i | 0 <= i < |Points(s)| :: White(Points(s)[i]))
  {
    hide Blank, White, Utf8, Scalars;
    Utf8IsScalars(s);
    PointsEncode(s);
    BlankExact(Points(s));
  }
}
