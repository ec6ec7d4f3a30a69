/** Bytes, big-endian integers, and the UTF-8 text that Rust's `String` guarantees. */
module Bytes {

  datatype Option<+T> = None | Some(value: T)

  type byte = x: int | 0 <= x < 256

  const U32_LIMIT: int := 0x1_0000_0000
  const U64_LIMIT: int := 0x1_0000_0000_0000_0000
  const I64_LIMIT: int := 0x8000_0000_0000_0000

  type u64 = x: int | 0 <= x < U64_LIMIT
  type i64 = x: int | -I64_LIMIT <= x < I64_LIMIT

  // ---------------------------------------------------------------- slices

  /** `part` occurs in `input` at `offset`. */
  predicate At(input: seq<byte>, offset: nat, part: seq<byte>) {
    offset + |part| <= |input| && input[offset..offset + |part|] == part
  }

  lemma AtSplit(input: seq<byte>, offset: nat, a: seq<byte>, b: seq<byte>)
    ensures At(input, offset, a + b) <==> At(input, offset, a) && At(input, offset + |a|, b)
  {
    if offset + |a + b| <= |input| {
      var whole := input[offset..offset + |a + b|];
      assert whole[..|a|] == input[offset..offset + |a|];
      assert whole[|a|..] == input[offset + |a|..offset + |a| + |b|];
      assert (a + b)[..|a|] == a && (a + b)[|a|..] == b;
      assert whole == whole[..|a|] + whole[|a|..];
    }
  }

  lemma AtEmbedded(pre: seq<byte>, part: seq<byte>, post: seq<byte>)
    ensures At(pre + part + post, |pre|, part)
  {
  }

  // ---------------------------------------------------------------- big-endian integers

  function Power256(n: nat): (p: nat)
    ensures p >= 1
  {
    if n == 0 then 1 else 256 * Power256(n - 1)
  }

  lemma FixedPowers()
    ensures Power256(4) == U32_LIMIT
    ensures Power256(8) == U64_LIMIT
  {
    assert Power256(2) == 256 * Power256(1);
    assert Power256(4) == 256 * Power256(3);
    assert Power256(6) == 256 * Power256(5);
    assert Power256(8) == 256 * Power256(7);
  }

  /** The `n` low bytes of `x`, most significant first. */
  function BigEndian(x: nat, n: nat): (s: seq<byte>)
    ensures |s| == n
  {
    if n == 0 then [] else BigEndian(x / 256, n - 1) + [x % 256]
  }

  function FromBigEndian(s: seq<byte>): nat {
    if s == [] then 0 else 256 * FromBigEndian(s[..|s| - 1]) + s[|s| - 1]
  }

  lemma {:induction false} BigEndianRoundTrip(x: nat, n: nat)
    requires x < Power256(n)
    ensures FromBigEndian(BigEndian(x, n)) == x
  {
    if n > 0 {
      BigEndianRoundTrip(x / 256, n - 1);
      assert BigEndian(x, n)[..n - 1] == BigEndian(x / 256, n - 1);
    }
  }

  lemma {:induction false} BigEndianCanonical(s: seq<byte>)
    ensures FromBigEndian(s) < Power256(|s|)
    ensures BigEndian(FromBigEndian(s), |s|) == s
  {
    if s != [] {
      var init, last := s[..|s| - 1], s[|s| - 1];
      BigEndianCanonical(init);
      var x := FromBigEndian(s);
      assert x / 256 == FromBigEndian(init) && x % 256 == last;
      assert s == init + [last];
    }
  }

  /** `u64::to_be_bytes` of the two's complement bits of a signed integer. */
  function SignedBits(x: i64): u64 {
    if x < 0 then x + U64_LIMIT else x
  }

  function FromSignedBits(bits: u64): i64 {
    if bits >= I64_LIMIT then bits - U64_LIMIT else bits
  }

  // ---------------------------------------------------------------- UTF-8

  predicate Tail(b: byte) { 0x80 <= b <= 0xBF }

  /** Bytes taken by the first scalar value of `s`, or 0 when the bytes are ill-formed
      (table of section 4 of RFC 3629). */
  function ScalarLength(s: seq<byte>): (n: nat)
    requires s != []
    ensures n <= |s|
  {
    var b := s[0];
    if b <= 0x7F then 1
    else if 0xC2 <= b <= 0xDF && |s| >= 2 && Tail(s[1]) then 2
    else if |s| >= 3 && Tail(s[2])
         && (if b == 0xE0 then 0xA0 <= s[1] <= 0xBF
             else if b == 0xED then 0x80 <= s[1] <= 0x9F
             else 0xE1 <= b <= 0xEF && Tail(s[1])) then 3
    else if |s| >= 4 && Tail(s[2]) && Tail(s[3])
         && (if b == 0xF0 then 0x90 <= s[1] <= 0xBF
             else if b == 0xF4 then 0x80 <= s[1] <= 0x8F
             else 0xF1 <= b <= 0xF3 && Tail(s[1])) then 4
    else 0
  }

  /** A scalar value starts at `i`. */
  predicate Lead(s: seq<byte>, i: nat) {
    i < |s| && ScalarLength(s[i..]) > 0
  }

  /** The scalar value that starts at `j` has not ended before `i`. */
  predicate Reaches(s: seq<byte>, j: nat, i: nat) {
    j < i && Lead(s, j) && ScalarLength(s[j..]) > i - j
  }

  predicate Within(s: seq<byte>, i: nat) {
    exists j | 0 <= j < i :: Reaches(s, j, i)
  }

  /** Every byte starts a scalar value or belongs to one. */
  predicate Utf8(s: seq<byte>) {
    forall i {:trigger Lead(s, i)} | 0 <= i < |s| :: Lead(s, i) || Within(s, i)
  }

  /** A Rust `String`: bytes that are valid UTF-8. */
  type Text = s: seq<byte> | Utf8(s)

  /** One scalar value after another up to the end. */
  predicate Scalars(s: seq<byte>) {
    s == [] || (ScalarLength(s) > 0 && Scalars(s[ScalarLength(s)..]))
  }

  lemma Shift(s: seq<byte>, n: nat, j: nat, i: nat)
    requires n <= |s|
    ensures Lead(s[n..], j) <==> Lead(s, n + j)
    ensures Reaches(s[n..], j, i) <==> Reaches(s, n + j, n + i)
  {
    assert n + j <= |s| ==> s[n..][j..] == s[n + j..];
  }

  /** Inside a scalar value no other starts. */
  lemma InsideIsTail(s: seq<byte>, i: nat)
    requires s != [] && 0 < i < ScalarLength(s)
    ensures !Lead(s, i)
  {
  }

  /** Behind the first scalar value nothing depends on it. */
  lemma RestReads(s: seq<byte>, n: nat, i: nat)
    requires s != [] && n == ScalarLength(s) > 0
    ensures Lead(s, n + i) <==> Lead(s[n..], i)
    ensures Within(s, n + i) <==> Within(s[n..], i)
  {
    hide ScalarLength;
    Shift(s, n, i, i);
    assert s[0..] == s;
    if Within(s, n + i) {
      var j :| 0 <= j < n + i && Reaches(s, j, n + i);
      if 0 < j < n {
        InsideIsTail(s, j);
      } else if j >= n {
        Shift(s, n, j - n, i);
      }
    }
    if Within(s[n..], i) {
      var j :| 0 <= j < i && Reaches(s[n..], j, i);
      Shift(s, n, j, i);
    }
  }

  /** The local reading of UTF-8 and the sequential one agree. */
  lemma {:induction false} Utf8IsScalars(s: seq<byte>)
    ensures Utf8(s) <==> Scalars(s)
    decreases |s|
  {
    hide ScalarLength, Within;
    if s != [] {
      assert s[0..] == s;
      NothingBefore(s);
      if Lead(s, 0) {
        var n := ScalarLength(s);
        var rest := s[n..];
        Utf8IsScalars(rest);
        forall i: nat ensures (Lead(s, n + i) <==> Lead(rest, i)) && (Within(s, n + i) <==> Within(rest, i)) {
          RestReads(s, n, i);
        }
        if Utf8(s) {
          forall i | 0 <= i < |rest| ensures Lead(rest, i) || Within(rest, i) {
            assert Lead(s, n + i) || Within(s, n + i);
          }
        }
        if Utf8(rest) {
          forall i | 0 <= i < |s| ensures Lead(s, i) || Within(s, i) {
            if i >= n {
              assert Lead(rest, i - n) || Within(rest, i - n);
            } else if i > 0 {
              FirstCovers(s, i);
            }
          }
        }
      }
    }
  }

  lemma NothingBefore(s: seq<byte>)
    ensures !Within(s, 0)
  {
  }

  lemma FirstCovers(s: seq<byte>, i: nat)
    requires s != [] && 0 < i < ScalarLength(s)
    ensures Within(s, i)
  {
    assert s[0..] == s;
    assert Reaches(s, 0, i);
  }

  lemma Utf8Concat(a: seq<byte>, b: seq<byte>)
    requires Utf8(a) && Utf8(b)
    ensures Utf8(a + b)
  {
    Utf8IsScalars(a);
    Utf8IsScalars(b);
    ScalarsConcat(a, b);
    Utf8IsScalars(a + b);
  }

  lemma {:induction false} ScalarsConcat(a: seq<byte>, b: seq<byte>)
    requires Scalars(a) && Scalars(b)
    ensures Scalars(a + b)
    decreases |a|
  {
    if a == [] {
      assert a + b == b;
    } else {
      var n := ScalarLength(a);
      assert ScalarLength(a + b) == n;
      assert (a + b)[n..] == a[n..] + b;
      ScalarsConcat(a[n..], b);
    }
  }

  predicate AllAscii(s: seq<byte>) {
    forall i | 0 <= i < |s| :: s[i] < 0x80
  }

  lemma AsciiIsUtf8(s: seq<byte>)
    requires AllAscii(s)
    ensures Utf8(s)
  {
    forall i | 0 <= i < |s| ensures Lead(s, i) {
      assert s[i..][0] == s[i];
    }
  }

  function AsciiByte(c: char): (b: byte)
    ensures b < 0x80
  {
    if c as int < 0x80 then c as int else 0x3F
  }

  /** The bytes of an ASCII literal. */
  function Ascii(literal: string): (t: Text)
    ensures |t| == |literal|
    ensures forall i | 0 <= i < |t| :: t[i] == AsciiByte(literal[i])
  {
    var t := seq(|literal|, i requires 0 <= i < |literal| => AsciiByte(literal[i]));
    AsciiIsUtf8(t);
    t
  }

  // ---------------------------------------------------------------- blank text

  /** Bytes taken by the leading Unicode White_Space scalar of `s`, or 0 when there is none. */
  function SpaceLength(s: seq<byte>): (n: nat)
    ensures n <= |s|
  {
    if |s| >= 1 && (9 <= s[0] <= 13 || s[0] == 0x20) then 1
    else if |s| >= 2 && s[0] == 0xC2 && (s[1] == 0x85 || s[1] == 0xA0) then 2
    else if |s| >= 3
         && (   (s[0] == 0xE1 && s[1] == 0x9A && s[2] == 0x80)
             || (s[0] == 0xE2 && s[1] == 0x80 && (0x80 <= s[2] <= 0x8A || s[2] in {0xA8, 0xA9, 0xAF}))
             || (s[0] == 0xE2 && s[1] == 0x81 && s[2] == 0x9F)
             || (s[0] == 0xE3 && s[1] == 0x80 && s[2] == 0x80)) then 3
    else 0
  }

  /** `s.trim().is_empty()`: nothing but white space. */
  predicate Blank(s: seq<byte>) {
    s == [] || (SpaceLength(s) > 0 && Blank(s[SpaceLength(s)..]))
  }
}
