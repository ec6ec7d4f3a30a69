/**
 The two flag-carrying scanners accept the languages of regular expressions: type names are
 [a-z][a-z0-9]*([.-][a-z0-9]+)* and error codes are [a-z][a-z0-9]*(-[a-z0-9]+)*.
 */
module Scanner {
  import opened Bytes
  import opened BridgeValue

  datatype Regex =
    | Class(allowed: byte -> bool)
    | Then(first: Regex, second: Regex)
    | Star(body: Regex)

  ghost predicate Matches(r: Regex, s: seq<byte>)
    decreases r, |s|
  {
    match r
    case Class(allowed) => |s| == 1 && allowed(s[0])
    case Then(first, second) =>
      exists k | 0 <= k <= |s| :: Matches(first, s[..k]) && Matches(second, s[k..])
    case Star(body) =>
      s == [] || exists k | 1 <= k <= |s| :: Matches(body, s[..k]) && Matches(r, s[k..])
  }

  predicate Between(b: byte, first: char, last: char) { first as int <= b <= last as int }

  predicate Dash(b: byte, dots: bool) { b == '-' as int || (dots && b == '.' as int) }

  function Alnum(): Regex { Class((b: byte) => Between(b, 'a', 'z') || Between(b, '0', '9')) }

  /** One separator and a nonempty word. */
  function Word(dots: bool): Regex {
    Then(Class((b: byte) => Dash(b, dots)), Then(Alnum(), Star(Alnum())))
  }

  /** [a-z][a-z0-9]*(separator[a-z0-9]+)* */
  function KebabRegex(dots: bool): Regex {
    Then(Class((b: byte) => Between(b, 'a', 'z')), Then(Star(Alnum()), Star(Word(dots))))
  }

  predicate AllAlnum(s: seq<byte>) {
    forall i | 0 <= i < |s| :: Alphanumeric(s[i])
  }

  lemma {:induction false} StarAlnum(s: seq<byte>)
    ensures Matches(Star(Alnum()), s) <==> AllAlnum(s)
    decreases |s|
  {
    if s != [] {
      StarAlnum(s[1..]);
      assert s == [s[0]] + s[1..];
      if AllAlnum(s) {
        assert Matches(Alnum(), s[..1]) && Matches(Star(Alnum()), s[1..]);
      }
      if Matches(Star(Alnum()), s) {
        var k :| 1 <= k <= |s| && Matches(Alnum(), s[..k]) && Matches(Star(Alnum()), s[k..]);
        assert k == 1;
      }
    }
  }

  lemma WordIs(s: seq<byte>, dots: bool)
    ensures Matches(Word(dots), s) <==> |s| >= 2 && Separator(s[0], dots) && AllAlnum(s[1..])
  {
    var sep := Class((b: byte) => Dash(b, dots));
    var word := Then(Alnum(), Star(Alnum()));
    if |s| >= 1 {
      var rest := s[1..];
      assert Matches(word, rest) <==> |rest| >= 1 && AllAlnum(rest) by {
        if |rest| >= 1 {
          StarAlnum(rest[1..]);
          if AllAlnum(rest) {
            assert Matches(Alnum(), rest[..1]) && Matches(Star(Alnum()), rest[1..]);
          }
          if Matches(word, rest) {
            var k :| 0 <= k <= |rest| && Matches(Alnum(), rest[..k]) && Matches(Star(Alnum()), rest[k..]);
            assert k == 1 && rest == [rest[0]] + rest[1..];
          }
        }
      }
      if Separator(s[0], dots) && Matches(word, rest) {
        assert Matches(sep, s[..1]);
      }
    }
    if Matches(Word(dots), s) {
      var k :| 0 <= k <= |s| && Matches(sep, s[..k]) && Matches(word, s[k..]);
      assert k == 1;
    }
  }

  /** What may follow the first word. */
  predicate Tailish(s: seq<byte>, dots: bool) {
    s == [] ||
    (&& Separator(s[0], dots)
     && (forall i | 0 <= i < |s| :: Alphanumeric(s[i]) || Separator(s[i], dots))
     && !Separator(s[|s| - 1], dots)
     && (forall i | 0 < i < |s| :: !(Separator(s[i - 1], dots) && Separator(s[i], dots))))
  }

  /** End of the run of letters and digits that starts at `from`. */
  function RunEnd(s: seq<byte>, from: nat): (end: nat)
    requires from <= |s|
    ensures from <= end <= |s|
    ensures forall i | from <= i < end :: Alphanumeric(s[i])
    ensures end < |s| ==> !Alphanumeric(s[end])
    decreases |s| - from
  {
    if from < |s| && Alphanumeric(s[from]) then RunEnd(s, from + 1) else from
  }

  /** A word in front of a tail is a tail. */
  lemma TailishStep(s: seq<byte>, k: nat, dots: bool)
    requires 2 <= k <= |s| && Separator(s[0], dots) && AllAlnum(s[1..k])
    ensures Tailish(s[k..], dots) ==> Tailish(s, dots)
    ensures Tailish(s, dots) && (k < |s| ==> !Alphanumeric(s[k])) ==> Tailish(s[k..], dots)
  {
    assert forall i | 1 <= i < k :: Alphanumeric(s[i]) by {
      forall i | 1 <= i < k ensures Alphanumeric(s[i]) { assert s[i] == s[1..k][i - 1]; }
    }
    var rest := s[k..];
    assert forall i | k <= i < |s| :: s[i] == rest[i - k];
    assert rest != [] ==> s[|s| - 1] == rest[|rest| - 1];
    if Tailish(s, dots) {
      forall i | 0 < i < |rest| ensures !(Separator(rest[i - 1], dots) && Separator(rest[i], dots)) {
        assert rest[i] == s[i + k] && rest[i - 1] == s[i + k - 1];
      }
    }
    if Tailish(rest, dots) && rest != [] {
      forall i | 0 < i < |s| ensures !(Separator(s[i - 1], dots) && Separator(s[i], dots)) {
        if i > k { assert s[i] == rest[i - k] && s[i - 1] == rest[i - k - 1]; }
      }
    }
  }

  lemma {:induction false} WordsAre(s: seq<byte>, dots: bool)
    ensures Matches(Star(Word(dots)), s) <==> Tailish(s, dots)
    decreases |s|
  {
    if s == [] {
      return;
    }
    var star := Star(Word(dots));
    if Matches(star, s) {
      var k :| 1 <= k <= |s| && Matches(Word(dots), s[..k]) && Matches(star, s[k..]);
      WordIs(s[..k], dots);
      WordsAre(s[k..], dots);
      assert s[1..k] == s[..k][1..];
      TailishStep(s, k, dots);
    }
    if Tailish(s, dots) {
      assert |s| >= 2 && !Separator(s[1], dots);
      var k := RunEnd(s, 1);
      WordIs(s[..k], dots);
      TailishStep(s, k, dots);
      WordsAre(s[k..], dots);
      assert Matches(Word(dots), s[..k]) by {
        forall i | 0 <= i < k - 1 ensures Alphanumeric(s[..k][1..][i]) { assert s[..k][1..][i] == s[i + 1]; }
      }
    }
  }

  /** Letters and digits, then a tail: the part of a name after its first letter. */
  lemma AfterFirst(s: seq<byte>, dots: bool)
    ensures Matches(Then(Star(Alnum()), Star(Word(dots))), s) <==>
            exists k | 0 <= k <= |s| :: AllAlnum(s[..k]) && Tailish(s[k..], dots)
  {
    forall k | 0 <= k <= |s|
      ensures Matches(Star(Alnum()), s[..k]) && Matches(Star(Word(dots)), s[k..]) <==>
              AllAlnum(s[..k]) && Tailish(s[k..], dots)
    {
      StarAlnum(s[..k]);
      WordsAre(s[k..], dots);
    }
  }

  lemma KebabSplits(s: seq<byte>, k: nat, dots: bool)
    requires 1 <= k <= |s| && Lower(s[0]) && AllAlnum(s[1..k])
    ensures Tailish(s[k..], dots) ==> Kebab(s, dots)
    ensures Kebab(s, dots) && (k < |s| ==> !Alphanumeric(s[k])) ==> Tailish(s[k..], dots)
  {
    forall i | 1 <= i < k ensures Alphanumeric(s[i]) { assert s[i] == s[1..k][i - 1]; }
    var rest := s[k..];
    assert forall i | k <= i < |s| :: s[i] == rest[i - k];
    assert rest != [] ==> s[|s| - 1] == rest[|rest| - 1];
    if Kebab(s, dots) {
      forall i | 0 < i < |rest| ensures !(Separator(rest[i - 1], dots) && Separator(rest[i], dots)) {
        assert rest[i] == s[i + k] && rest[i - 1] == s[i + k - 1];
      }
    }
    if Tailish(rest, dots) && rest != [] {
      forall i | 0 < i < |s| ensures !(Separator(s[i - 1], dots) && Separator(s[i], dots)) {
        if i > k { assert s[i] == rest[i - k] && s[i - 1] == rest[i - k - 1]; }
      }
    }
  }

  lemma FirstLetter(s: seq<byte>, dots: bool)
    ensures Matches(KebabRegex(dots), s) <==>
            && s != [] && Lower(s[0])
            && Matches(Then(Star(Alnum()), Star(Word(dots))), s[1..])
  {
    var lower := Class((b: byte) => Between(b, 'a', 'z'));
    var tail := Then(Star(Alnum()), Star(Word(dots)));
    forall j | 0 <= j <= |s| && Matches(lower, s[..j]) ensures j == 1 && Lower(s[0]) {
      assert |s[..j]| == 1;
    }
    if s != [] && Lower(s[0]) && Matches(tail, s[1..]) {
      assert Matches(lower, s[..1]);
    }
  }

  /** The flag-free shape is a regular language. */
  lemma KebabIsRegular(s: seq<byte>, dots: bool)
    ensures Kebab(s, dots) <==> Matches(KebabRegex(dots), s)
  {
    hide Matches, Tailish;
    FirstLetter(s, dots);
    if s != [] && Lower(s[0]) {
      var t := s[1..];
      AfterFirst(t, dots);
      forall k | 0 <= k <= |t| ensures s[1..k + 1] == t[..k] && s[k + 1..] == t[k..] {}
      if Matches(KebabRegex(dots), s) {
        var k :| 0 <= k <= |t| && AllAlnum(t[..k]) && Tailish(t[k..], dots);
        KebabSplits(s, k + 1, dots);
      }
      if Kebab(s, dots) {
        var k := RunEnd(t, 0);
        assert AllAlnum(s[1..k + 1]) && (k + 1 < |s| ==> s[k + 1] == t[k]);
        KebabSplits(s, k + 1, dots);
        assert AllAlnum(t[..k]) && Tailish(t[k..], dots);
      }
    }
  }

  /** Every code made of words joined by '-' is also a name whose words '.' or '-' may join. */
  lemma CodeIsTypeName(s: seq<byte>)
    requires |s| <= MAX_METADATA_BYTES && Kebab(s, false)
    ensures ValidTypeName(s)
  {
    assert forall b: byte :: Alphanumeric(b) || Separator(b, false) ==>
             (Separator(b, true) <==> Separator(b, false));
  }
}
