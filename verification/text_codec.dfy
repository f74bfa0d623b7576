// Decimal numbers and delimiter-separated tokens, as the standard library reads them.
module TextCodec {
  import opened Wrappers

  // ----- Decimal numbers -----

  const TWO_64: nat := 0x1_0000_0000_0000_0000

  predicate IsDigit(c: char)
  {
    '0' <= c <= '9'
  }

  function DigitValue(c: char): nat
    requires IsDigit(c)
  {
    c as int - '0' as int
  }

  // std::to_string
  function Print(n: nat): (s: string)
    ensures s != "" && forall c | c in s :: IsDigit(c)
  {
    var last := ('0' as int + n % 10) as char;
    if n < 10 then [last] else Print(n / 10) + [last]
  }

  function Value(digits: string): nat
    requires forall c | c in digits :: IsDigit(c)
  {
    if digits == "" then 0 else Value(digits[..|digits| - 1]) * 10 + DigitValue(digits[|digits| - 1])
  }

  predicate IsSpace(c: char)
  {
    c == ' ' || 9 as char <= c <= 13 as char
  }

  function SkipSpaces(s: string): string
  {
    if s != "" && IsSpace(s[0]) then SkipSpaces(s[1..]) else s
  }

  function DigitPrefix(s: string): (d: string)
    ensures forall c | c in d :: IsDigit(c)
  {
    if s != "" && IsDigit(s[0]) then [s[0]] + DigitPrefix(s[1..]) else ""
  }

  // std::stoull: leading blanks and a sign are accepted, trailing text is ignored, a negative
  // number wraps.
  function ParseNat(s: string): Result<nat>
  {
    var t := SkipSpaces(s);
    var signed := t != "" && (t[0] == '+' || t[0] == '-');
    var digits := DigitPrefix(if signed then t[1..] else t);
    if digits == "" then Throws("invalid_argument")
    else
      var v := Value(digits);
      if v >= TWO_64 then Throws("out_of_range")
      else Ok(if signed && t[0] == '-' then (TWO_64 - v) % TWO_64 else v)
  }

  lemma {:induction false} ValueOfPrint(n: nat)
    ensures Value(Print(n)) == n
  {
    var last := ('0' as int + n % 10) as char;
    if n >= 10 {
      ValueOfPrint(n / 10);
      assert Print(n)[..|Print(n)| - 1] == Print(n / 10);
    } else {
      assert Print(n)[..0] == "";
    }
  }

  lemma {:induction false} DigitPrefixOfDigits(s: string)
    requires forall c | c in s :: IsDigit(c)
    ensures DigitPrefix(s) == s
  {
    if s != "" {
      assert s[0] in s;
      DigitPrefixOfDigits(s[1..]);
    }
  }

  lemma ParsePrinted(n: nat)
    requires n < TWO_64
    ensures ParseNat(Print(n)) == Ok(n)
  {
    assert Print(n)[0] in Print(n);
    DigitPrefixOfDigits(Print(n));
    ValueOfPrint(n);
  }

  lemma ParseTooLarge(n: nat)
    requires n >= TWO_64
    ensures ParseNat(Print(n)).Throws?
  {
    assert Print(n)[0] in Print(n);
    DigitPrefixOfDigits(Print(n));
    ValueOfPrint(n);
  }

  lemma PrintIsInjective(m: nat, n: nat)
    requires Print(m) == Print(n)
    ensures m == n
  {
    ValueOfPrint(m);
    ValueOfPrint(n);
  }

  // ----- Tokens -----

  // std::views::split: an empty text has no tokens, any other has one more than delimiters.
  function Split(s: string, d: char): seq<string>
  {
    if s == "" then [] else Tokens(s, d)
  }

  function Tokens(s: string, d: char): (r: seq<string>)
    ensures r != []
  {
    if s == "" then [""]
    else
      var r := Tokens(s[1..], d);
      if s[0] == d then [""] + r else [[s[0]] + r[0]] + r[1..]
  }

  function JoinWith(tokens: seq<string>, d: char): string
    requires tokens != []
  {
    if |tokens| == 1 then tokens[0] else tokens[0] + [d] + JoinWith(tokens[1..], d)
  }

  lemma {:induction false} TokensOfPart(a: string, d: char, rest: string)
    requires d !in a
    ensures Tokens(a + [d] + rest, d) == [a] + Tokens(rest, d)
  {
    var s := a + [d] + rest;
    if a == "" {
      assert s[1..] == rest;
    } else {
      assert s[1..] == a[1..] + [d] + rest;
      assert a[0] in a && [a[0]] + a[1..] == a;
      TokensOfPart(a[1..], d, rest);
    }
  }

  lemma {:induction false} TokensOfOne(a: string, d: char)
    requires d !in a
    ensures Tokens(a, d) == [a]
  {
    if a != "" {
      TokensOfOne(a[1..], d);
      assert a[0] in a && [a[0]] + a[1..] == a;
    }
  }

  // Splitting undoes joining when no token holds the delimiter.
  lemma {:induction false} TokensOfJoin(tokens: seq<string>, d: char)
    requires tokens != [] && forall t | t in tokens :: d !in t
    ensures Tokens(JoinWith(tokens, d), d) == tokens
  {
    assert tokens[0] in tokens;
    if |tokens| == 1 {
      TokensOfOne(tokens[0], d);
    } else {
      forall t | t in tokens[1..] ensures d !in t {
        assert t in tokens;
      }
      TokensOfJoin(tokens[1..], d);
      TokensOfPart(tokens[0], d, JoinWith(tokens[1..], d));
    }
  }

  lemma {:induction false} TokensAreClean(s: string, d: char)
    ensures forall t | t in Tokens(s, d) :: d !in t
  {
    if s != "" {
      TokensAreClean(s[1..], d);
      var r := Tokens(s[1..], d);
      assert r[0] in r;
    }
  }

  lemma {:induction false} TokensLack(s: string, d: char, c: char)
    requires c !in s
    ensures forall t | t in Tokens(s, d) :: c !in t
  {
    if s != "" {
      assert s[0] in s && forall x | x in s[1..] :: x in s;
      TokensLack(s[1..], d, c);
      var r := Tokens(s[1..], d);
      assert r[0] in r;
    }
  }

  // Joining undoes splitting.
  lemma {:induction false} JoinOfTokens(s: string, d: char)
    ensures JoinWith(Tokens(s, d), d) == s
  {
    if s != "" {
      JoinOfTokens(s[1..], d);
      var r := Tokens(s[1..], d);
      if s[0] == d {
        assert ([""] + r)[1..] == r;
        assert s == "" + [d] + s[1..];
      } else {
        var q := [[s[0]] + r[0]] + r[1..];
        assert q[1..] == r[1..];
        assert s == [s[0]] + s[1..];
      }
    }
  }

  // One token more than delimiters.
  lemma {:induction false} TokenCount(s: string, d: char)
    ensures |Tokens(s, d)| == 1 + multiset(s)[d]
  {
    if s != "" {
      TokenCount(s[1..], d);
      assert s == [s[0]] + s[1..];
    }
  }

  // What precedes the first delimiter, and what follows it, can be told from the whole.
  lemma PartsAreKnown(a: string, x: string, b: string, y: string, d: char)
    requires d !in a && d !in b && a + [d] + x == b + [d] + y
    ensures a == b && x == y
  {
    TokensOfPart(a, d, x);
    TokensOfPart(b, d, y);
    assert ([a] + Tokens(x, d))[0] == ([b] + Tokens(y, d))[0];
    assert (a + [d] + x)[|a| + 1..] == x && (b + [d] + y)[|b| + 1..] == y;
  }

  // The loop that fills a token vector.
  method SplitTokens(s: string, d: char) returns (tokens: seq<string>)
    ensures tokens == Split(s, d)
  {
    hide Tokens;
    tokens := [];
    if s == "" {
      return;
    }
    var token := "";
    assert "" + s[0..] == s;
    for i := 0 to |s|
      invariant d !in token
      invariant Tokens(s, d) == tokens + Tokens(token + s[i..], d)
    {
      if s[i] == d {
        assert token + s[i..] == token + [d] + s[i + 1..];
        TokensOfPart(token, d, s[i + 1..]);
        tokens := tokens + [token];
        token := "";
        assert "" + s[i + 1..] == s[i + 1..];
      } else {
        assert token + s[i..] == token + [s[i]] + s[i + 1..];
        token := token + [s[i]];
      }
    }
    assert token + s[|s|..] == token;
    TokensOfOne(token, d);
    tokens := tokens + [token];
  }
}
