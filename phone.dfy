/**
 * The phone-number normaliser of the signup handler: an input that already
 * carries the US country prefix "+1" is kept verbatim; any other input loses
 * every character that is not an ASCII digit and gets "+1" in front.
 */
module Phone {

  /** The fixed country prefix every stored phone number carries. */
  const CountryPrefix: string := "+1"

  /** The characters a JavaScript regular expression means by `\d`. */
  predicate IsDigit(c: char) {
    '0' <= c <= '9'
  }

  predicate IsDigits(s: string) {
    forall i :: 0 <= i < |s| ==> IsDigit(s[i])
  }

  /** `s.startsWith("+1")`. */
  predicate HasCountryPrefix(s: string) {
    |s| >= 2 && s[0] == CountryPrefix[0] && s[1] == CountryPrefix[1]
  }

  /**
   * The string left by removing every non-digit (`replace(/\D/g, '')`):
   * only digits remain, and each digit keeps its number of occurrences.
   */
  function DigitsOf(s: string): (r: string)
    ensures IsDigits(r)
    ensures |r| <= |s|
  {
    if s == [] then []
    else
      var rest := DigitsOf(s[1..]);
      if IsDigit(s[0]) then [s[0]] + rest else rest
  }

  /** Every digit of `s` survives the stripping as often as it occurs, and nothing else does. */
  lemma {:induction false} DigitsOfCounts(s: string)
    ensures forall c {:trigger multiset(s)[c]} ::
      multiset(DigitsOf(s))[c] == if IsDigit(c) then multiset(s)[c] else 0
  {
    if s != [] {
      DigitsOfCounts(s[1..]);
      assert s == [s[0]] + s[1..];
      var r, rest := DigitsOf(s), DigitsOf(s[1..]);
      assert r == if IsDigit(s[0]) then [s[0]] + rest else rest;
      assert multiset(r) == if IsDigit(s[0]) then multiset{s[0]} + multiset(rest) else multiset(rest);
      forall c ensures multiset(r)[c] == if IsDigit(c) then multiset(s)[c] else 0 {
        assert multiset(s)[c] == multiset{s[0]}[c] + multiset(s[1..])[c];
      }
    } else {
      assert DigitsOf(s) == [];
    }
  }

  /** Removing non-digits works piecewise, so the digits stay in their original order. */
  lemma {:induction false} DigitsOfConcat(a: string, b: string)
    ensures DigitsOf(a + b) == DigitsOf(a) + DigitsOf(b)
  {
    if a == [] {
      assert a + b == b;
    } else {
      assert (a + b)[1..] == a[1..] + b;
      DigitsOfConcat(a[1..], b);
    }
  }

  /** A string is left untouched by the stripping exactly when it already is all digits. */
  lemma {:induction false} DigitsOfFixed(s: string)
    ensures DigitsOf(s) == s <==> IsDigits(s)
  {
    if s != [] {
      DigitsOfFixed(s[1..]);
      if IsDigits(s) {
        assert IsDigits(s[1..]) by {
          forall i | 0 <= i < |s[1..]| ensures IsDigit(s[1..][i]) {
            assert s[1..][i] == s[i + 1];
          }
        }
      } else if IsDigit(s[0]) {
        assert !IsDigits(s[1..]) by {
          var i :| 0 <= i < |s| && !IsDigit(s[i]);
          assert s[1..][i - 1] == s[i];
        }
      }
    }
  }

  /** The normalised phone number of `raw` (server.js line 55). */
  function Normalize(raw: string): (n: string)
    ensures HasCountryPrefix(n)
    ensures HasCountryPrefix(raw) ==> n == raw
    ensures !HasCountryPrefix(raw) ==> IsDigits(n[2..])
  {
    if HasCountryPrefix(raw) then raw
    else
      var n := CountryPrefix + DigitsOf(raw);
      assert n[2..] == DigitsOf(raw);
      n
  }

  /** An input without the prefix becomes the prefix followed by exactly its digits, in order. */
  lemma NormalizeUnprefixed(raw: string)
    requires !HasCountryPrefix(raw)
    ensures Normalize(raw) == CountryPrefix + DigitsOf(raw)
    ensures Normalize(raw)[2..] == DigitsOf(raw)
  {
    assert (CountryPrefix + DigitsOf(raw))[2..] == DigitsOf(raw);
  }

  /** Normalising twice is normalising once. */
  lemma NormalizeIdempotent(raw: string)
    ensures Normalize(Normalize(raw)) == Normalize(raw)
  {
  }

  /**
   * Any run of digits of US length has one canonical form, whether it is
   * submitted bare or with the prefix: "1234567890" and "+11234567890" meet.
   */
  lemma NormalizeCanonical(d: string)
    requires IsDigits(d) && |d| == 10
    ensures Normalize(d) == Normalize(CountryPrefix + d) == CountryPrefix + d
  {
    DigitsOfFixed(d);
    assert IsDigit(d[0]);
  }

  /** The sample number "1234567890" becomes "+11234567890". */
  lemma NormalizeExampleBare(d: string)
    requires d == "1234567890"
    ensures Normalize(d) == "+11234567890"
  {
    assert IsDigits(d);
    NormalizeCanonical(d);
    assert CountryPrefix + d == "+11234567890";
  }

  /** The sample number "+11234567890" is kept as it is. */
  lemma NormalizeExamplePrefixed(p: string)
    requires p == "+11234567890"
    ensures Normalize(p) == "+11234567890"
  {
  }

  /** A non-digit alone leaves nothing behind. */
  lemma DigitsOfNonDigit(c: char)
    requires !IsDigit(c)
    ensures DigitsOf([c]) == []
  {
    assert [c][1..] == [];
  }

  /** A non-digit after a run of digits is dropped. */
  lemma DigitsOfDropLast(a: string, sep: char)
    requires IsDigits(a) && !IsDigit(sep)
    ensures DigitsOf(a + [sep]) == a
  {
    DigitsOfFixed(a);
    DigitsOfNonDigit(sep);
    DigitsOfConcat(a, [sep]);
  }

  /** One non-digit between two runs of digits is dropped. */
  lemma DigitsOfJoin(a: string, sep: char, b: string)
    requires IsDigits(a) && IsDigits(b) && !IsDigit(sep)
    ensures DigitsOf(a + [sep] + b) == a + b
  {
    DigitsOfDropLast(a, sep);
    DigitsOfFixed(b);
    DigitsOfConcat(a + [sep], b);
  }

  /**
   * Separators between digit groups are dropped from an unprefixed number:
   * "555-123-4567" and "555 123 4567" both become "+15551234567".
   */
  lemma NormalizeDropsSeparators(a: string, b: string, c: string, sep: char)
    requires IsDigits(a) && IsDigits(b) && IsDigits(c) && a != []
    requires !IsDigit(sep)
    ensures Normalize(a + [sep] + b + [sep] + c) == CountryPrefix + a + b + c
  {
    var raw := a + [sep] + b + [sep] + c;
    assert raw[0] == a[0];
    DigitsOfJoin(a, sep, b);
    DigitsOfConcat(a + [sep] + b, [sep] + c);
    assert raw == (a + [sep] + b) + ([sep] + c);
    DigitsOfJoin([], sep, c);
    assert [] + [sep] + c == [sep] + c;
    assert DigitsOf(raw) == a + b + c;
  }

  /**
   * A number that starts with "+1" keeps its punctuation, so it does not meet
   * the same number written without the prefix.
   */
  lemma NormalizeKeepsPrefixedPunctuation()
    ensures Normalize("+1-555-123-4567") == "+1-555-123-4567" != "+15551234567"
  {
    assert "+1-555-123-4567"[2] != "+15551234567"[2];
  }
}
