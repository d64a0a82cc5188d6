/**
  The string operations the configurator relies on implicitly through
  JavaScript: the decimal rendering of a non-negative number inside a
  template literal (the motif keys and the colour keys), and the substring
  tests a regular expression made of one literal word performs, with and
  without the `i` flag.
 */
module Text {

  // ---------------------------------------------------------------------
  // Decimal rendering of natural numbers
  // ---------------------------------------------------------------------

  predicate IsDigit(c: char) {
    '0' <= c <= '9'
  }

  predicate AllDigits(s: string) {
    forall i :: 0 <= i < |s| ==> IsDigit(s[i])
  }

  function DigitChar(d: nat): (c: char)
    requires d < 10
    ensures IsDigit(c) && c as int - '0' as int == d
  {
    ('0' as int + d) as char
  }

  /** The text JavaScript produces for a non-negative integer `n` below
      10^21 (from there on it switches to exponent notation, and above 2^53
      it no longer holds every integer exactly): its digits, most significant
      first, with no leading zero. The numbers rendered here are motif
      numbers and list positions, far below either bound. */
  function NatToDecimal(n: nat): (s: string)
    ensures |s| >= 1 && AllDigits(s)
    ensures s[0] == '0' <==> n == 0
    decreases n
  {
    if n < 10 then [DigitChar(n)] else NatToDecimal(n / 10) + [DigitChar(n % 10)]
  }

  /** The number a string of decimal digits denotes. */
  function DecimalValue(s: string): nat
    requires AllDigits(s)
  {
    if s == [] then 0
    else DecimalValue(s[..|s| - 1]) * 10 + (s[|s| - 1] as int - '0' as int)
  }

  /** Reading back the rendering gives the number: the rendering loses nothing. */
  lemma {:induction false} DecimalRoundTrip(n: nat)
    ensures DecimalValue(NatToDecimal(n)) == n
    decreases n
  {
    if n >= 10 {
      var s := NatToDecimal(n);
      DecimalRoundTrip(n / 10);
      assert s[..|s| - 1] == NatToDecimal(n / 10);
    }
  }

  /** Two different numbers never render to the same text. */
  lemma NatToDecimalInjective(a: nat, b: nat)
    ensures NatToDecimal(a) == NatToDecimal(b) <==> a == b
  {
    if NatToDecimal(a) == NatToDecimal(b) {
      DecimalRoundTrip(a);
      DecimalRoundTrip(b);
    }
  }

  /** A fixed prefix followed by a rendered number identifies the number. */
  lemma PrefixedDecimalInjective(prefix: string, a: nat, b: nat)
    ensures prefix + NatToDecimal(a) == prefix + NatToDecimal(b) <==> a == b
  {
    if prefix + NatToDecimal(a) == prefix + NatToDecimal(b) {
      assert (prefix + NatToDecimal(a))[|prefix|..] == NatToDecimal(a);
      assert (prefix + NatToDecimal(b))[|prefix|..] == NatToDecimal(b);
      NatToDecimalInjective(a, b);
    }
  }

  // ---------------------------------------------------------------------
  // Substring search
  // ---------------------------------------------------------------------

  predicate StartsWith(s: string, p: string) {
    |p| <= |s| && s[..|p|] == p
  }

  /** `p` occurs in `s` starting at position `i`. */
  predicate OccursAt(s: string, p: string, i: nat) {
    i + |p| <= |s| && s[i..i + |p|] == p
  }

  /** What a regular-expression test decides for a pattern `p` made of literal ASCII characters:
      some suffix of `s` starts with `p`. */
  predicate Contains(s: string, p: string)
    decreases |s|
  {
    StartsWith(s, p) || (|s| > 0 && Contains(s[1..], p))
  }

  /** The search finds `p` exactly when `p` occurs at some position of `s`. */
  lemma {:induction false} ContainsIffOccurs(s: string, p: string)
    ensures Contains(s, p) <==> exists i: nat :: OccursAt(s, p, i)
    decreases |s|
  {
    if StartsWith(s, p) {
      assert OccursAt(s, p, 0);
    } else if |s| == 0 {
      assert forall i: nat :: !OccursAt(s, p, i);
    } else {
      ContainsIffOccurs(s[1..], p);
      if Contains(s[1..], p) {
        var i: nat :| OccursAt(s[1..], p, i);
        assert s[1..][i..i + |p|] == s[i + 1..i + 1 + |p|];
        assert OccursAt(s, p, i + 1);
      } else {
        forall i: nat | OccursAt(s, p, i) ensures false {
          if i > 0 {
            assert s[1..][i - 1..i - 1 + |p|] == s[i..i + |p|];
            assert OccursAt(s[1..], p, i - 1);
          }
        }
      }
    }
  }

  /** A string that contains `p` contains everything `p` contains. */
  lemma ContainsTransitive(s: string, p: string, q: string)
    requires Contains(s, p) && Contains(p, q)
    ensures Contains(s, q)
  {
    ContainsIffOccurs(s, p);
    ContainsIffOccurs(p, q);
    var i: nat :| OccursAt(s, p, i);
    var k: nat :| OccursAt(p, q, k);
    forall t | 0 <= t < |q| ensures s[i + k + t] == q[t] {
      assert s[i..i + |p|][k + t] == p[k + t];
    }
    assert s[i + k..i + k + |q|] == q;
    assert OccursAt(s, q, i + k);
    ContainsIffOccurs(s, q);
  }

  /** A word with a character the string lacks does not occur in it. */
  lemma MissingCharNotContained(s: string, p: string, c: char)
    requires c in p && c !in s
    ensures !Contains(s, p)
  {
    ContainsIffOccurs(s, p);
  }

  // ---------------------------------------------------------------------
  // Case-insensitive search (the `i` flag)
  // ---------------------------------------------------------------------

  /** ASCII lower-casing. For a pattern made of ASCII letters and spaces this
      is exactly the comparison the `i` flag makes: a character outside ASCII
      is never folded onto an ASCII one. */
  function LowerChar(c: char): (r: char)
    ensures 'A' <= c <= 'Z' ==> r as int == c as int + 32
    ensures !('A' <= c <= 'Z') ==> r == c
  {
    if 'A' <= c <= 'Z' then (c as int + 32) as char else c
  }

  function Lower(s: string): (r: string)
    ensures |r| == |s|
    ensures forall i :: 0 <= i < |s| ==> r[i] == LowerChar(s[i])
  {
    seq(|s|, i requires 0 <= i < |s| => LowerChar(s[i]))
  }

  /** What the same test with the `i` flag decides for a pattern `p` made of
      literal ASCII characters (JavaScript also folds non-ASCII letters, which
      `Lower` leaves alone). */
  predicate ContainsIgnoringCase(s: string, p: string) {
    Contains(Lower(s), Lower(p))
  }

  /** A word with a letter the string lacks, in either case, does not occur
      in it, ignoring case. */
  lemma MissingCharNotContainedIgnoringCase(s: string, p: string, c: char)
    requires c in Lower(p) && c !in Lower(s)
    ensures !ContainsIgnoringCase(s, p)
  {
    MissingCharNotContained(Lower(s), Lower(p), c);
  }

  /** Case-insensitive containment is transitive as well. */
  lemma ContainsIgnoringCaseTransitive(s: string, p: string, q: string)
    requires ContainsIgnoringCase(s, p) && Contains(Lower(p), Lower(q))
    ensures ContainsIgnoringCase(s, q)
  {
    ContainsTransitive(Lower(s), Lower(p), Lower(q));
  }
}
