/**
 * The two pieces of JavaScript string behaviour the core relies on:
 * `String.prototype.includes` (case-sensitive substring search) and the
 * decimal rendering of a non-negative integer inside a template literal.
 */
module Text {

  /** `p` occurs in `s` starting at index `i`. */
  ghost predicate OccursAt(s: string, p: string, i: nat) {
    i + |p| <= |s| && s[i..i + |p|] == p
  }

  /** `s.includes(p)`: scan `s` from the left for a copy of `p`. */
  function Includes(s: string, p: string): (r: bool)
    ensures r ==> |p| <= |s|
    ensures p == [] || s == p ==> r
    decreases |s|
  {
    |p| <= |s| && (s[..|p|] == p || (|s| > 0 && Includes(s[1..], p)))
  }

  /** The scan agrees with the positional definition of a substring, in both directions. */
  lemma {:induction false} IncludesIff(s: string, p: string)
    ensures Includes(s, p) <==> exists i: nat :: OccursAt(s, p, i)
    decreases |s|
  {
    if |p| <= |s| && s[..|p|] != p {
      IncludesIff(s[1..], p);
      if Includes(s[1..], p) {
        var j: nat :| OccursAt(s[1..], p, j);
        assert s[j + 1..j + 1 + |p|] == s[1..][j..j + |p|];
        assert OccursAt(s, p, j + 1);
      } else {
        forall i: nat | OccursAt(s, p, i) ensures false {
          if i > 0 {
            assert s[1..][i - 1..i - 1 + |p|] == s[i..i + |p|];
            assert OccursAt(s[1..], p, i - 1);
          }
        }
      }
    } else if |p| <= |s| {
      assert OccursAt(s, p, 0);
    }
  }

  /** A substring of a substring of `s` is a substring of `s`. */
  lemma IncludesTransitive(s: string, q: string, p: string)
    requires Includes(s, q) && Includes(q, p)
    ensures Includes(s, p)
  {
    IncludesIff(s, q);
    IncludesIff(q, p);
    var i: nat :| OccursAt(s, q, i);
    var j: nat :| OccursAt(q, p, j);
    forall k | 0 <= k < |p| ensures s[i + j + k] == p[k] {
      assert s[i..i + |q|][j + k] == q[j + k];
      assert q[j..j + |p|][k] == p[k];
    }
    assert s[i + j..i + j + |p|] == p;
    assert OccursAt(s, p, i + j);
    IncludesIff(s, p);
  }

  /** A non-empty pattern can only be found in a string that contains its first character. */
  lemma {:induction false} IncludesFirstChar(s: string, p: string)
    requires p != [] && Includes(s, p)
    ensures p[0] in s
    decreases |s|
  {
    if s[..|p|] == p {
      assert s[0] == p[0];
    } else {
      IncludesFirstChar(s[1..], p);
      assert p[0] in s[1..];
    }
  }

  predicate IsDigit(c: char) {
    '0' <= c <= '9'
  }

  function DigitChar(d: nat): (c: char)
    requires d < 10
    ensures IsDigit(c) && c as int - '0' as int == d
  {
    (d + '0' as int) as char
  }

  /** `${n}` for a non-negative integer `n`: its decimal digits, no sign, no leading zero. */
  function Decimal(n: nat): (s: string)
    ensures s != []
    ensures forall i :: 0 <= i < |s| ==> IsDigit(s[i])
    ensures s[0] == '0' ==> n == 0 && s == "0"
  {
    if n < 10 then [DigitChar(n)] else Decimal(n / 10) + [DigitChar(n % 10)]
  }

  function DigitValue(c: char): (d: nat)
    requires IsDigit(c)
    ensures d < 10 && DigitChar(d) == c
  {
    c as int - '0' as int
  }

  /** Reads a string of decimal digits back as a number. */
  function DecimalValue(s: string): nat
    requires forall i :: 0 <= i < |s| ==> IsDigit(s[i])
  {
    if s == [] then 0
    else DecimalValue(s[..|s| - 1]) * 10 + DigitValue(s[|s| - 1])
  }

  /** The rendering loses nothing: reading the digits back gives the number. */
  lemma {:induction false} DecimalRoundTrip(n: nat)
    ensures DecimalValue(Decimal(n)) == n
  {
    var s := Decimal(n);
    if n >= 10 {
      DecimalRoundTrip(n / 10);
      assert s[..|s| - 1] == Decimal(n / 10);
    }
  }
}
