/** String operations the components rely on, over `seq<char>`:
    ASCII case folding (`toLowerCase`), substring search (`includes`),
    prefix test (`startsWith`), removal of regular-expression `\s`
    characters (`replace(/\s+/g, '')`), JavaScript's lexicographic string
    comparison, and decimal digit strings (the part of `Number` in use). */
module Text {

  // ---------------------------------------------------------------------
  // Case folding

  predicate IsUpper(c: char)
  {
    'A' <= c <= 'Z'
  }

  function LowerChar(c: char): char
  {
    if IsUpper(c) then (c as int + 32) as char else c
  }

  /** `s.toLowerCase()` restricted to ASCII letters. */
  function Lower(s: string): (r: string)
    ensures |r| == |s|
    ensures forall i :: 0 <= i < |s| ==> r[i] == LowerChar(s[i])
  {
    if |s| == 0 then [] else [LowerChar(s[0])] + Lower(s[1..])
  }

  /** Some character is an upper-case ASCII letter. */
  predicate HasUpper(s: string)
  {
    exists i :: 0 <= i < |s| && IsUpper(s[i])
  }

  /** Lower-casing leaves no upper-case letter and changes nothing else. */
  lemma LowerFolds(s: string)
    ensures forall i :: 0 <= i < |s| ==> !IsUpper(Lower(s)[i])
    ensures forall i :: 0 <= i < |s| && !IsUpper(s[i]) ==> Lower(s)[i] == s[i]
    ensures forall i :: 0 <= i < |s| && IsUpper(s[i]) ==> Lower(s)[i] as int == s[i] as int + 32
  {
  }

  /** Lower-casing agrees with a character-by-character folding. */
  lemma LowerIs(s: string, t: string)
    requires |s| == |t| && forall i :: 0 <= i < |s| ==> LowerChar(s[i]) == t[i]
    ensures Lower(s) == t
  {
  }

  lemma LowerIdempotent(s: string)
    ensures Lower(Lower(s)) == Lower(s)
  {
  }

  // ---------------------------------------------------------------------
  // Prefixes and substrings

  /** `s.startsWith(p)`. */
  predicate StartsWith(s: string, p: string)
  {
    |p| <= |s| && s[..|p|] == p
  }

  /** `s.includes(sub)`, computed by trying every start position in turn. */
  predicate Contains(s: string, sub: string)
    decreases |s|
  {
    StartsWith(s, sub) || (|s| > 0 && Contains(s[1..], sub))
  }

  /** `sub` occurs in `s` starting at index `i`. */
  predicate OccursAt(s: string, sub: string, i: int)
  {
    0 <= i <= |s| - |sub| && s[i..i + |sub|] == sub
  }

  /** The search agrees with the positional definition of a substring. */
  lemma {:induction false} ContainsIffOccurs(s: string, sub: string)
    ensures Contains(s, sub) <==> exists i :: OccursAt(s, sub, i)
    decreases |s|
  {
    if StartsWith(s, sub) {
      assert OccursAt(s, sub, 0);
    } else if |s| == 0 {
    } else {
      ContainsIffOccurs(s[1..], sub);
      if Contains(s, sub) {
        var i :| OccursAt(s[1..], sub, i);
        assert s[i + 1..i + 1 + |sub|] == s[1..][i..i + |sub|];
        assert OccursAt(s, sub, i + 1);
      }
      if exists i :: OccursAt(s, sub, i) {
        var i :| OccursAt(s, sub, i);
        assert i != 0;
        assert s[1..][i - 1..i - 1 + |sub|] == s[i..i + |sub|];
        assert OccursAt(s[1..], sub, i - 1);
      }
    }
  }

  /** A string at least as long as `s` occurs in `s` only when it is `s`. */
  lemma {:induction false} ContainsNoShorter(s: string, sub: string)
    requires |sub| >= |s|
    ensures Contains(s, sub) <==> s == sub
    decreases |s|
  {
    if |s| > 0 && !StartsWith(s, sub) {
      ContainsNoShorter(s[1..], sub);
    }
  }

  // ---------------------------------------------------------------------
  // Whitespace

  /** The characters matched by the regular-expression class `\s`
      (ECMAScript WhiteSpace and LineTerminator code points). */
  predicate IsSpace(c: char)
  {
    || c == ' ' || c == '\t' || c == '\n' || c == '\r'
    || c == '\U{000B}' || c == '\U{000C}' || c == '\U{00A0}' || c == '\U{1680}'
    || ('\U{2000}' <= c <= '\U{200A}')
    || c == '\U{2028}' || c == '\U{2029}' || c == '\U{202F}' || c == '\U{205F}'
    || c == '\U{3000}' || c == '\U{FEFF}'
  }

  /** `s.replace(/\s+/g, '')`: every whitespace character removed. A
      single character is dropped exactly when it is whitespace; together
      with `StripSpacesAppend` this fixes the result for every string. */
  function StripSpaces(s: string): (r: string)
    ensures forall i :: 0 <= i < |r| ==> !IsSpace(r[i])
    ensures |r| <= |s|
    ensures |s| == 1 ==> r == if IsSpace(s[0]) then [] else s
  {
    if |s| == 0 then []
    else if IsSpace(s[0]) then StripSpaces(s[1..])
    else [s[0]] + StripSpaces(s[1..])
  }

  /** The characters left are exactly the non-space characters of `s`. */
  lemma {:induction false} StripSpacesKeepsNonSpaces(s: string)
    ensures forall c :: c in StripSpaces(s) <==> c in s && !IsSpace(c)
  {
    if |s| > 0 {
      StripSpacesKeepsNonSpaces(s[1..]);
      assert s == [s[0]] + s[1..];
    }
  }

  /** Stripping a concatenation strips each part and keeps them in order,
      so every non-space character survives once, in its place. */
  lemma {:induction false} StripSpacesAppend(a: string, b: string)
    ensures StripSpaces(a + b) == StripSpaces(a) + StripSpaces(b)
    decreases |a|
  {
    if |a| == 0 {
      assert a + b == b;
    } else {
      assert (a + b)[0] == a[0];
      assert (a + b)[1..] == a[1..] + b;
      StripSpacesAppend(a[1..], b);
      if !IsSpace(a[0]) {
        assert [a[0]] + (StripSpaces(a[1..]) + StripSpaces(b))
            == ([a[0]] + StripSpaces(a[1..])) + StripSpaces(b);
      }
    }
  }

  /** Case folding never turns a space into a letter or back, so it
      commutes with removing spaces. */
  lemma {:induction false} StripSpacesLowerCommute(s: string)
    ensures StripSpaces(Lower(s)) == Lower(StripSpaces(s))
  {
    if |s| > 0 {
      StripSpacesLowerCommute(s[1..]);
      assert Lower(s) == [LowerChar(s[0])] + Lower(s[1..]);
      assert Lower(s)[1..] == Lower(s[1..]);
      assert IsSpace(LowerChar(s[0])) == IsSpace(s[0]);
      if !IsSpace(s[0]) {
        assert Lower([s[0]] + StripSpaces(s[1..])) == [LowerChar(s[0])] + Lower(StripSpaces(s[1..]));
      }
    }
  }

  /** A string without whitespace is left as it is. */
  lemma {:induction false} StripSpacesKeepsClean(s: string)
    requires forall i :: 0 <= i < |s| ==> !IsSpace(s[i])
    ensures StripSpaces(s) == s
  {
    if |s| > 0 {
      StripSpacesKeepsClean(s[1..]);
    }
  }

  // ---------------------------------------------------------------------
  // Lexicographic comparison (JavaScript `a < b` on strings)

  /** `a < b` on JavaScript strings: the first differing character decides,
      and a proper prefix comes first. Characters are compared as code
      points, where JavaScript compares UTF-16 code units; the two orders
      differ only when a character above U+FFFF meets one in
      U+E000..U+FFFF, which no digit string or date holds. */
  predicate LexLess(a: string, b: string)
    decreases |a|
  {
    if |a| == 0 then |b| > 0
    else if |b| == 0 then false
    else if a[0] != b[0] then a[0] < b[0]
    else LexLess(a[1..], b[1..])
  }

  lemma {:induction false} LexLessIrreflexive(a: string)
    ensures !LexLess(a, a)
    decreases |a|
  {
    if |a| > 0 {
      LexLessIrreflexive(a[1..]);
    }
  }

  /** For strings of equal length, comparing a concatenation compares the
      first parts, and the second parts only when the first parts agree. */
  lemma {:induction false} LexLessConcat(a1: string, a2: string, b1: string, b2: string)
    requires |a1| == |b1|
    ensures LexLess(a1 + a2, b1 + b2) <==> LexLess(a1, b1) || (a1 == b1 && LexLess(a2, b2))
    decreases |a1|
  {
    if |a1| == 0 {
      assert a1 + a2 == a2;
      assert b1 + b2 == b2;
    } else {
      assert (a1 + a2)[0] == a1[0];
      assert (b1 + b2)[0] == b1[0];
      assert (a1 + a2)[1..] == a1[1..] + a2;
      assert (b1 + b2)[1..] == b1[1..] + b2;
      LexLessConcat(a1[1..], a2, b1[1..], b2);
      if a1[0] == b1[0] {
        assert a1 == b1 <==> a1[1..] == b1[1..] by {
          if a1[1..] == b1[1..] {
            assert a1 == [a1[0]] + a1[1..];
            assert b1 == [b1[0]] + b1[1..];
          }
        }
      }
    }
  }

  // ---------------------------------------------------------------------
  // Decimal digit strings

  predicate IsDigit(c: char)
  {
    '0' <= c <= '9'
  }

  predicate AllDigits(s: string)
  {
    forall i :: 0 <= i < |s| ==> IsDigit(s[i])
  }

  function DigitValue(c: char): nat
    requires IsDigit(c)
  {
    c as int - '0' as int
  }

  function Pow10(n: nat): (r: nat)
    ensures r >= 1
  {
    if n == 0 then 1 else 10 * Pow10(n - 1)
  }

  /** The number a decimal digit string denotes, leading digit first. */
  function DigitsValue(s: string): nat
    requires AllDigits(s)
  {
    if |s| == 0 then 0
    else DigitValue(s[0]) * Pow10(|s| - 1) + DigitsValue(s[1..])
  }

  lemma ScaleAtMost(d: nat, p: nat)
    requires d <= 9
    ensures d * p <= 9 * p
  {
  }

  /** With place value p, a smaller leading digit gives a smaller number
      whatever the lower digits are. */
  lemma LeadingDigitDecides(da: nat, db: nat, ra: nat, rb: nat, p: nat)
    requires da < db && ra < p && rb < p
    ensures da * p + ra < db * p + rb
  {
    assert (db - da) * p >= p by {
      assert db - da >= 1;
    }
    assert (db - da) * p == db * p - da * p;
  }

  /** A digit string of width n denotes a number below 10^n. */
  lemma {:induction false} DigitsValueBound(s: string)
    requires AllDigits(s)
    ensures DigitsValue(s) < Pow10(|s|)
    decreases |s|
  {
    if |s| > 0 {
      DigitsValueBound(s[1..]);
      ScaleAtMost(DigitValue(s[0]), Pow10(|s| - 1));
    }
  }

  /** A number written as a leading digit at place value p over a
      remainder below p compares by the leading digit first, then by the
      remainder. */
  lemma PlaceValueOrder(da: nat, db: nat, ra: nat, rb: nat, p: nat)
    requires ra < p && rb < p
    ensures da * p + ra < db * p + rb <==> da < db || (da == db && ra < rb)
    ensures da * p + ra == db * p + rb <==> da == db && ra == rb
  {
    if da < db {
      LeadingDigitDecides(da, db, ra, rb, p);
    } else if db < da {
      LeadingDigitDecides(db, da, rb, ra, p);
    }
  }

  /** Two digit strings of one width compare by their leading digits
      first, then by the rest. */
  lemma LeadingDigitsCompare(a: string, b: string)
    requires AllDigits(a) && AllDigits(b) && |a| == |b| > 0
    ensures DigitsValue(a) < DigitsValue(b) <==>
      DigitValue(a[0]) < DigitValue(b[0]) ||
      (DigitValue(a[0]) == DigitValue(b[0]) && DigitsValue(a[1..]) < DigitsValue(b[1..]))
    ensures DigitsValue(a) == DigitsValue(b) <==>
      DigitValue(a[0]) == DigitValue(b[0]) && DigitsValue(a[1..]) == DigitsValue(b[1..])
  {
    DigitsValueBound(a[1..]);
    DigitsValueBound(b[1..]);
    PlaceValueOrder(DigitValue(a[0]), DigitValue(b[0]), DigitsValue(a[1..]), DigitsValue(b[1..]), Pow10(|a| - 1));
  }

  /** For digit strings of one width, lexicographic order is numeric order,
      and equal strings are exactly equal numbers. */
  lemma {:induction false} FixedWidthLexIsNumeric(a: string, b: string)
    requires AllDigits(a) && AllDigits(b) && |a| == |b|
    ensures LexLess(a, b) <==> DigitsValue(a) < DigitsValue(b)
    ensures a == b <==> DigitsValue(a) == DigitsValue(b)
    decreases |a|
  {
    if |a| > 0 {
      FixedWidthLexIsNumeric(a[1..], b[1..]);
      LeadingDigitsCompare(a, b);
      assert a[0] == b[0] <==> DigitValue(a[0]) == DigitValue(b[0]);
      assert a[0] < b[0] <==> DigitValue(a[0]) < DigitValue(b[0]);
      assert a == b <==> a[0] == b[0] && a[1..] == b[1..] by {
        assert a == [a[0]] + a[1..];
        assert b == [b[0]] + b[1..];
      }
    }
  }
}
