/** Support decided on text, and the numeric precedence of section 11 of Semantic Versioning 2.0.0. */
module Precedence {
  import opened Text
  import opened Compat

  // Decimal comparison.

  function Pow10(n: nat): (r: nat)
    ensures r > 0
  {
    if n == 0 then 1 else 10 * Pow10(n - 1)
  }

  function DigitValue(c: char): nat
    requires IsDigit(c)
  {
    (c - '0') as nat
  }

  /** The number a digit string denotes. */
  function Numeral(s: string): nat
    requires AllDigits(s)
  {
    if s == [] then 0 else DigitValue(s[0]) * Pow10(|s| - 1) + Numeral(s[1..])
  }

  /** Compares lengths first, then digits; no number is ever formed. */
  predicate DecimalLess(left: string, right: string) {
    if |left| != |right| then |left| < |right| else Less(left, right)
  }

  lemma {:induction false} Scale(d: nat, e: nat, p: nat)
    requires d < e
    ensures d * p + p <= e * p
  {
    assert e * p == (e - 1) * p + p;
    if d < e - 1 {
      Scale(d, e - 1, p);
    }
  }

  lemma {:induction false} NumeralBound(s: string)
    requires AllDigits(s)
    ensures Numeral(s) < Pow10(|s|)
  {
    if s != [] {
      NumeralBound(s[1..]);
      Scale(DigitValue(s[0]), 10, Pow10(|s| - 1));
    }
  }

  lemma {:induction false} PowMonotone(m: nat, n: nat)
    requires m <= n
    ensures Pow10(m) <= Pow10(n)
  {
    if m < n {
      PowMonotone(m, n - 1);
    }
  }

  /** A smaller leading digit makes a smaller number. */
  lemma SmallerHead(a: string, b: string)
    requires AllDigits(a) && AllDigits(b) && |a| == |b| > 0 && a[0] < b[0]
    ensures Numeral(a) < Numeral(b)
  {
    hide Pow10;
    NumeralBound(a[1..]);
    Scale(DigitValue(a[0]), DigitValue(b[0]), Pow10(|a| - 1));
  }

  lemma {:induction false} SameLength(a: string, b: string)
    requires AllDigits(a) && AllDigits(b) && |a| == |b|
    ensures Less(a, b) <==> Numeral(a) < Numeral(b)
  {
    hide Pow10;
    if a != [] {
      if a[0] < b[0] {
        SmallerHead(a, b);
      } else if b[0] < a[0] {
        SmallerHead(b, a);
      } else {
        SameLength(a[1..], b[1..]);
      }
    }
  }

  lemma ShorterIsLess(a: string, b: string)
    requires Canonical(a) && Canonical(b) && |a| < |b|
    ensures Numeral(a) < Numeral(b)
  {
    hide Pow10;
    NumeralBound(a);
    PowMonotone(|a|, |b| - 1);
    Scale(0, DigitValue(b[0]), Pow10(|b| - 1));
  }

  /** On canonical digit strings of any length, decimalLess is numeric less-than, and equality is equality. */
  lemma DecimalLessNumeric(a: string, b: string)
    requires Canonical(a) && Canonical(b)
    ensures DecimalLess(a, b) <==> Numeral(a) < Numeral(b)
    ensures a == b <==> Numeral(a) == Numeral(b)
  {
    if |a| < |b| {
      ShorterIsLess(a, b);
    } else if |b| < |a| {
      ShorterIsLess(b, a);
    } else {
      SameLength(a, b);
      SameLength(b, a);
      LessTotal(a, b);
    }
  }

  // Precedence.

  /** Identifier precedence: numbers by value and below words, words in ASCII order. */
  predicate IdentifierPrecedes(a: string, b: string) {
    if AllDigits(a) && AllDigits(b) then Numeral(a) < Numeral(b)
    else if AllDigits(a) then true
    else if AllDigits(b) then false
    else Less(a, b)
  }

  /** The first difference decides; a proper prefix has lower precedence. */
  predicate IdentifiersPrecede(a: seq<string>, b: seq<string>) {
    b != [] && (a == [] || IdentifierPrecedes(a[0], b[0]) || (a[0] == b[0] && IdentifiersPrecede(a[1..], b[1..])))
  }

  /** A prerelease has lower precedence than the release. */
  predicate PrereleasePrecedes(a: string, b: string) {
    if a == "" then false else if b == "" then true else IdentifiersPrecede(Split(a), Split(b))
  }

  predicate Precedes(a: ProductVersion, b: ProductVersion)
    requires WellFormed(a) && WellFormed(b)
  {
    if Numeral(a.major) != Numeral(b.major) then Numeral(a.major) < Numeral(b.major)
    else if Numeral(a.minor) != Numeral(b.minor) then Numeral(a.minor) < Numeral(b.minor)
    else if Numeral(a.patch) != Numeral(b.patch) then Numeral(a.patch) < Numeral(b.patch)
    else PrereleasePrecedes(a.prerelease, b.prerelease)
  }

  // Classification.

  datatype Compatibility = Supported | Unsupported | Unknown

  datatype ApiGeneration = UnknownGeneration | LegacyControl

  const MINIMUM := ProductVersion("0", "107", "78", "")

  function Classify(version: string): Compatibility {
    match Parse(version)
    case None => Unknown
    case Some(v) =>
      if v.major != "0" && v.major != "1" then Unknown
      else if v.major == "0"
              && (DecimalLess(v.minor, "107")
                  || (v.minor == "107" && (DecimalLess(v.patch, "78") || (v.patch == "78" && v.prerelease != ""))))
      then Unsupported
      else Supported
  }

  function Generation(version: string): ApiGeneration {
    match Parse(version)
    case None => UnknownGeneration
    case Some(v) => if v.major == "0" || v.major == "1" then LegacyControl else UnknownGeneration
  }

  predicate IsProvisionallyCompatible(version: string) {
    && Classify(version) == Supported
    && var v := Parse(version).value;
       !(v.major == "0" && v.minor == "107" && (v.patch == "78" || v.patch == "79") && v.prerelease == "")
  }

  predicate KnownMajor(v: ProductVersion)
    requires WellFormed(v)
  {
    Numeral(v.major) <= 1
  }

  lemma Constants()
    ensures Canonical("0") && Canonical("1") && Canonical("107") && Canonical("78") && Canonical("79") && WellFormed(MINIMUM)
    ensures Numeral("0") == 0 && Numeral("1") == 1 && Numeral("107") == 107 && Numeral("78") == 78 && Numeral("79") == 79
  {
    assert "107"[1..] == "07" && "07"[1..] == "7" && "7"[1..] == "";
    assert "79"[1..] == "9" && "9"[1..] == "" && Numeral("9") == 9;
    assert "78"[1..] == "8" && "8"[1..] == "" && "0"[1..] == "" && "1"[1..] == "";
    assert Pow10(1) == 10 && Pow10(2) == 100;
    assert Numeral("7") == 7 && Numeral("8") == 8;
  }

  /** A version is supported exactly when it is well formed, its major is 0 or 1 and it does not precede 0.107.78;
      it is unsupported exactly when such a version precedes 0.107.78. */
  lemma SupportIsPrecedence(version: string)
    ensures Parse(version).Some? ==> WellFormed(Parse(version).value)
    ensures WellFormed(MINIMUM)
    ensures Classify(version) == Supported <==>
            Parse(version).Some? && KnownMajor(Parse(version).value) && !Precedes(Parse(version).value, MINIMUM)
    ensures Classify(version) == Unsupported <==>
            Parse(version).Some? && KnownMajor(Parse(version).value) && Precedes(Parse(version).value, MINIMUM)
    ensures Generation(version) == LegacyControl <==> Parse(version).Some? && KnownMajor(Parse(version).value)
  {
    hide ParseTrimmed, Numeral, Canonical, ValidPrerelease, DecimalLess;
    Constants();
    if Parse(version).Some? {
      ParseSound(Trim(version));
      var v := Parse(version).value;
      DecimalLessNumeric(v.major, "0");
      DecimalLessNumeric(v.major, "1");
      DecimalLessNumeric(v.minor, "107");
      DecimalLessNumeric(v.patch, "78");
    }
  }

  /** Within majors 0 and 1 support is upward closed: no supported version has an unsupported one above it. */
  lemma SupportUpwardClosed(lower: string, higher: string)
    requires Classify(lower) == Supported && Parse(higher).Some?
    ensures WellFormed(Parse(lower).value) && WellFormed(Parse(higher).value)
    ensures KnownMajor(Parse(higher).value) && !Precedes(Parse(higher).value, Parse(lower).value) ==>
              Classify(higher) == Supported
  {
    hide ParseTrimmed, Numeral, Canonical, ValidPrerelease, Classify, Split;
    SupportIsPrecedence(lower);
    SupportIsPrecedence(higher);
  }

  /** One of the two releases that are not provisional. */
  predicate KnownRelease(v: ProductVersion)
    requires WellFormed(v)
  {
    Numeral(v.major) == 0 && Numeral(v.minor) == 107 && (Numeral(v.patch) == 78 || Numeral(v.patch) == 79) && v.prerelease == ""
  }

  /** Provisional means supported and neither 0.107.78 nor 0.107.79; both of these are supported, not provisional. */
  lemma ProvisionalExactly(version: string)
    ensures Parse(version).Some? ==> WellFormed(Parse(version).value)
    ensures IsProvisionallyCompatible(version) <==> Classify(version) == Supported && !KnownRelease(Parse(version).value)
    ensures Parse(version).Some? && KnownRelease(Parse(version).value) ==>
              Classify(version) == Supported && !IsProvisionallyCompatible(version)
  {
    hide ParseTrimmed, Numeral, Canonical, ValidPrerelease, Classify;
    Constants();
    SupportIsPrecedence(version);
    if Parse(version).Some? {
      var v := Parse(version).value;
      DecimalLessNumeric(v.major, "0");
      DecimalLessNumeric(v.minor, "107");
      DecimalLessNumeric(v.patch, "78");
      DecimalLessNumeric(v.patch, "79");
    }
  }
}
