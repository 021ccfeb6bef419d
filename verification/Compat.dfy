/** Classifying product versions: the Semantic Versioning 2.0.0 grammar with an optional leading v, overflow-free
    comparison of decimal components, and eligibility for the known adapter. */
module Compat {
  import opened Text

  // Grammar.

  predicate IsDigit(c: char) {
    '0' <= c <= '9'
  }

  predicate IsIdentifierChar(c: char) {
    IsDigit(c) || 'a' <= c <= 'z' || 'A' <= c <= 'Z' || c == '-'
  }

  predicate AllDigits(s: string) {
    forall i :: 0 <= i < |s| ==> IsDigit(s[i])
  }

  /** 0, or digits without a leading zero. */
  predicate Canonical(s: string) {
    s != [] && AllDigits(s) && (s[0] != '0' || |s| == 1)
  }

  predicate BuildIdentifier(s: string) {
    s != [] && forall i :: 0 <= i < |s| ==> IsIdentifierChar(s[i])
  }

  /** A numeric prerelease identifier has no leading zero. */
  predicate PrereleaseIdentifier(s: string) {
    BuildIdentifier(s) && (AllDigits(s) ==> Canonical(s))
  }

  predicate ValidBuild(s: string) {
    forall part :: part in Split(s) ==> BuildIdentifier(part)
  }

  predicate ValidPrerelease(s: string) {
    forall part :: part in Split(s) ==> PrereleaseIdentifier(part)
  }

  /** The prerelease is empty when there is none. */
  datatype ProductVersion = ProductVersion(major: string, minor: string, patch: string, prerelease: string)

  predicate WellFormed(v: ProductVersion) {
    Canonical(v.major) && Canonical(v.minor) && Canonical(v.patch) && (v.prerelease == "" || ValidPrerelease(v.prerelease))
  }

  function Joined(a: string, c: char, b: string): string {
    a + [c] + b
  }

  function Numbers(v: ProductVersion): string {
    Joined(v.major, '.', Joined(v.minor, '.', v.patch))
  }

  function Core(v: ProductVersion): string {
    if v.prerelease == "" then Numbers(v) else Joined(Numbers(v), '-', v.prerelease)
  }

  function Body(v: ProductVersion, build: Option<string>): string {
    if build.None? then Core(v) else Joined(Core(v), '+', build.value)
  }

  /** The text of a version: major.minor.patch-prerelease+build, with or without a leading v. */
  function Render(leadingV: bool, v: ProductVersion, build: Option<string>): string {
    if leadingV then "v" + Body(v, build) else Body(v, build)
  }

  // Parsing.

  /** The text before a separator, and the text after it if there is one. */
  datatype Halves = Halves(before: string, after: Option<string>)

  /** Cuts at the first c. */
  function Cut(s: string, c: char): Halves {
    if s == [] then Halves("", None)
    else if s[0] == c then Halves("", Some(s[1..]))
    else
      var rest := Cut(s[1..], c);
      Halves([s[0]] + rest.before, rest.after)
  }

  lemma {:induction false} CutFacts(s: string, c: char)
    ensures var h := Cut(s, c);
            c !in h.before && s == if h.after.None? then h.before else Joined(h.before, c, h.after.value)
  {
    if s != [] && s[0] != c {
      CutFacts(s[1..], c);
      assert s == [s[0]] + s[1..];
    }
  }

  lemma {:induction false} CutJoined(a: string, c: char, b: string)
    requires c !in a
    ensures Cut(Joined(a, c, b), c) == Halves(a, Some(b))
  {
    if a == [] {
      assert Joined(a, c, b)[1..] == b;
    } else {
      assert Joined(a, c, b)[1..] == Joined(a[1..], c, b);
      CutJoined(a[1..], c, b);
    }
  }

  lemma {:induction false} CutWhole(a: string, c: char)
    requires c !in a
    ensures Cut(a, c) == Halves(a, None)
  {
    if a != [] {
      CutWhole(a[1..], c);
    }
  }

  /** The parts between full stops. */
  function Split(s: string): seq<string>
    decreases |s|
  {
    CutFacts(s, '.');
    var h := Cut(s, '.');
    if h.after.None? then [h.before] else [h.before] + Split(h.after.value)
  }

  lemma {:induction false} SplitChars(s: string, c: char)
    requires c in s && c != '.'
    ensures exists part :: part in Split(s) && c in part
    decreases |s|
  {
    CutFacts(s, '.');
    var h := Cut(s, '.');
    if c in h.before {
      assert h.before in Split(s);
    } else {
      SplitChars(h.after.value, c);
      var part :| part in Split(h.after.value) && c in part;
      assert part in Split(s);
    }
  }

  /** Splitting off the first part. */
  lemma SplitJoined(a: string, b: string)
    requires '.' !in a
    ensures Split(Joined(a, '.', b)) == [a] + Split(b) && Split(a) == [a]
  {
    CutJoined(a, '.', b);
    CutWhole(a, '.');
  }

  function ParseTrimmed(s: string): Option<ProductVersion> {
    var body := if s != [] && s[0] == 'v' then s[1..] else s;
    var withBuild := Cut(body, '+');
    var core := Cut(withBuild.before, '-');
    var fields := Split(core.before);
    if (withBuild.after.None? || ValidBuild(withBuild.after.value)) && (core.after.None? || ValidPrerelease(core.after.value))
       && |fields| == 3 && Canonical(fields[0]) && Canonical(fields[1]) && Canonical(fields[2])
    then Some(ProductVersion(fields[0], fields[1], fields[2], if core.after.None? then "" else core.after.value))
    else None
  }

  function Parse(version: string): Option<ProductVersion> {
    ParseTrimmed(Trim(version))
  }

  lemma EmptyNotValid()
    ensures !ValidPrerelease("")
  {
    assert Split("") == [""];
    assert "" in Split("");
  }

  lemma SplitOfThree(s: string)
    requires |Split(s)| == 3
    ensures s == Joined(Split(s)[0], '.', Joined(Split(s)[1], '.', Split(s)[2]))
  {
    hide Joined;
    CutFacts(s, '.');
    var rest := Cut(s, '.').after.value;
    assert Split(s) == [Cut(s, '.').before] + Split(rest);
    CutFacts(rest, '.');
    var last := Cut(rest, '.').after.value;
    assert Split(rest) == [Cut(rest, '.').before] + Split(last);
    CutFacts(last, '.');
    assert Cut(last, '.').after.None?;
  }

  /** Everything a parse accepts is the text of the well-formed version it returns. */
  lemma ParseSound(s: string)
    requires ParseTrimmed(s).Some?
    ensures WellFormed(ParseTrimmed(s).value)
    ensures exists leadingV, build :: s == Render(leadingV, ParseTrimmed(s).value, build) && (build.Some? ==> ValidBuild(build.value))
  {
    hide ValidPrerelease, ValidBuild, Canonical, Joined, Cut, Split;
    var v := ParseTrimmed(s).value;
    var leadingV := s != [] && s[0] == 'v';
    var body := if leadingV then s[1..] else s;
    var withBuild := Cut(body, '+');
    var core := Cut(withBuild.before, '-');
    CutFacts(body, '+');
    CutFacts(withBuild.before, '-');
    SplitOfThree(core.before);
    EmptyNotValid();
    assert leadingV ==> s == "v" + s[1..];
    assert s == Render(leadingV, v, withBuild.after);
  }

  lemma CanonicalChars(s: string)
    requires Canonical(s)
    ensures s != [] && '.' !in s && '-' !in s && '+' !in s && s[0] != 'v'
  {
  }

  lemma PrereleaseChars(s: string)
    requires ValidPrerelease(s)
    ensures '+' !in s
  {
    hide Split;
    if '+' in s {
      SplitChars(s, '+');
      assert false;
    }
  }

  /** The text of every well-formed version parses back to it, whatever the build metadata. */
  lemma ParseComplete(leadingV: bool, v: ProductVersion, build: Option<string>)
    requires WellFormed(v) && (build.Some? ==> ValidBuild(build.value))
    ensures ParseTrimmed(Render(leadingV, v, build)) == Some(v)
  {
    hide ValidPrerelease, ValidBuild, Canonical, Split, Cut, Joined;
    BodyStart(v, build);
    var s := Render(leadingV, v, build);
    assert (if s != [] && s[0] == 'v' then s[1..] else s) == Body(v, build);
    NumbersFacts(v);
    CoreFacts(v);
    if build.Some? {
      CutJoined(Core(v), '+', build.value);
    } else {
      CutWhole(Core(v), '+');
    }
  }

  lemma BodyStart(v: ProductVersion, build: Option<string>)
    requires WellFormed(v)
    ensures Body(v, build) != [] && Body(v, build)[0] != 'v'
  {
    CanonicalChars(v.major);
  }

  lemma NumbersFacts(v: ProductVersion)
    requires WellFormed(v)
    ensures Split(Numbers(v)) == [v.major, v.minor, v.patch] && '-' !in Numbers(v) && '+' !in Numbers(v)
  {
    hide Split, ValidPrerelease, Canonical;
    CanonicalChars(v.major);
    CanonicalChars(v.minor);
    CanonicalChars(v.patch);
    SplitJoined(v.major, Joined(v.minor, '.', v.patch));
    SplitJoined(v.minor, v.patch);
    SplitJoined(v.patch, "");
  }

  /** The core contains no build separator and is cut before the prerelease. */
  lemma CoreFacts(v: ProductVersion)
    requires WellFormed(v)
    ensures '+' !in Core(v)
    ensures Cut(Core(v), '-') == Halves(Numbers(v), if v.prerelease == "" then None else Some(v.prerelease))
  {
    hide ValidPrerelease, Canonical, Cut, Split, Numbers;
    NumbersFacts(v);
    if v.prerelease == "" {
      CutWhole(Numbers(v), '-');
    } else {
      CutJoined(Numbers(v), '-', v.prerelease);
      PrereleaseChars(v.prerelease);
    }
  }
}
