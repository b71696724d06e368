/**
 * `is_newer`: the update check's simplified version comparison. A
 * version is read as (major, minor, patch); everything from the first
 * `-` on (a pre-release tag in Semantic Versioning 2.0.0) is ignored,
 * and a missing or non-numeric component counts as 0.
 */
module Version {
  import opened Wrappers
  import opened Text
  import opened Numbers

  datatype Triple = Triple(major: nat, minor: nat, patch: nat)

  /** `s.split('-').next()`: the text before the first `-`. */
  function Core(s: string): (r: string)
    ensures '-' !in r
    ensures '-' !in s ==> r == s
  {
    Split(s, '-')[0]
  }

  /** `splitn(3, '.')`: at most three pieces, the last one keeping any further dots. */
  function SplitN3(s: string): (r: seq<string>)
    ensures 1 <= |r| <= 3
  {
    if '.' !in s then [s]
    else
      var i := IndexOf(s, '.');
      var rest := s[i + 1..];
      if '.' !in rest then [s[..i], rest]
      else
        var j := IndexOf(rest, '.');
        [s[..i], rest[..j], rest[j + 1..]]
  }

  function Component(parts: seq<string>, i: nat): nat {
    if i < |parts| then ParseUnsigned(parts[i]).UnwrapOr(0) else 0
  }

  function Parse(s: string): (t: Triple)
  {
    var parts := SplitN3(Core(s));
    Triple(Component(parts, 0), Component(parts, 1), Component(parts, 2))
  }

  /** The derived tuple ordering of Rust: lexicographic on the three components. */
  predicate Greater(a: Triple, b: Triple) {
    a.major > b.major
    || (a.major == b.major && a.minor > b.minor)
    || (a.major == b.major && a.minor == b.minor && a.patch > b.patch)
  }

  predicate IsNewer(candidate: string, current: string) {
    Greater(Parse(candidate), Parse(current))
  }

  /** A version is never newer than itself, and of two versions at most one is newer. */
  lemma IsNewerStrict(a: string, b: string)
    ensures !IsNewer(a, a)
    ensures IsNewer(a, b) ==> !IsNewer(b, a)
  {
  }

  lemma IsNewerTransitive(a: string, b: string, c: string)
    requires IsNewer(a, b) && IsNewer(b, c)
    ensures IsNewer(a, c)
  {
  }

  /** Two versions with the same numbers are not newer than each other, whatever tag follows. */
  lemma PrereleaseIgnored(v: string, tag: string)
    requires '-' !in v
    ensures Parse(v + "-" + tag) == Parse(v)
    ensures !IsNewer(v + "-" + tag, v) && !IsNewer(v, v + "-" + tag)
  {
    var s := v + "-" + tag;
    IndexOfAfterPrefix(v, "-" + tag, '-');
    assert s == v + ("-" + tag);
    assert s[..|v|] == v;
  }

  function Render(t: Triple): (s: string)
  {
    NatToString(t.major) + "." + NatToString(t.minor) + "." + NatToString(t.patch)
  }

  /** "major.minor.patch" is read back as the numbers it was written from. */
  lemma ParseRender(t: Triple)
    requires t.major <= U64Max && t.minor <= U64Max && t.patch <= U64Max
    ensures Parse(Render(t)) == t
  {
    var a, b, c := NatToString(t.major), NatToString(t.minor), NatToString(t.patch);
    NoSeparator(a, '-'); NoSeparator(b, '-'); NoSeparator(c, '-');
    NoSeparator(a, '.'); NoSeparator(b, '.'); NoSeparator(c, '.');
    assert '-' !in Render(t);
    SplitThree(a, b, c);
    ParseUnsignedRoundTrip(t.major);
    ParseUnsignedRoundTrip(t.minor);
    ParseUnsignedRoundTrip(t.patch);
  }

  /** Three dot-free pieces joined by dots split back into those pieces. */
  lemma SplitThree(a: string, b: string, c: string)
    requires '.' !in a && '.' !in b && '.' !in c
    ensures SplitN3(a + "." + b + "." + c) == [a, b, c]
  {
    var s := a + "." + b + "." + c;
    assert s == a + ("." + (b + "." + c));
    IndexOfAfterPrefix(a, "." + (b + "." + c), '.');
    assert s[..|a|] == a;
    var rest := s[|a| + 1..];
    assert rest == b + ("." + c);
    IndexOfAfterPrefix(b, "." + c, '.');
    assert rest[..|b|] == b;
    assert rest[|b| + 1..] == c;
  }

  lemma NoSeparator(d: string, c: char)
    requires forall k :: 0 <= k < |d| ==> IsAsciiDigit(d[k])
    requires !IsAsciiDigit(c)
    ensures c !in d
  {
  }

  /** Components compare as numbers, not as text: 1.10.0 is newer than 1.9.0. */
  lemma NumericComparison()
    ensures IsNewer(Render(Triple(1, 10, 0)), Render(Triple(1, 9, 0)))
  {
    ParseRender(Triple(1, 10, 0));
    ParseRender(Triple(1, 9, 0));
  }
}
