/**
 * Scanners for the three Jira issue-key patterns of the program, each
 * following the leftmost-first search of a regular expression engine:
 *
 *  - `([a-zA-Z]+-[0-9]+)` in the Jira service (`LetterKeys(s, AnyCase)`),
 *  - `([A-Z]+-\d+)` in meeting auto-linking (`LetterKeys(s, UpperOnly)`),
 *  - `(?i)\b([A-Z][A-Z0-9]+-\d+)\b` in GitHub event scanning and manual
 *    meeting linking (`BoundedKeys(s)`).
 *
 * Character classes are ASCII: `\d`, `\w` and case-insensitive letters
 * outside ASCII are not modelled.
 */
module IssueKeys {
  import opened Wrappers
  import opened Text

  datatype LetterClass = AnyCase | UpperOnly

  predicate InClass(c: char, cls: LetterClass) {
    if cls == AnyCase then IsAsciiLetter(c) else IsAsciiUpper(c)
  }

  /** Length of the longest prefix of `s` made of `cls` letters. */
  function ClassRun(s: string, cls: LetterClass): (n: nat)
    ensures n <= |s|
    ensures forall k :: 0 <= k < n ==> InClass(s[k], cls)
    ensures n < |s| ==> !InClass(s[n], cls)
  {
    if |s| == 0 || !InClass(s[0], cls) then 0 else 1 + ClassRun(s[1..], cls)
  }

  /** Length of the longest prefix of `s` made of ASCII digits. */
  function DigitRun(s: string): (n: nat)
    ensures n <= |s|
    ensures forall k :: 0 <= k < n ==> IsAsciiDigit(s[k])
    ensures n < |s| ==> !IsAsciiDigit(s[n])
  {
    if |s| == 0 || !IsAsciiDigit(s[0]) then 0 else 1 + DigitRun(s[1..])
  }

  /** `w` is one or more `cls` letters, a hyphen, then one or more digits. */
  predicate IsLetterKey(w: string, cls: LetterClass) {
    var n := ClassRun(w, cls);
    1 <= n && n + 1 < |w| && w[n] == '-' && forall k :: n < k < |w| ==> IsAsciiDigit(w[k])
  }

  /** The length of the greedy match of the pattern at the start of `s`, or 0. */
  function LetterMatchLen(s: string, cls: LetterClass): (r: nat)
    ensures r <= |s|
  {
    var n := ClassRun(s, cls);
    if 1 <= n && n + 1 < |s| && s[n] == '-' && IsAsciiDigit(s[n + 1]) then n + 1 + DigitRun(s[n + 1..])
    else 0
  }

  /** A successful match is a key, and the digits it takes are all the digits there. */
  lemma LetterMatchSound(s: string, cls: LetterClass)
    ensures var r := LetterMatchLen(s, cls);
            r > 0 ==> IsLetterKey(s[..r], cls) && (r == |s| || !IsAsciiDigit(s[r]))
  {
    var r := LetterMatchLen(s, cls);
    if r > 0 {
      ClassRunPrefix(s, r, cls);
      var n := ClassRun(s, cls);
      assert forall k :: n < k < r ==> s[..r][k] == s[n + 1..][k - n - 1];
    }
  }

  lemma {:induction false} ClassRunPrefix(s: string, r: nat, cls: LetterClass)
    requires ClassRun(s, cls) < r <= |s|
    ensures ClassRun(s[..r], cls) == ClassRun(s, cls)
    decreases |s|
  {
    if ClassRun(s, cls) > 0 {
      assert s[..r][1..] == s[1..][..r - 1];
      ClassRunPrefix(s[1..], r - 1, cls);
    }
  }

  /** Every match of the pattern in `s`, left to right (`find_iter`). */
  function LetterKeys(s: string, cls: LetterClass): (r: seq<string>)
    decreases |s|
  {
    if |s| == 0 then []
    else if !InClass(s[0], cls) then LetterKeys(s[1..], cls)
    else
      var m := LetterMatchLen(s, cls);
      if m > 0 then [s[..m]] + LetterKeys(s[m..], cls)
      else LetterKeys(s[ClassRun(s, cls)..], cls)
  }

  /** Everything the scanner returns has the key shape. */
  lemma {:induction false} LetterKeysAreKeys(s: string, cls: LetterClass)
    ensures forall i :: 0 <= i < |LetterKeys(s, cls)| ==> IsLetterKey(LetterKeys(s, cls)[i], cls)
    decreases |s|
  {
    if |s| > 0 {
      if !InClass(s[0], cls) {
        LetterKeysAreKeys(s[1..], cls);
      } else if LetterMatchLen(s, cls) > 0 {
        LetterMatchSound(s, cls);
        LetterKeysAreKeys(s[LetterMatchLen(s, cls)..], cls);
      } else {
        LetterKeysAreKeys(s[ClassRun(s, cls)..], cls);
      }
    }
  }

  /** Some slice of `s` has the shape letters-hyphen-digits. */
  predicate HasLetterKeySlice(s: string, cls: LetterClass) {
    exists i, j :: 0 <= i <= j <= |s| && IsLetterKey(s[i..j], cls)
  }

  /** The scanner finds a match exactly when some slice of the text has the key shape. */
  lemma LetterKeysFound(s: string, cls: LetterClass)
    ensures |LetterKeys(s, cls)| > 0 <==> HasLetterKeySlice(s, cls)
  {
    if |LetterKeys(s, cls)| > 0 {
      FoundIsSlice(s, cls);
    }
    if HasLetterKeySlice(s, cls) {
      var i, j :| 0 <= i <= j <= |s| && IsLetterKey(s[i..j], cls);
      SliceIsFound(s, i, j, cls);
    }
  }

  lemma FoundIsSlice(s: string, cls: LetterClass)
    requires |LetterKeys(s, cls)| > 0
    ensures HasLetterKeySlice(s, cls)
  {
    var i, j := FoundSlice(s, cls);
  }

  /** Where a found match sits in the text. */
  lemma {:induction false} FoundSlice(s: string, cls: LetterClass) returns (i: nat, j: nat)
    requires |LetterKeys(s, cls)| > 0
    ensures i <= j <= |s| && KeyAt(s, i, j, cls)
    decreases |s|, 1
  {
    if InClass(s[0], cls) && LetterMatchLen(s, cls) > 0 {
      j := MatchAtStart(s, cls);
      i := 0;
    } else {
      i, j := FoundLater(s, cls);
    }
  }

  /** A match found after the scan has moved on is a key slice further into the text. */
  lemma {:induction false} FoundLater(s: string, cls: LetterClass) returns (i: nat, j: nat)
    requires |LetterKeys(s, cls)| > 0
    requires !InClass(s[0], cls) || LetterMatchLen(s, cls) == 0
    ensures i <= j <= |s| && KeyAt(s, i, j, cls)
    decreases |s|, 0
  {
    var off := Resume(s, cls);
    var i', j' := FoundSlice(s[off..], cls);
    i, j := ShiftedKey(s, off, i', j', cls);
  }

  /** A match at 0 is a key slice. */
  lemma MatchAtStart(s: string, cls: LetterClass) returns (m: nat)
    requires LetterMatchLen(s, cls) > 0
    ensures m == LetterMatchLen(s, cls) && m <= |s| && KeyAt(s, 0, m, cls)
  {
    m := LetterMatchLen(s, cls);
    LetterMatchSound(s, cls);
    assert s[0..m] == s[..m];
  }

  /** Where the scan goes on when no match starts at 0. */
  lemma Resume(s: string, cls: LetterClass) returns (off: nat)
    requires |s| > 0 && (!InClass(s[0], cls) || LetterMatchLen(s, cls) == 0)
    ensures 1 <= off <= |s| && LetterKeys(s, cls) == LetterKeys(s[off..], cls)
    ensures off == if !InClass(s[0], cls) then 1 else ClassRun(s, cls)
  {
    off := if !InClass(s[0], cls) then 1 else ClassRun(s, cls);
  }

  /** A key inside a suffix of the text is a key of the text, `off` places further on. */
  lemma ShiftKey(s: string, off: nat, i: nat, j: nat, cls: LetterClass)
    requires off <= |s| && i <= j <= |s| - off
    ensures KeyAt(s[off..], i, j, cls) <==> KeyAt(s, off + i, off + j, cls)
  {
    assert s[off..][i..j] == s[off + i..off + j];
  }

  /** A key slice of a suffix is the same key slice of the whole text, moved by the suffix's offset. */
  lemma ShiftedKey(s: string, off: nat, i': nat, j': nat, cls: LetterClass) returns (i: nat, j: nat)
    requires off <= |s| && i' <= j' <= |s| - off && KeyAt(s[off..], i', j', cls)
    ensures i <= j <= |s| && KeyAt(s, i, j, cls)
  {
    i, j := off + i', off + j';
    ShiftKey(s, off, i', j', cls);
  }

  lemma SliceIsFound(s: string, i: nat, j: nat, cls: LetterClass)
    requires i <= j <= |s| && IsLetterKey(s[i..j], cls)
    ensures |LetterKeys(s, cls)| > 0
  {
    KeyAtFound(s, i, j, cls);
  }

  /** The slice `s[i..j]` is a key. */
  predicate KeyAt(s: string, i: nat, j: nat, cls: LetterClass)
    requires i <= j <= |s|
  {
    IsLetterKey(s[i..j], cls)
  }

  lemma {:induction false} KeyAtFound(s: string, i: nat, j: nat, cls: LetterClass)
    requires i <= j <= |s| && KeyAt(s, i, j, cls)
    ensures |LetterKeys(s, cls)| > 0
    decreases |s|
  {
    KeyAtNonEmpty(s, i, j, cls);
    if InClass(s[0], cls) && LetterMatchLen(s, cls) > 0 {
      MatchAtStartFound(s, cls);
    } else {
      var d := ScanStep(s, i, j, cls);
      KeyAtFound(s[d..], i - d, j - d, cls);
    }
  }

  lemma KeyAtNonEmpty(s: string, i: nat, j: nat, cls: LetterClass)
    requires i <= j <= |s| && KeyAt(s, i, j, cls)
    ensures i < j
  {
  }

  lemma MatchAtStartFound(s: string, cls: LetterClass)
    requires |s| > 0 && InClass(s[0], cls) && LetterMatchLen(s, cls) > 0
    ensures |LetterKeys(s, cls)| > 0
  {
  }

  /** When no match starts at 0, the scan resumes `d` places on, still before the key slice. */
  lemma ScanStep(s: string, i: nat, j: nat, cls: LetterClass) returns (d: nat)
    requires i <= j <= |s| && KeyAt(s, i, j, cls)
    requires !InClass(s[0], cls) || LetterMatchLen(s, cls) == 0
    ensures 1 <= d <= i && KeyAt(s[d..], i - d, j - d, cls)
    ensures LetterKeys(s, cls) == LetterKeys(s[d..], cls)
  {
    d := ResumeBeforeKey(s, i, j, cls);
    UnshiftKey(s, d, i, j, cls);
  }

  /** The place the scan resumes at is not past the start of a key slice. */
  lemma ResumeBeforeKey(s: string, i: nat, j: nat, cls: LetterClass) returns (d: nat)
    requires i <= j <= |s| && KeyAt(s, i, j, cls)
    requires !InClass(s[0], cls) || LetterMatchLen(s, cls) == 0
    ensures 1 <= d <= i && LetterKeys(s, cls) == LetterKeys(s[d..], cls)
  {
    assert s[i..j][0] == s[i];
    d := Resume(s, cls);
    if InClass(s[0], cls) && i < d {
      StartInsideRunMatches(s, i, j, cls);
    }
  }

  /** A key slice of the text after offset `d` is a key slice of the suffix from `d`. */
  lemma UnshiftKey(s: string, d: nat, i: nat, j: nat, cls: LetterClass)
    requires d <= i <= j <= |s| && KeyAt(s, i, j, cls)
    ensures KeyAt(s[d..], i - d, j - d, cls)
  {
    assert s[d..][i - d..j - d] == s[i..j];
  }

  /** A key slice that starts inside the first letter run makes the match at 0 succeed. */
  lemma StartInsideRunMatches(s: string, i: nat, j: nat, cls: LetterClass)
    requires i <= j <= |s| && IsLetterKey(s[i..j], cls)
    requires i < ClassRun(s, cls)
    ensures LetterMatchLen(s, cls) > 0
  {
    var m := KeyLetters(s, i, j, cls);
    forall k | 0 <= k < i + m ensures InClass(s[k], cls) {
    }
    ClassRunExact(s, i + m, cls);
  }

  /** The letters, hyphen and first digit of a key slice, in the terms of the whole text. */
  lemma KeyLetters(s: string, i: nat, j: nat, cls: LetterClass) returns (m: nat)
    requires i <= j <= |s| && IsLetterKey(s[i..j], cls)
    ensures 1 <= m && i + m + 1 < j
    ensures s[i + m] == '-' && IsAsciiDigit(s[i + m + 1])
    ensures forall k :: i <= k < i + m ==> InClass(s[k], cls)
  {
    var w := s[i..j];
    m := ClassRun(w, cls);
    assert s[i + m] == w[m];
    assert s[i + m + 1] == w[m + 1];
    forall k | i <= k < i + m ensures InClass(s[k], cls) {
      assert s[k] == w[k - i];
    }
  }

  /** A run of `p` class letters at the start makes the letter run at least that long. */
  lemma {:induction false} ClassRunAtLeast(s: string, p: nat, cls: LetterClass)
    requires p <= |s| && forall k :: 0 <= k < p ==> InClass(s[k], cls)
    ensures ClassRun(s, cls) >= p
    decreases p
  {
    if p > 0 {
      ClassRunAtLeast(s[1..], p - 1, cls);
    }
  }

  predicate NoHyphen(s: string) { '-' !in s }

  /** Without a hyphen there is nothing to find. */
  lemma {:induction false} NoHyphenNoKeys(s: string, cls: LetterClass)
    requires NoHyphen(s)
    ensures LetterKeys(s, cls) == []
    decreases |s|
  {
    if |s| > 0 {
      if !InClass(s[0], cls) {
        NoHyphenNoKeys(s[1..], cls);
      } else {
        var n := ClassRun(s, cls);
        assert LetterMatchLen(s, cls) == 0 by {
          if n < |s| { assert s[n] != '-'; }
        }
        NoHyphenNoKeys(s[n..], cls);
      }
    }
  }

  /**
   * A hyphen-free prefix ending at a separator can hold no match and no
   * part of one, so the scan restarts after the separator.
   */
  lemma {:induction false} SkipToGap(s: string, k: nat, cls: LetterClass)
    requires k < |s| && !InClass(s[k], cls) && s[k] != '-'
    requires forall i :: 0 <= i < k ==> s[i] != '-'
    ensures LetterKeys(s, cls) == LetterKeys(s[k + 1..], cls)
    decreases k
  {
    if !InClass(s[0], cls) {
      if k > 0 {
        assert s[1..][k - 1] == s[k];
        SkipToGap(s[1..], k - 1, cls);
        assert s[1..][k..] == s[k + 1..];
      }
    } else {
      var n := ClassRun(s, cls);
      assert 1 <= n <= k;
      assert LetterMatchLen(s, cls) == 0 by {
        assert s[n] != '-';
      }
      assert s[n..][k - n] == s[k];
      SkipToGap(s[n..], k - n, cls);
      assert s[n..][k - n + 1..] == s[k + 1..];
    }
  }

  /** The letter run ends exactly at the first non-letter. */
  lemma {:induction false} ClassRunExact(w: string, n: nat, cls: LetterClass)
    requires n < |w| && !InClass(w[n], cls)
    requires forall k :: 0 <= k < n ==> InClass(w[k], cls)
    ensures ClassRun(w, cls) == n
    decreases n
  {
    if n > 0 {
      ClassRunExact(w[1..], n - 1, cls);
    }
  }

  /** The digit run ends exactly at the first non-digit or at the end. */
  lemma {:induction false} DigitRunExact(w: string, n: nat)
    requires n <= |w| && (n == |w| || !IsAsciiDigit(w[n]))
    requires forall k :: 0 <= k < n ==> IsAsciiDigit(w[k])
    ensures DigitRun(w) == n
    decreases n
  {
    if n > 0 {
      DigitRunExact(w[1..], n - 1);
    }
  }

  /**
   * Letters up to `n`, a hyphen, digits up to `e` and no digit after:
   * the match at the start of `s` is exactly `s[..e]`.
   */
  lemma MatchShape(s: string, n: nat, e: nat, cls: LetterClass)
    requires 1 <= n && n + 1 < e <= |s| && s[n] == '-'
    requires forall k :: 0 <= k < n ==> InClass(s[k], cls)
    requires forall k :: n < k < e ==> IsAsciiDigit(s[k])
    requires e == |s| || !IsAsciiDigit(s[e])
    ensures LetterMatchLen(s, cls) == e
  {
    assert !InClass(s[n], cls);
    ClassRunExact(s, n, cls);
    var d := s[n + 1..];
    forall k | 0 <= k < e - n - 1 ensures IsAsciiDigit(d[k]) {
      assert d[k] == s[n + 1 + k];
    }
    DigitRunExact(d, e - n - 1);
  }

  /** A character outside the letter class starts no match. */
  lemma SkipFirst(s: string, cls: LetterClass)
    requires |s| > 0 && !InClass(s[0], cls)
    ensures LetterKeys(s, cls) == LetterKeys(s[1..], cls)
  {
  }

  /** A match at the very start of the text is the first one found. */
  lemma KeysHead(s: string, cls: LetterClass)
    requires |s| > 0 && InClass(s[0], cls) && LetterMatchLen(s, cls) > 0
    ensures LetterKeys(s, cls) == [s[..LetterMatchLen(s, cls)]] + LetterKeys(s[LetterMatchLen(s, cls)..], cls)
  {
  }

  /** A key followed by something that is not a digit is the first match, and the scan goes on after it. */
  lemma KeyThen(k: string, q: string, cls: LetterClass)
    requires IsLetterKey(k, cls) && (|q| == 0 || !IsAsciiDigit(q[0]))
    ensures LetterKeys(k + q, cls) == [k] + LetterKeys(q, cls)
  {
    var s := k + q;
    var n := ClassRun(k, cls);
    forall i | 0 <= i < n ensures InClass(s[i], cls) {
      assert s[i] == k[i];
    }
    forall i | n < i < |k| ensures IsAsciiDigit(s[i]) {
      assert s[i] == k[i];
    }
    assert |k| == |s| || s[|k|] == q[0];
    MatchShape(s, n, |k|, cls);
    KeysHead(s, cls);
    assert s[..|k|] == k && s[|k|..] == q;
  }

  /** A hyphen-free word and a separator ahead of `q` leave only the matches of `q`. */
  lemma SkipWord(p: string, sep: char, q: string, cls: LetterClass)
    requires NoHyphen(p) && !InClass(sep, cls) && sep != '-'
    ensures LetterKeys(p + ([sep] + q), cls) == LetterKeys(q, cls)
  {
    var s := p + ([sep] + q);
    forall i | 0 <= i < |p| ensures s[i] != '-' {
      assert s[i] == p[i];
    }
    assert s[|p|] == sep;
    SkipToGap(s, |p|, cls);
    assert s[|p| + 1..] == q;
  }

  /** `has_jira_identifier`: the text holds a letters-hyphen-digits run. */
  predicate HasJiraIdentifier(s: string) {
    |LetterKeys(s, AnyCase)| > 0
  }

  /** `get_jira_identifier`: the first letters-hyphen-digits run, uppercased. */
  function JiraIdentifier(s: string): (r: Option<string>)
    ensures r.Some? <==> HasJiraIdentifier(s)
    ensures r.Some? ==> r.value == ToUpper(LetterKeys(s, AnyCase)[0])
  {
    var ks := LetterKeys(s, AnyCase);
    if |ks| == 0 then None else Some(ToUpper(ks[0]))
  }

  /** `get_jira_identifiers`: every letters-hyphen-digits run, uppercased, in order. */
  function JiraIdentifiers(s: string): (r: seq<string>)
    ensures |r| == |LetterKeys(s, AnyCase)|
    ensures forall i :: 0 <= i < |r| ==> r[i] == ToUpper(LetterKeys(s, AnyCase)[i])
  {
    var ks := LetterKeys(s, AnyCase);
    seq(|ks|, i requires 0 <= i < |ks| => ToUpper(ks[i]))
  }

  /**
   * What `get_jira_identifiers` gives a caller: some identifier exactly
   * when a slice of the text has the key shape, and each identifier is
   * an upper-case key.
   */
  lemma JiraIdentifiersShape(s: string)
    ensures |JiraIdentifiers(s)| > 0 <==> HasLetterKeySlice(s, AnyCase)
    ensures forall i :: 0 <= i < |JiraIdentifiers(s)| ==> IsLetterKey(JiraIdentifiers(s)[i], UpperOnly)
  {
    LetterKeysFound(s, AnyCase);
    LetterKeysAreKeys(s, AnyCase);
    var ks := LetterKeys(s, AnyCase);
    forall i | 0 <= i < |ks| ensures IsLetterKey(JiraIdentifiers(s)[i], UpperOnly) {
      UpperLetterKey(ks[i]);
    }
  }

  /** Uppercasing a key of either case gives an upper-case key. */
  lemma UpperLetterKey(w: string)
    requires IsLetterKey(w, AnyCase)
    ensures IsLetterKey(ToUpper(w), UpperOnly)
  {
    var u := ToUpper(w);
    var n := ClassRun(w, AnyCase);
    var m := ClassRun(u, UpperOnly);
    assert u[n] == '-';
    assert m == n;
  }

  /** The first identifier is the head of the list of all of them. */
  lemma FirstIdentifierIsHead(s: string)
    ensures JiraIdentifier(s).Some? ==> JiraIdentifier(s).value == JiraIdentifiers(s)[0]
    ensures JiraIdentifier(s).None? <==> JiraIdentifiers(s) == []
  {
  }

  /** `has_jira_identifier` holds exactly when some slice of the text is letters, a hyphen and digits. */
  lemma HasJiraIdentifierIff(s: string)
    ensures HasJiraIdentifier(s) <==> HasLetterKeySlice(s, AnyCase)
  {
    LetterKeysFound(s, AnyCase);
  }

  /** Regex `\b[A-Z][A-Z0-9]+-\d+\b` with the case-insensitive flag, as a shape. */
  predicate IsAlnum(c: char) { IsAsciiLetter(c) || IsAsciiDigit(c) }

  function AlnumRun(s: string): (n: nat)
    ensures n <= |s|
    ensures forall k :: 0 <= k < n ==> IsAlnum(s[k])
    ensures n < |s| ==> !IsAlnum(s[n])
  {
    if |s| == 0 || !IsAlnum(s[0]) then 0 else 1 + AlnumRun(s[1..])
  }

  function WordRun(s: string): (n: nat)
    ensures n <= |s|
    ensures forall k :: 0 <= k < n ==> IsWordChar(s[k])
    ensures n < |s| ==> !IsWordChar(s[n])
  {
    if |s| == 0 || !IsWordChar(s[0]) then 0 else 1 + WordRun(s[1..])
  }

  /** A letter, one or more letters or digits, a hyphen, one or more digits. */
  predicate IsBoundedKey(w: string) {
    |w| >= 4 && IsAsciiLetter(w[0])
    && var a := AlnumRun(w[1..]);
       a >= 1 && a + 2 < |w| && w[a + 1] == '-'
       && forall k :: a + 1 < k < |w| ==> IsAsciiDigit(w[k])
  }

  /**
   * The length of the match at the start of `s`, or 0, for a position
   * that follows a non-word character or the start of the text.
   */
  function BoundedMatchLen(s: string): (r: nat)
    ensures r <= |s|
    ensures r > 0 ==> IsBoundedKey(s[..r]) && (r == |s| || !IsWordChar(s[r]))
  {
    if |s| >= 4 && IsAsciiLetter(s[0]) then
      var a := AlnumRun(s[1..]);
      var k := a + 1;
      if a >= 1 && k + 1 < |s| && s[k] == '-' && IsAsciiDigit(s[k + 1]) then
        var e := k + 1 + DigitRun(s[k + 1..]);
        if e == |s| || !IsWordChar(s[e]) then
          BoundedMatchShape(s, e);
          e
        else 0
      else 0
    else 0
  }

  /** The greedy match at the start, up to its last digit, has the bounded key shape. */
  lemma BoundedMatchShape(s: string, e: nat)
    requires |s| >= 4 && IsAsciiLetter(s[0])
    requires var a := AlnumRun(s[1..]);
             a >= 1 && a + 2 < |s| && s[a + 1] == '-' && IsAsciiDigit(s[a + 2])
             && e == a + 2 + DigitRun(s[a + 2..])
    ensures IsBoundedKey(s[..e])
  {
    assert s[..e][1..] == s[1..][..e - 1];
    AlnumRunPrefix(s[1..], e - 1);
  }

  lemma {:induction false} AlnumRunPrefix(s: string, r: nat)
    requires AlnumRun(s) < r <= |s|
    ensures AlnumRun(s[..r]) == AlnumRun(s)
    decreases |s|
  {
    if AlnumRun(s) > 0 {
      assert s[..r][1..] == s[1..][..r - 1];
      AlnumRunPrefix(s[1..], r - 1);
    }
  }

  /** Every match of the bounded pattern, left to right, as written in the text. */
  function BoundedKeys(s: string): (r: seq<string>)
    ensures forall i :: 0 <= i < |r| ==> IsBoundedKey(r[i])
    decreases |s|
  {
    if |s| == 0 then []
    else if !IsWordChar(s[0]) then BoundedKeys(s[1..])
    else
      var e := BoundedMatchLen(s);
      if e > 0 then [s[..e]] + BoundedKeys(s[e..])
      else BoundedKeys(s[WordRun(s)..])
  }

  /** Every match of the bounded pattern, uppercased, as the program collects them. */
  function UpperBoundedKeys(s: string): (r: seq<string>)
    ensures |r| == |BoundedKeys(s)|
    ensures forall i :: 0 <= i < |r| ==> r[i] == ToUpper(BoundedKeys(s)[i])
  {
    var ks := BoundedKeys(s);
    seq(|ks|, i requires 0 <= i < |ks| => ToUpper(ks[i]))
  }

  /** Every key the program collects with the bounded pattern has that shape in upper case. */
  lemma UpperBoundedKeysShape(s: string)
    ensures forall i :: 0 <= i < |UpperBoundedKeys(s)| ==>
              IsBoundedKey(UpperBoundedKeys(s)[i]) && NoLowercase(UpperBoundedKeys(s)[i])
  {
    var ks := BoundedKeys(s);
    forall i | 0 <= i < |ks|
      ensures IsBoundedKey(UpperBoundedKeys(s)[i]) && NoLowercase(UpperBoundedKeys(s)[i])
    {
      UpperBoundedKey(ks[i]);
      UpperHasNoLowercase(ks[i]);
    }
  }

  /** Uppercasing keeps the bounded key shape. */
  lemma UpperBoundedKey(w: string)
    requires IsBoundedKey(w)
    ensures IsBoundedKey(ToUpper(w))
  {
    var u := ToUpper(w);
    assert u[1..] == ToUpper(w[1..]);
    AlnumRunUpper(w[1..]);
  }

  lemma {:induction false} AlnumRunUpper(t: string)
    ensures AlnumRun(ToUpper(t)) == AlnumRun(t)
    decreases |t|
  {
    if |t| > 0 {
      assert ToUpper(t)[1..] == ToUpper(t[1..]);
      AlnumRunUpper(t[1..]);
    }
  }

  /** An uppercased string has no lowercase letter left. */
  predicate NoLowercase(s: string) {
    forall k :: 0 <= k < |s| ==> !IsAsciiLower(s[k])
  }

  lemma UpperHasNoLowercase(s: string)
    ensures NoLowercase(ToUpper(s))
  {
  }
}
