/**
 * Text helpers of the terminal interface: truncation with an ellipsis,
 * greedy word wrapping, the splitting of a meeting description around
 * its `JIRA[<a href="…">…</a>]` links, and the segmenting of simple HTML
 * into styled runs of text.
 */
module UiHelpers {
  import opened Wrappers
  import opened Text

  // ---------------------------------------------------------------------
  // Truncation
  // ---------------------------------------------------------------------

  /**
   * The suffix `truncate_string` appends, as the file spells it: the bytes
   * E2 80 A6 (the UTF-8 form of U+2026) stored as the three characters
   * U+00E2, U+20AC and U+00A6.
   */
  const WrittenEllipsis: string := "\U{E2}\U{20AC}\U{A6}"

  /** The one-character ellipsis U+2026. */
  const Ellipsis: string := "\U{2026}"

  function SaturatingPred(n: nat): (r: nat)
    ensures n > 0 ==> r == n - 1
    ensures n == 0 ==> r == 0
  {
    if n == 0 then 0 else n - 1
  }

  /** `truncate_string` with the suffix it appends as a parameter. */
  function TruncateWith(s: string, maxLen: nat, suffix: string): (r: string)
    ensures |s| <= maxLen ==> r == s
    ensures |s| > maxLen ==> |r| == SaturatingPred(maxLen) + |suffix|
    ensures |s| > maxLen ==> StartsWith(s, r[..SaturatingPred(maxLen)]) && r[SaturatingPred(maxLen)..] == suffix
  {
    if |s| <= maxLen then s
    else
      var keep := SaturatingPred(maxLen);
      assert (s[..keep] + suffix)[..keep] == s[..keep];
      s[..keep] + suffix
  }

  /** `truncate_string` as written. */
  function TruncateAsWritten(s: string, maxLen: nat): (r: string)
    ensures |s| <= maxLen ==> r == s
  {
    TruncateWith(s, maxLen, WrittenEllipsis)
  }

  /** A truncated string ends up two characters longer than the limit. */
  lemma TruncatedOverflowsLimit(s: string, maxLen: nat)
    requires |s| > maxLen >= 1
    ensures |TruncateAsWritten(s, maxLen)| == maxLen + 2
  {
  }

  /** `truncate_string` with the one-character ellipsis. */
  function Truncate(s: string, maxLen: nat): (r: string)
    ensures |s| <= maxLen ==> r == s
    ensures maxLen >= 1 ==> |r| <= maxLen
    ensures |s| > maxLen >= 1 ==> |r| == maxLen && StartsWith(s, r[..maxLen - 1]) && r[maxLen - 1..] == Ellipsis
  {
    TruncateWith(s, maxLen, Ellipsis)
  }

  /** A string within the limit is its own truncation; truncating twice is truncating once. */
  lemma TruncateIdempotent(s: string, maxLen: nat)
    requires maxLen >= 1
    ensures Truncate(Truncate(s, maxLen), maxLen) == Truncate(s, maxLen)
  {
  }

  // ---------------------------------------------------------------------
  // Word wrapping
  // ---------------------------------------------------------------------

  /** The number of bytes of a character in UTF-8. */
  function Utf8Width(c: char): (n: nat)
    ensures 1 <= n <= 4
  {
    if c as int < 0x80 then 1
    else if c as int < 0x800 then 2
    else if c as int < 0x10000 then 3
    else 4
  }

  /** `str::len`: the length of a string in UTF-8 bytes. */
  function Utf8Len(s: string): (n: nat)
    ensures n >= |s|
  {
    if |s| == 0 then 0 else Utf8Width(s[0]) + Utf8Len(s[1..])
  }

  lemma {:induction false} Utf8LenAppend(a: string, b: string)
    ensures Utf8Len(a + b) == Utf8Len(a) + Utf8Len(b)
    decreases |a|
  {
    if |a| > 0 {
      assert (a + b)[1..] == a[1..] + b;
      Utf8LenAppend(a[1..], b);
    } else {
      assert a + b == b;
    }
  }

  /** One word of the loop of `wrap_text`: start a line, extend it, or close it and start another. */
  function WrapStep(lines: seq<string>, current: string, word: string, maxWidth: nat): (seq<string>, string)
  {
    if current == "" then (lines, word)
    else if Utf8Len(current) + 1 + Utf8Len(word) <= maxWidth then (lines, current + " " + word)
    else (lines + [current], word)
  }

  /** The finished lines and the line being built after the given words. */
  function WrapFold(words: seq<string>, maxWidth: nat): (seq<string>, string)
    decreases |words|
  {
    if |words| == 0 then ([], "")
    else
      var n := |words| - 1;
      var st := WrapFold(words[..n], maxWidth);
      WrapStep(st.0, st.1, words[n], maxWidth)
  }

  /** The lines `wrap_text` returns for the given words. */
  function Wrap(words: seq<string>, maxWidth: nat): seq<string>
  {
    var st := WrapFold(words, maxWidth);
    if st.1 == "" then st.0 else st.0 + [st.1]
  }

  /** A line is non-empty, and exceeds the width only when it is a single word. */
  predicate LineOk(line: string, maxWidth: nat) {
    |line| > 0 && (Utf8Len(line) > maxWidth ==> IsWord(line))
  }

  predicate WrapInvariant(words: seq<string>, lines: seq<string>, current: string, maxWidth: nat) {
    && (current == "" <==> |words| == 0)
    && (|words| == 0 ==> lines == [])
    && (|words| > 0 ==> Join(lines + [current], ' ') == Join(words, ' ') && LineOk(current, maxWidth))
    && (forall i :: 0 <= i < |lines| ==> LineOk(lines[i], maxWidth))
  }

  /** Extending the last part with a separator and more text extends the join the same way. */
  lemma JoinExtendLast(parts: seq<string>, a: string, b: string, sep: char)
    ensures Join(parts + [a + [sep] + b], sep) == Join(parts + [a], sep) + [sep] + b
  {
    if |parts| > 0 {
      JoinSnoc(parts, a + [sep] + b, sep);
      JoinSnoc(parts, a, sep);
    } else {
      assert parts + [a + [sep] + b] == [a + [sep] + b];
      assert parts + [a] == [a];
    }
  }

  lemma WrapStepKeeps(words: seq<string>, lines: seq<string>, current: string, word: string, maxWidth: nat)
    requires WrapInvariant(words, lines, current, maxWidth)
    requires IsWord(word)
    ensures var st := WrapStep(lines, current, word, maxWidth); WrapInvariant(words + [word], st.0, st.1, maxWidth)
  {
    var st := WrapStep(lines, current, word, maxWidth);
    if |words| > 0 {
      JoinSnoc(words, word, ' ');
    }
    if current == "" {
      assert words + [word] == [word];
    } else if Utf8Len(current) + 1 + Utf8Len(word) <= maxWidth {
      JoinExtendLast(lines, current, word, ' ');
      Utf8LenAppend(current + " ", word);
      Utf8LenAppend(current, " ");
    } else {
      JoinSnoc(lines + [current], word, ' ');
    }
  }

  lemma {:induction false} WrapFoldInvariant(words: seq<string>, maxWidth: nat)
    requires forall i :: 0 <= i < |words| ==> IsWord(words[i])
    ensures var st := WrapFold(words, maxWidth); WrapInvariant(words, st.0, st.1, maxWidth)
    decreases |words|
  {
    if |words| > 0 {
      var n := |words| - 1;
      WrapFoldInvariant(words[..n], maxWidth);
      var st := WrapFold(words[..n], maxWidth);
      WrapStepKeeps(words[..n], st.0, st.1, words[n], maxWidth);
      assert words[..n] + [words[n]] == words;
    }
  }

  /**
   * The wrapped lines hold the words in order, each line is non-empty, and
   * a line is wider than the limit only when it is a single word.
   */
  lemma WrapProperties(words: seq<string>, maxWidth: nat)
    requires forall i :: 0 <= i < |words| ==> IsWord(words[i])
    ensures Join(Wrap(words, maxWidth), ' ') == Join(words, ' ')
    ensures forall i :: 0 <= i < |Wrap(words, maxWidth)| ==> LineOk(Wrap(words, maxWidth)[i], maxWidth)
  {
    WrapFoldInvariant(words, maxWidth);
  }

  /** `wrap_text`. */
  method WrapText(text: string, maxWidth: nat) returns (lines: seq<string>)
    ensures lines == Wrap(Words(text), maxWidth)
    ensures Join(lines, ' ') == Join(Words(text), ' ')
    ensures forall i :: 0 <= i < |lines| ==> |lines[i]| > 0
    ensures forall i :: 0 <= i < |lines| ==> Utf8Len(lines[i]) > maxWidth ==> IsWord(lines[i])
  {
    var words := Words(text);
    lines := [];
    var current := "";
    var i := 0;
    while i < |words|
      invariant 0 <= i <= |words|
      invariant (lines, current) == WrapFold(words[..i], maxWidth)
    {
      assert words[..i + 1][..i] == words[..i];
      var word := words[i];
      if current == "" {
        current := word;
      } else if Utf8Len(current) + 1 + Utf8Len(word) <= maxWidth {
        current := current + " " + word;
      } else {
        lines := lines + [current];
        current := word;
      }
      i := i + 1;
    }
    assert words[..i] == words;
    if current != "" {
      lines := lines + [current];
    }
    WrapProperties(words, maxWidth);
    assert forall j :: 0 <= j < |lines| ==> LineOk(lines[j], maxWidth);
  }

  // ---------------------------------------------------------------------
  // Scanning helpers
  // ---------------------------------------------------------------------

  /** The number of ASCII letters starting at `j`. */
  function LetterRun(s: string, j: nat): (n: nat)
    requires j <= |s|
    ensures j + n <= |s|
    ensures forall k :: j <= k < j + n ==> IsAsciiLetter(s[k])
    ensures j + n < |s| ==> !IsAsciiLetter(s[j + n])
    decreases |s| - j
  {
    if j == |s| || !IsAsciiLetter(s[j]) then 0 else 1 + LetterRun(s, j + 1)
  }

  /** The number of characters other than `c` starting at `j`. */
  function RunNot(s: string, j: nat, c: char): (n: nat)
    requires j <= |s|
    ensures j + n <= |s|
    ensures forall k :: j <= k < j + n ==> s[k] != c
    ensures j + n < |s| ==> s[j + n] == c
    decreases |s| - j
  {
    if j == |s| || s[j] == c then 0 else 1 + RunNot(s, j + 1, c)
  }

  // ---------------------------------------------------------------------
  // HTML segments
  // ---------------------------------------------------------------------

  /** A match of `<(/?)([a-zA-Z]+)[^>]*>`. */
  datatype Tag = Tag(start: nat, end: nat, closing: bool, name: string)

  predicate TagWithin(s: string, t: Tag) {
    t.start < t.end <= |s| && s[t.start] == '<' && s[t.end - 1] == '>' && |t.name| > 0
  }

  /** The tag that starts at `i`, if one does. */
  function TagAt(s: string, i: nat): (r: Option<Tag>)
    requires i <= |s|
    ensures r.Some? ==> r.value.start == i && TagWithin(s, r.value)
  {
    if i == |s| || s[i] != '<' then None
    else
      var closing := i + 1 < |s| && s[i + 1] == '/';
      var j := if closing then i + 2 else i + 1;
      var n := LetterRun(s, j);
      if n == 0 then None
      else
        var gt := j + n + RunNot(s, j + n, '>');
        if gt == |s| then None
        else Some(Tag(i, gt + 1, closing, s[j..j + n]))
  }

  /** The leftmost tag at or after `from`. */
  function NextTag(s: string, from: nat): (r: Option<Tag>)
    requires from <= |s|
    ensures r.Some? ==> TagWithin(s, r.value) && from <= r.value.start && TagAt(s, r.value.start) == r
    decreases |s| - from
  {
    if TagAt(s, from).Some? then TagAt(s, from)
    else if from == |s| then None
    else NextTag(s, from + 1)
  }

  /** The tag found is the leftmost one; when none is found there is none. */
  lemma {:induction false} NextTagLeftmost(s: string, from: nat)
    requires from <= |s|
    ensures NextTag(s, from).Some? ==> forall k :: from <= k < NextTag(s, from).value.start ==> TagAt(s, k).None?
    ensures NextTag(s, from).None? ==> forall k :: from <= k <= |s| ==> TagAt(s, k).None?
    decreases |s| - from
  {
    if TagAt(s, from).None? && from < |s| {
      var r := NextTag(s, from + 1);
      assert NextTag(s, from) == r;
      NextTagLeftmost(s, from + 1);
      NoTagBefore(s, from, if r.Some? then r.value.start else |s| + 1);
    }
  }

  /** No tag at `from` and none on `(from, to)` is none on `[from, to)`. */
  lemma NoTagBefore(s: string, from: nat, to: nat)
    requires from < to <= |s| + 1 && TagAt(s, from).None?
    requires forall k :: from + 1 <= k < to ==> TagAt(s, k).None?
    ensures forall k :: from <= k < to ==> TagAt(s, k).None?
  {
  }

  /** The text with every matched tag removed. */
  function Stripped(s: string, from: nat): (r: string)
    requires from <= |s|
    ensures |r| <= |s| - from
    decreases |s| - from
  {
    match NextTag(s, from)
    case None => s[from..]
    case Some(t) => s[from..t.start] + Stripped(s, t.end)
  }

  datatype Depths = Depths(bold: nat, italic: nat, underline: nat)

  /** An opening tag deepens its style, a closing one lifts it but never below zero. */
  function ApplyTag(d: Depths, closing: bool, name: string): (r: Depths)
    ensures name !in {"b", "strong", "i", "em", "u"} ==> r == d
    ensures closing ==> r.bold <= d.bold && r.italic <= d.italic && r.underline <= d.underline
    ensures !closing ==> r.bold >= d.bold && r.italic >= d.italic && r.underline >= d.underline
    ensures closing && d == Depths(0, 0, 0) ==> r == d
  {
    if name == "b" || name == "strong" then
      d.(bold := if closing then SaturatingPred(d.bold) else d.bold + 1)
    else if name == "i" || name == "em" then
      d.(italic := if closing then SaturatingPred(d.italic) else d.italic + 1)
    else if name == "u" then
      d.(underline := if closing then SaturatingPred(d.underline) else d.underline + 1)
    else d
  }

  datatype StyledSegment = StyledSegment(text: string, bold: bool, italic: bool, underline: bool)

  const Plain: StyledSegment := StyledSegment("", false, false, false)

  /** What follows one tag: the segment closes when the style changes and it has text. */
  function AfterTag(segs: seq<StyledSegment>, cur: StyledSegment, d: Depths): (seq<StyledSegment>, StyledSegment)
  {
    var nb, ni, nu := d.bold > 0, d.italic > 0, d.underline > 0;
    if (nb != cur.bold || ni != cur.italic || nu != cur.underline) && cur.text != "" then
      (segs + [cur], StyledSegment("", nb, ni, nu))
    else (segs, StyledSegment(cur.text, nb, ni, nu))
  }

  /** The segments `parse_html_styled_text` returns, from position `from` on. */
  function StyledFrom(s: string, from: nat, segs: seq<StyledSegment>, cur: StyledSegment, d: Depths): seq<StyledSegment>
    requires from <= |s|
    decreases |s| - from
  {
    match NextTag(s, from)
    case None =>
      var last := cur.(text := cur.text + s[from..]);
      if last.text != "" then segs + [last] else segs
    case Some(t) =>
      var d' := ApplyTag(d, t.closing, ToLower(t.name));
      var st := AfterTag(segs, cur.(text := cur.text + s[from..t.start]), d');
      StyledFrom(s, t.end, st.0, st.1, d')
  }

  function SegmentTexts(segs: seq<StyledSegment>): (r: seq<string>)
    ensures |r| == |segs| && forall i :: 0 <= i < |segs| ==> r[i] == segs[i].text
  {
    seq(|segs|, i requires 0 <= i < |segs| => segs[i].text)
  }

  predicate NoEmptySegment(segs: seq<StyledSegment>) {
    forall i :: 0 <= i < |segs| ==> segs[i].text != ""
  }

  lemma SegmentTextsSnoc(segs: seq<StyledSegment>, x: StyledSegment)
    ensures Concat(SegmentTexts(segs + [x])) == Concat(SegmentTexts(segs)) + x.text
  {
    assert SegmentTexts(segs + [x]) == SegmentTexts(segs) + [x.text];
    ConcatAppend(SegmentTexts(segs), [x.text]);
  }

  /** No segment is empty. */
  lemma {:induction false} StyledFromNoEmpty(s: string, from: nat, segs: seq<StyledSegment>, cur: StyledSegment, d: Depths)
    requires from <= |s|
    requires NoEmptySegment(segs)
    ensures NoEmptySegment(StyledFrom(s, from, segs, cur, d))
    decreases |s| - from
  {
    match NextTag(s, from)
    case None =>
    case Some(t) =>
      var d' := ApplyTag(d, t.closing, ToLower(t.name));
      var c1 := cur.(text := cur.text + s[from..t.start]);
      var st := AfterTag(segs, c1, d');
      StyledFromUnfold(s, from, segs, cur, d, t);
      AfterTagTexts(segs, c1, d');
      StyledFromNoEmpty(s, t.end, st.0, st.1, d');
  }

  /** The texts of the segments, in order, are the input with its tags removed. */
  lemma {:induction false} StyledFromTexts(s: string, from: nat, segs: seq<StyledSegment>, cur: StyledSegment, d: Depths)
    requires from <= |s|
    ensures Concat(SegmentTexts(StyledFrom(s, from, segs, cur, d))) == Concat(SegmentTexts(segs)) + cur.text + Stripped(s, from)
    decreases |s| - from
  {
    match NextTag(s, from)
    case None =>
      var last := cur.(text := cur.text + s[from..]);
      if last.text != "" {
        SegmentTextsSnoc(segs, last);
      }
    case Some(t) =>
      var d' := ApplyTag(d, t.closing, ToLower(t.name));
      var c1 := cur.(text := cur.text + s[from..t.start]);
      var st := AfterTag(segs, c1, d');
      StyledFromUnfold(s, from, segs, cur, d, t);
      StrippedUnfold(s, from, t);
      AfterTagConcat(segs, c1, d');
      StyledFromTexts(s, t.end, st.0, st.1, d');
      ConcatChain(Concat(SegmentTexts(StyledFrom(s, t.end, st.0, st.1, d'))), Concat(SegmentTexts(st.0)), st.1.text,
                  Stripped(s, t.end), Concat(SegmentTexts(segs)), cur.text, s[from..t.start], Stripped(s, from));
  }

  lemma ConcatChain(all: string, done: string, open: string, rest: string, before: string, cur: string, gap: string, stripped: string)
    requires all == done + open + rest
    requires done + open == before + (cur + gap)
    requires stripped == gap + rest
    ensures all == before + cur + stripped
  {
  }

  lemma StyledFromUnfold(s: string, from: nat, segs: seq<StyledSegment>, cur: StyledSegment, d: Depths, t: Tag)
    requires from <= |s| && NextTag(s, from) == Some(t)
    ensures t.end <= |s|
    ensures var d' := ApplyTag(d, t.closing, ToLower(t.name));
            var st := AfterTag(segs, cur.(text := cur.text + s[from..t.start]), d');
            StyledFrom(s, from, segs, cur, d) == StyledFrom(s, t.end, st.0, st.1, d')
  {
  }

  lemma StrippedUnfold(s: string, from: nat, t: Tag)
    requires from <= |s| && NextTag(s, from) == Some(t)
    ensures t.end <= |s|
    ensures Stripped(s, from) == s[from..t.start] + Stripped(s, t.end)
  {
  }

  lemma AfterTagTexts(segs: seq<StyledSegment>, cur: StyledSegment, d: Depths)
    requires NoEmptySegment(segs)
    ensures NoEmptySegment(AfterTag(segs, cur, d).0)
  {
  }

  lemma AfterTagConcat(segs: seq<StyledSegment>, cur: StyledSegment, d: Depths)
    ensures Concat(SegmentTexts(AfterTag(segs, cur, d).0)) + AfterTag(segs, cur, d).1.text == Concat(SegmentTexts(segs)) + cur.text
  {
    var st := AfterTag(segs, cur, d);
    if st.0 != segs {
      SegmentTextsSnoc(segs, cur);
    }
  }

  /** `parse_html_styled_text`. */
  method ParseHtmlStyledText(html: string) returns (segments: seq<StyledSegment>)
    ensures segments == StyledFrom(html, 0, [], Plain, Depths(0, 0, 0))
    ensures NoEmptySegment(segments)
    ensures Concat(SegmentTexts(segments)) == Stripped(html, 0)
  {
    segments := [];
    var current := Plain;
    var depths := Depths(0, 0, 0);
    var lastEnd := 0;
    var next := NextTag(html, 0);
    while next.Some?
      invariant lastEnd <= |html|
      invariant next == NextTag(html, lastEnd)
      invariant StyledFrom(html, lastEnd, segments, current, depths) == StyledFrom(html, 0, [], Plain, Depths(0, 0, 0))
      decreases |html| - lastEnd
    {
      var t := next.value;
      current := current.(text := current.text + html[lastEnd..t.start]);
      depths := ApplyTag(depths, t.closing, ToLower(t.name));
      var newBold, newItalic, newUnderline := depths.bold > 0, depths.italic > 0, depths.underline > 0;
      if (newBold != current.bold || newItalic != current.italic || newUnderline != current.underline) && current.text != "" {
        segments := segments + [current];
        current := StyledSegment("", newBold, newItalic, newUnderline);
      } else {
        current := current.(bold := newBold, italic := newItalic, underline := newUnderline);
      }
      lastEnd := t.end;
      next := NextTag(html, lastEnd);
    }
    current := current.(text := current.text + html[lastEnd..]);
    if current.text != "" {
      segments := segments + [current];
    }
    StyledFromNoEmpty(html, 0, [], Plain, Depths(0, 0, 0));
    StyledFromTexts(html, 0, [], Plain, Depths(0, 0, 0));
  }

  /** The entity and line-break replacements, in the order they are applied. */
  const Replacements: seq<(string, string)> := [
    ("&nbsp;", " "), ("&lt;", "<"), ("&gt;", ">"), ("&amp;", "&"), ("&quot;", "\""), ("&#39;", "'"),
    ("<br>", "\n"), ("<br/>", "\n"), ("<br />", "\n")]

  /** Apply each replacement in turn to the whole text. */
  function ReplaceEach(text: string, pairs: seq<(string, string)>): (r: string)
    requires forall i :: 0 <= i < |pairs| ==> |pairs[i].0| > 0
    decreases |pairs|
  {
    if |pairs| == 0 then text else ReplaceEach(Replace(text, pairs[0].0, pairs[0].1), pairs[1..])
  }

  function Cleaned(text: string): (r: string)
  {
    ReplaceEach(text, Replacements)
  }

  /** What `clean_and_strip_html` returns: the entities replaced first, the tags then removed. */
  function CleanText(text: string): string
  {
    Stripped(Cleaned(text), 0)
  }

  /** `clean_and_strip_html`. */
  method CleanAndStripHtml(text: string) returns (r: string)
    ensures r == CleanText(text)
    ensures |r| <= |Cleaned(text)|
  {
    var segments := ParseHtmlStyledText(Cleaned(text));
    r := Concat(SegmentTexts(segments));
  }

  // ---------------------------------------------------------------------
  // Meeting descriptions
  // ---------------------------------------------------------------------

  const LinkOpen: string := "JIRA[<a href=\""
  const LinkMiddle: string := "\">"
  const LinkClose: string := "</a>]"

  /** A match of `JIRA\[<a href="([^"]+)">([^<]+)</a>\]`. */
  datatype Link = Link(start: nat, end: nat, url: string, text: string)

  /** `lit` is written at position `i` of `s`. */
  predicate LiteralAt(s: string, i: nat, lit: string) {
    i + |lit| <= |s| && s[i..i + |lit|] == lit
  }

  /** The link that starts at `i`, if one does. */
  function LinkAt(s: string, i: nat): (r: Option<Link>)
    requires i <= |s|
    ensures r.Some? ==> r.value.start == i < r.value.end <= |s|
    ensures r.Some? ==> |r.value.url| > 0 && |r.value.text| > 0 && '"' !in r.value.url && '<' !in r.value.text
  {
    if !LiteralAt(s, i, LinkOpen) then None
    else
      var u := i + |LinkOpen|;
      var q := u + RunNot(s, u, '"');
      if q == u || !LiteralAt(s, q, LinkMiddle) then None
      else
        var t := q + |LinkMiddle|;
        var e := t + RunNot(s, t, '<');
        if e == t || !LiteralAt(s, e, LinkClose) then None
        else
          RunAvoids(s, u, '"');
          RunAvoids(s, t, '<');
          Some(Link(i, e + |LinkClose|, s[u..q], s[t..e]))
  }

  /** The run `RunNot` measures holds no `c`. */
  lemma RunAvoids(s: string, j: nat, c: char)
    requires j <= |s|
    ensures c !in s[j..j + RunNot(s, j, c)]
  {
    var w := s[j..j + RunNot(s, j, c)];
    assert forall k :: 0 <= k < |w| ==> w[k] == s[j + k];
  }

  /** The leftmost link at or after `from`. */
  function NextLink(s: string, from: nat): (r: Option<Link>)
    requires from <= |s|
    ensures r.Some? ==> r.value.start < r.value.end <= |s| && from <= r.value.start && LinkAt(s, r.value.start) == r
    decreases |s| - from
  {
    if LinkAt(s, from).Some? then LinkAt(s, from)
    else if from == |s| then None
    else NextLink(s, from + 1)
  }

  /** The link found is the leftmost one; when none is found there is none. */
  lemma {:induction false} NextLinkLeftmost(s: string, from: nat)
    requires from <= |s|
    ensures NextLink(s, from).Some? ==> forall k :: from <= k < NextLink(s, from).value.start ==> LinkAt(s, k).None?
    ensures NextLink(s, from).None? ==> forall k :: from <= k <= |s| ==> LinkAt(s, k).None?
    decreases |s| - from
  {
    if LinkAt(s, from).None? && from < |s| {
      var r := NextLink(s, from + 1);
      assert NextLink(s, from) == r;
      NextLinkLeftmost(s, from + 1);
      NoLinkBefore(s, from, if r.Some? then r.value.start else |s| + 1);
    }
  }

  /** No link at `from` and none on `(from, to)` is none on `[from, to)`. */
  lemma NoLinkBefore(s: string, from: nat, to: nat)
    requires from < to <= |s| + 1 && LinkAt(s, from).None?
    requires forall k :: from + 1 <= k < to ==> LinkAt(s, k).None?
    ensures forall k :: from <= k < to ==> LinkAt(s, k).None?
  {
  }

  /** Every link at or after `from`, as (text, url), in order. */
  function Links(s: string, from: nat): seq<(string, string)>
    requires from <= |s|
    decreases |s| - from
  {
    match NextLink(s, from)
    case None => []
    case Some(l) => [(l.text, l.url)] + Links(s, l.end)
  }

  /** The cleaned text between `from` and `to`, as a piece of its own when it is not empty. */
  function Gap(s: string, from: nat, to: nat): (r: seq<(string, Option<string>)>)
    requires from <= to <= |s|
    ensures |r| <= 1 && forall i :: 0 <= i < |r| ==> r[i].1.None?
  {
    if to > from then [(CleanText(s[from..to]), None)] else []
  }

  /** The pieces `parse_description` returns, given those produced before the scan reached `from`. */
  function DescriptionFrom(s: string, from: nat, acc: seq<(string, Option<string>)>): (r: seq<(string, Option<string>)>)
    requires from <= |s|
    decreases |s| - from
  {
    match NextLink(s, from)
    case None =>
      var acc' := acc + Gap(s, from, |s|);
      if acc' == [] then [(CleanText(s), None)] else acc'
    case Some(l) =>
      DescriptionFrom(s, l.end, acc + Gap(s, from, l.start) + [(l.text, Some(l.url))])
  }

  /** `parse_description`: the plain pieces cleaned, the links as (text, url). */
  method ParseDescription(desc: string) returns (result: seq<(string, Option<string>)>)
    ensures result == DescriptionFrom(desc, 0, [])
  {
    result := [];
    var lastEnd := 0;
    var next := NextLink(desc, 0);
    while next.Some?
      invariant lastEnd <= |desc|
      invariant next == NextLink(desc, lastEnd)
      invariant DescriptionFrom(desc, lastEnd, result) == DescriptionFrom(desc, 0, [])
      decreases |desc| - lastEnd
    {
      var l := next.value;
      DescriptionUnfold(desc, lastEnd, result, l);
      result := AppendGapAndLink(desc, lastEnd, l, result);
      lastEnd := l.end;
      next := NextLink(desc, lastEnd);
    }
    result := AppendLastGap(desc, lastEnd, result);
  }

  /** The cleaned text before the link, when there is some, then the link. */
  method AppendGapAndLink(desc: string, lastEnd: nat, l: Link, acc: seq<(string, Option<string>)>)
    returns (result: seq<(string, Option<string>)>)
    requires lastEnd <= l.start <= |desc|
    ensures result == acc + Gap(desc, lastEnd, l.start) + [(l.text, Some(l.url))]
  {
    result := acc;
    if l.start > lastEnd {
      var text := CleanAndStripHtml(desc[lastEnd..l.start]);
      result := result + [(text, None)];
    }
    result := result + [(l.text, Some(l.url))];
  }

  /** After the last link: the cleaned rest, and the whole cleaned text when nothing was produced. */
  method AppendLastGap(desc: string, lastEnd: nat, acc: seq<(string, Option<string>)>)
    returns (result: seq<(string, Option<string>)>)
    requires lastEnd <= |desc| && NextLink(desc, lastEnd).None?
    ensures result == DescriptionFrom(desc, lastEnd, acc)
  {
    result := acc;
    if lastEnd < |desc| {
      var text := CleanAndStripHtml(desc[lastEnd..]);
      assert desc[lastEnd..] == desc[lastEnd..|desc|];
      result := result + [(text, None)];
    }
    assert result == acc + Gap(desc, lastEnd, |desc|);
    if result == [] {
      var text := CleanAndStripHtml(desc);
      result := [(text, None)];
    }
  }

  /** The entries carrying a url, as (text, url). */
  function LinkEntries(r: seq<(string, Option<string>)>): seq<(string, string)>
  {
    if |r| == 0 then []
    else (if r[0].1.Some? then [(r[0].0, r[0].1.value)] else []) + LinkEntries(r[1..])
  }

  lemma {:induction false} LinkEntriesAppend(a: seq<(string, Option<string>)>, b: seq<(string, Option<string>)>)
    ensures LinkEntries(a + b) == LinkEntries(a) + LinkEntries(b)
    decreases |a|
  {
    if |a| > 0 {
      assert (a + b)[1..] == a[1..] + b;
      LinkEntriesAppend(a[1..], b);
    } else {
      assert a + b == b;
    }
  }

  /** The linked entries are exactly the links of the description, in order. */
  lemma {:induction false} DescriptionLinks(s: string, from: nat, acc: seq<(string, Option<string>)>)
    requires from <= |s|
    ensures LinkEntries(DescriptionFrom(s, from, acc)) == LinkEntries(acc) + Links(s, from)
    decreases |s| - from
  {
    match NextLink(s, from)
    case None =>
      LinksAfterLast(s, from, acc);
    case Some(l) =>
      var link: seq<(string, Option<string>)> := [(l.text, Some(l.url))];
      var acc' := acc + Gap(s, from, l.start);
      DescriptionUnfold(s, from, acc, l);
      DescriptionLinks(s, l.end, acc' + link);
      LinksThroughLink(s, from, acc, l);
      LinksUnfold(s, from, l);
      LinkChain(LinkEntries(DescriptionFrom(s, l.end, acc' + link)), LinkEntries(acc' + link), LinkEntries(acc'),
                LinkEntries(acc), (l.text, l.url), Links(s, l.end), Links(s, from));
  }

  /** With no link left, the entries produced so far are the only linked ones. */
  lemma LinksAfterLast(s: string, from: nat, acc: seq<(string, Option<string>)>)
    requires from <= |s| && NextLink(s, from).None?
    ensures LinkEntries(DescriptionFrom(s, from, acc)) == LinkEntries(acc) + Links(s, from)
  {
    var acc' := acc + Gap(s, from, |s|);
    LinkEntriesAppend(acc, Gap(s, from, |s|));
    assert LinkEntries(Gap(s, from, |s|)) == [];
    assert LinkEntries([(CleanText(s), None)]) == [];
    assert Links(s, from) == [];
    assert DescriptionFrom(s, from, acc) == if acc' == [] then [(CleanText(s), None)] else acc';
    if acc' == [] {
      assert acc == [];
    }
  }

  /** The gap before a link adds no linked entry; the link adds its own. */
  lemma LinksThroughLink(s: string, from: nat, acc: seq<(string, Option<string>)>, l: Link)
    requires from <= l.start <= |s|
    ensures LinkEntries(acc + Gap(s, from, l.start)) == LinkEntries(acc)
    ensures LinkEntries(acc + Gap(s, from, l.start) + [(l.text, Some(l.url))]) == LinkEntries(acc) + [(l.text, l.url)]
  {
    var link: seq<(string, Option<string>)> := [(l.text, Some(l.url))];
    var acc' := acc + Gap(s, from, l.start);
    LinkEntriesAppend(acc, Gap(s, from, l.start));
    LinkEntriesAppend(acc', link);
    assert LinkEntries(Gap(s, from, l.start)) == [];
    assert LinkEntries(link) == [(l.text, l.url)];
  }

  lemma LinksUnfold(s: string, from: nat, l: Link)
    requires from <= |s| && NextLink(s, from) == Some(l)
    ensures l.end <= |s|
    ensures Links(s, from) == [(l.text, l.url)] + Links(s, l.end)
  {
  }

  lemma LinkChain<T>(all: seq<T>, upTo: seq<T>, before: seq<T>, acc: seq<T>, x: T, rest: seq<T>, links: seq<T>)
    requires all == upTo + rest
    requires upTo == before + [x]
    requires before == acc
    requires links == [x] + rest
    ensures all == acc + links
  {
  }

  lemma DescriptionUnfold(s: string, from: nat, acc: seq<(string, Option<string>)>, l: Link)
    requires from <= |s| && NextLink(s, from) == Some(l)
    ensures l.end <= |s|
    ensures DescriptionFrom(s, from, acc) == DescriptionFrom(s, l.end, acc + Gap(s, from, l.start) + [(l.text, Some(l.url))])
  {
  }

  /** A description without a link comes back as one unlinked, cleaned piece. */
  lemma NoLinkSinglePiece(s: string)
    requires NextLink(s, 0).None?
    ensures DescriptionFrom(s, 0, []) == [(CleanText(s), None)]
  {
    assert s[0..|s|] == s;
    if |s| > 0 {
      assert Gap(s, 0, |s|) == [(CleanText(s), None)];
    } else {
      assert Gap(s, 0, |s|) == [];
    }
    assert [] + Gap(s, 0, |s|) == Gap(s, 0, |s|);
  }
}
