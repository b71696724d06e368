/**
 * The flattening of a Jira rich-text comment into one line: paragraphs
 * without content and text nodes without text are skipped, the texts of
 * a paragraph are joined with spaces and the paragraphs with full stops.
 */
module JiraComment {
  import opened Wrappers
  import opened Text

  datatype JiraText = JiraText(kind: string, text: Option<string>)
  datatype JiraContent = JiraContent(kind: string, content: Option<seq<JiraText>>)
  datatype Comment = Comment(kind: string, version: nat, content: seq<JiraContent>)

  /** The texts that are present, in order. */
  function PresentTexts(ts: seq<JiraText>): (r: seq<string>)
    ensures |r| <= |ts|
    ensures (forall i :: 0 <= i < |ts| ==> ts[i].text.Some?) ==> |r| == |ts|
  {
    if |ts| == 0 then []
    else (if ts[0].text.Some? then [ts[0].text.value] else []) + PresentTexts(ts[1..])
  }

  /** One string per paragraph that has content: its texts joined with a space. */
  function Paragraphs(cs: seq<JiraContent>): (r: seq<string>)
    ensures |r| <= |cs|
  {
    if |cs| == 0 then []
    else (if cs[0].content.Some? then [Join(PresentTexts(cs[0].content.value), ' ')] else []) + Paragraphs(cs[1..])
  }

  /** `format_comment`. */
  function FormatComment(c: Comment): (r: string)
  {
    Join(Paragraphs(c.content), '.')
  }

  lemma {:induction false} PresentTextsAppend(a: seq<JiraText>, b: seq<JiraText>)
    ensures PresentTexts(a + b) == PresentTexts(a) + PresentTexts(b)
    decreases |a|
  {
    if |a| > 0 {
      assert (a + b)[1..] == a[1..] + b;
      PresentTextsAppend(a[1..], b);
    } else {
      assert a + b == b;
    }
  }

  lemma {:induction false} ParagraphsAppend(a: seq<JiraContent>, b: seq<JiraContent>)
    ensures Paragraphs(a + b) == Paragraphs(a) + Paragraphs(b)
    decreases |a|
  {
    if |a| > 0 {
      assert (a + b)[1..] == a[1..] + b;
      ParagraphsAppend(a[1..], b);
    } else {
      assert a + b == b;
    }
  }

  /** A text node without text contributes nothing, wherever it stands. */
  lemma TextlessNodeSkipped(a: seq<JiraText>, kind: string, b: seq<JiraText>)
    ensures PresentTexts(a + [JiraText(kind, None)] + b) == PresentTexts(a + b)
  {
    PresentTextsAppend(a + [JiraText(kind, None)], b);
    PresentTextsAppend(a, [JiraText(kind, None)]);
    PresentTextsAppend(a, b);
  }

  /** A paragraph without content contributes nothing, wherever it stands. */
  lemma EmptyParagraphSkipped(c: Comment, i: nat, kind: string)
    requires i <= |c.content|
    ensures FormatComment(c.(content := c.content[..i] + [JiraContent(kind, None)] + c.content[i..]))
         == FormatComment(c)
  {
    var a, b := c.content[..i], c.content[i..];
    ParagraphsAppend(a + [JiraContent(kind, None)], b);
    ParagraphsAppend(a, [JiraContent(kind, None)]);
    ParagraphsAppend(a, b);
    assert Paragraphs([JiraContent(kind, None)]) == [];
    assert a + b == c.content;
    assert Paragraphs(a + [JiraContent(kind, None)] + b) == Paragraphs(c.content);
  }

  /** When no paragraph text holds a full stop, splitting on '.' gives the paragraphs back. */
  lemma ParagraphsRecoverable(c: Comment)
    requires |Paragraphs(c.content)| >= 1
    requires forall i :: 0 <= i < |Paragraphs(c.content)| ==> '.' !in Paragraphs(c.content)[i]
    ensures Split(FormatComment(c), '.') == Paragraphs(c.content)
  {
    SplitJoin(Paragraphs(c.content), '.');
  }

  /** Two paragraphs, one text node without text. */
  lemma FormatExample()
    ensures FormatComment(Comment("doc", 1, [
      JiraContent("paragraph", Some([JiraText("text", Some("Hello")), JiraText("text", None), JiraText("text", Some("world"))])),
      JiraContent("rule", None),
      JiraContent("paragraph", Some([JiraText("text", Some("Bye"))]))])) == "Hello world.Bye"
  {
    var p1 := [JiraText("text", Some("Hello")), JiraText("text", None), JiraText("text", Some("world"))];
    assert PresentTexts(p1[2..]) == ["world"];
    assert PresentTexts(p1[1..]) == ["world"];
    assert PresentTexts(p1) == ["Hello", "world"];
    assert Join(["Hello", "world"], ' ') == "Hello" + " " + Join(["world"], ' ');
    assert Join(PresentTexts(p1), ' ') == "Hello world";
    var p2 := [JiraText("text", Some("Bye"))];
    assert PresentTexts(p2) == ["Bye"];
    var cs := [JiraContent("paragraph", Some(p1)), JiraContent("rule", None), JiraContent("paragraph", Some(p2))];
    assert Paragraphs(cs[2..]) == ["Bye"];
    assert Paragraphs(cs[1..]) == ["Bye"];
    assert cs[0].content == Some(p1);
    assert Paragraphs(cs) == ["Hello world", "Bye"];
  }
}
