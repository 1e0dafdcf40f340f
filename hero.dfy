/**
 * The hero title's character split: the heading's text is read, the
 * heading is emptied, and one span per character is appended so that the
 * characters can be animated one by one. JavaScript strings are sequences
 * of UTF-16 code units and `split('')` splits between code units, so text
 * here is a sequence of code units.
 */
module Hero {

  newtype CodeUnit = x: int | 0 <= x < 0x1_0000

  type Utf16 = seq<CodeUnit>

  const Space: CodeUnit := 0x20
  const NoBreakSpace: CodeUnit := 0xA0

  /** The class every character span gets. */
  const CharClassName: string := "char inline-block"

  /** A child of the heading: a text node, or a span holding its own text. */
  datatype Node = Text(data: Utf16) | Span(className: string, text: Utf16)

  function NodeText(n: Node): Utf16 {
    match n
    case Text(d) => d
    case Span(_, t) => t
  }

  /** The heading's text: its children's texts, in order. */
  function InnerText(children: seq<Node>): (text: Utf16)
    ensures children == [] ==> text == []
    ensures |children| == 1 ==> text == NodeText(children[0])
    decreases |children|
  {
    if children == [] then []
    else InnerText(children[..|children| - 1]) + NodeText(children[|children| - 1])
  }

  /** What a span shows for one code unit: a space would collapse, so it becomes U+00A0. */
  function DisplayUnit(c: CodeUnit): (d: CodeUnit)
    ensures d != Space
    ensures c == Space ==> d == NoBreakSpace
    ensures c != Space ==> d == c
  {
    if c == Space then NoBreakSpace else c
  }

  /** The span created for one code unit: class `char inline-block`, showing that one unit. */
  function CharSpan(c: CodeUnit): (span: Node)
    ensures span.Span? && span.className == CharClassName
    ensures |span.text| == 1 && span.text[0] != Space
    ensures c != Space ==> span.text == [c]
  {
    Span(CharClassName, [DisplayUnit(c)])
  }

  /** The spans appended for `text`, one per code unit, in the order they are appended. */
  function CharSpans(text: Utf16): (spans: seq<Node>)
    ensures |spans| == |text|
    ensures forall n :: n in spans ==> n.Span? && n.className == CharClassName
    decreases |text|
  {
    if text == [] then []
    else CharSpans(text[..|text| - 1]) + [CharSpan(text[|text| - 1])]
  }

  /** Reference definition: `text` with every space replaced by U+00A0. */
  function ReplaceSpaces(text: Utf16): (r: Utf16)
    ensures |r| == |text|
    ensures forall k :: 0 <= k < |text| ==> r[k] == DisplayUnit(text[k])
  {
    seq(|text|, k requires 0 <= k < |text| => DisplayUnit(text[k]))
  }

  /** One span per code unit, in order, each of class `char inline-block` showing its unit. */
  lemma {:induction false} CharSpansShape(text: Utf16)
    ensures |CharSpans(text)| == |text|
    ensures forall k :: 0 <= k < |text| ==> CharSpans(text)[k] == Span(CharClassName, [DisplayUnit(text[k])])
    decreases |text|
  {
    if text != [] {
      var init := text[..|text| - 1];
      CharSpansShape(init);
      forall k | 0 <= k < |text|
        ensures CharSpans(text)[k] == Span(CharClassName, [DisplayUnit(text[k])])
      {
        if k < |init| {
          assert init[k] == text[k];
        }
      }
    }
  }

  /** The text of the split heading is the original text with spaces made non-breaking. */
  lemma {:induction false} InnerTextOfCharSpans(text: Utf16)
    ensures InnerText(CharSpans(text)) == ReplaceSpaces(text)
    decreases |text|
  {
    if text != [] {
      var init := text[..|text| - 1];
      var c := text[|text| - 1];
      assert text == init + [c];
      calc {
        InnerText(CharSpans(text));
        InnerText(CharSpans(init) + [CharSpan(c)]);
        { InnerTextAppend(CharSpans(init), CharSpan(c)); }
        InnerText(CharSpans(init)) + NodeText(CharSpan(c));
        { InnerTextOfCharSpans(init); }
        ReplaceSpaces(init) + [DisplayUnit(c)];
        { ReplaceSpacesAppend(init, c); }
        ReplaceSpaces(text);
      }
    }
  }

  lemma InnerTextAppend(children: seq<Node>, n: Node)
    ensures InnerText(children + [n]) == InnerText(children) + NodeText(n)
  {
    assert (children + [n])[..|children|] == children;
  }

  lemma ReplaceSpacesAppend(text: Utf16, c: CodeUnit)
    ensures ReplaceSpaces(text + [c]) == ReplaceSpaces(text) + [DisplayUnit(c)]
  {
    var l := ReplaceSpaces(text + [c]);
    var r := ReplaceSpaces(text) + [DisplayUnit(c)];
    assert |l| == |r|;
    forall k | 0 <= k < |l| ensures l[k] == r[k] {
      if k < |text| {
        assert (text + [c])[k] == text[k];
      }
    }
  }

  /** No plain space survives the split. */
  lemma NoSpaceAfterSplit(text: Utf16)
    ensures Space !in InnerText(CharSpans(text))
  {
    InnerTextOfCharSpans(text);
  }

  /** Splitting the already-split heading again yields the same spans. */
  lemma SplitIsIdempotent(text: Utf16)
    ensures CharSpans(InnerText(CharSpans(text))) == CharSpans(text)
  {
    var again := InnerText(CharSpans(text));
    InnerTextOfCharSpans(text);
    CharSpansShape(text);
    CharSpansShape(again);
  }

  /**
   * A character outside the Basic Multilingual Plane, a surrogate pair in
   * UTF-16, becomes two spans, one per surrogate.
   */
  lemma SurrogatePairSplits(hi: CodeUnit, lo: CodeUnit)
    requires 0xD800 <= hi < 0xDC00 && 0xDC00 <= lo < 0xE000
    ensures CharSpans([hi, lo]) == [Span(CharClassName, [hi]), Span(CharClassName, [lo])]
  {
    CharSpansShape([hi, lo]);
  }

  /** The `h1` element of the hero section. */
  class TitleElement {
    var children: seq<Node>

    /** The heading as rendered: one text node. */
    constructor (title: Utf16)
      ensures children == [Text(title)]
    {
      children := [Text(title)];
    }

    /** The mount effect's split: read the text, empty the heading, append a span per code unit. */
    method SplitIntoChars()
      modifies this
      ensures children == CharSpans(old(InnerText(children)))
    {
      var text := InnerText(children);
      children := [];
      var i := 0;
      while i < |text|
        invariant 0 <= i <= |text|
        invariant children == CharSpans(text[..i])
      {
        assert text[..i + 1][..i] == text[..i];
        children := children + [CharSpan(text[i])];
        i := i + 1;
      }
      assert text[..|text|] == text;
    }
  }
}
