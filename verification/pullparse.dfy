/**
  The draft pull tokenizer of bahai_obsidian/pullparse.py: it dispatches on the
  name of each start tag, skips what it does not need, and raises on any tag it
  does not know. The title and heading text, read from a materialised DOM
  subtree, is not modelled; only which events each branch consumes is.
 */
module PullParse {
  import opened Wrappers
  import opened Strings
  import opened Events

  /** The tokens `tokenize` yields, without their text. */
  datatype PullToken = Title | Heading(level: int)

  /** `BahaiHtmlParseError("Unexpected element: " + tag)`. */
  datatype PullError = UnexpectedElement(tag: string)

  /** What the consumer of the generator sees: the yielded values, then possibly the exception. */
  datatype PullOutcome = PullOutcome(tokens: seq<Option<PullToken>>, error: Option<PullError>)

  const IgnoredTags: set<string> := {"html", "body", "div"}
  const HeadingTags: set<string> := {"h1", "h2", "h3", "h4"}

  /** Every tag `tokenize` has a branch for. */
  const KnownTags: set<string> := {"head"} + IgnoredTags + HeadingTags + {"p"}

  /** `int(node.tagName[1])`: the heading level is the digit after the `h`. */
  function HeadingLevel(tag: string): (level: int)
    requires tag in HeadingTags
    ensures 1 <= level <= 4
    ensures tag == "h" + [('0' as int + level) as char]
  {
    (tag[1] as int) - ('0' as int)
  }

  /** pulldom's `expandNode`, as far as the event stream is concerned: it consumes events up to
      and including the end tag of the node, `depth` being the number of elements opened inside
      the node and not yet closed. It stops quietly when the events run out. */
  function ExpandNode(events: seq<Event>, depth: nat): (consumed: nat)
    ensures consumed <= |events|
    ensures consumed < |events| ==> consumed >= 1 && events[consumed - 1].EndElement?
    decreases |events|
  {
    if |events| == 0 then 0
    else if events[0].EndElement? then (if depth == 0 then 1 else 1 + ExpandNode(events[1..], depth - 1))
    else if events[0].StartElement? then 1 + ExpandNode(events[1..], depth + 1)
    else 1 + ExpandNode(events[1..], depth)
  }

  /** `retrieve_paragraph`: the number of events its loop consumes. It reads up to and including
      the first end tag, whichever element that closes, and returns nothing. */
  function RetrieveParagraph(events: seq<Event>): (consumed: nat)
    ensures consumed <= |events|
    ensures forall i :: 0 <= i < consumed && events[i].EndElement? ==> i == consumed - 1
    ensures consumed < |events| ==> consumed >= 1 && events[consumed - 1].EndElement?
  {
    if |events| == 0 then 0
    else if events[0].EndElement? then 1
    else 1 + RetrieveParagraph(events[1..])
  }

  function Prepend(token: Option<PullToken>, o: PullOutcome): PullOutcome
  {
    PullOutcome([token] + o.tokens, o.error)
  }

  /** A START_ELEMENT count bound that survives dropping a prefix. */
  lemma {:induction false} CountStartsOfSuffix(events: seq<Event>, k: nat)
    requires k <= |events|
    ensures CountStarts(events[k..]) <= CountStarts(events)
    decreases k
  {
    if k > 0 {
      CountStartsOfSuffix(events[1..], k - 1);
      assert events[1..][k - 1..] == events[k..];
    }
  }

  /** How the `p` branch finds the end of the paragraph. */
  datatype ParagraphReader =
    | FirstEndTag     // `retrieve_paragraph` as written: up to the first end tag of any element
    | MatchingEndTag  // counting depth as `expandNode` does: up to the paragraph's own end tag

  /** The number of events the `p` branch consumes after the paragraph's start tag. */
  function ParagraphExtent(reader: ParagraphReader, events: seq<Event>): (consumed: nat)
    ensures consumed <= |events|
    ensures consumed < |events| ==> consumed >= 1 && events[consumed - 1].EndElement?
  {
    match reader
    case FirstEndTag => RetrieveParagraph(events)
    case MatchingEndTag => ExpandNode(events, 0)
  }

  /** The `tokenize` loop over the events, with the branch each start tag selects and `reader`
      skipping paragraphs. */
  function TokenizeWith(reader: ParagraphReader, events: seq<Event>): (r: PullOutcome)
    ensures r.error.Some? ==> StartElement(r.error.value.tag) in events && r.error.value.tag !in KnownTags
    ensures forall i :: 0 <= i < |r.tokens| && r.tokens[i].Some? && r.tokens[i].value.Heading? ==>
      1 <= r.tokens[i].value.level <= 4
    ensures |r.tokens| <= CountStarts(events)
    decreases |events|
  {
    if |events| == 0 then PullOutcome([], None)
    else
      var e := events[0];
      var rest := events[1..];
      if !e.StartElement? then TokenizeWith(reader, rest)
      else if e.tag == "head" then
        var k := ExpandNode(rest, 0);
        CountStartsOfSuffix(rest, k);
        Prepend(Some(Title), TokenizeWith(reader, rest[k..]))
      else if e.tag in IgnoredTags then TokenizeWith(reader, rest)
      else if e.tag in HeadingTags then
        var k := ExpandNode(rest, 0);
        CountStartsOfSuffix(rest, k);
        Prepend(Some(Heading(HeadingLevel(e.tag))), TokenizeWith(reader, rest[k..]))
      else if e.tag == "p" then
        var k := ParagraphExtent(reader, rest);
        CountStartsOfSuffix(rest, k);
        Prepend(None, TokenizeWith(reader, rest[k..]))
      else PullOutcome([], Some(UnexpectedElement(e.tag)))
  }

  /** `tokenize` as written: an error names a start tag of the input without a branch, every
      heading level is a digit from 1 to 4, and each token answers a start tag. */
  function Tokenize(events: seq<Event>): (r: PullOutcome)
    ensures r.error.Some? ==> StartElement(r.error.value.tag) in events && r.error.value.tag !in KnownTags
    ensures forall i :: 0 <= i < |r.tokens| && r.tokens[i].Some? && r.tokens[i].value.Heading? ==>
      1 <= r.tokens[i].value.level <= 4
    ensures |r.tokens| <= CountStarts(events)
  {
    TokenizeWith(FirstEndTag, events)
  }

  /** `tokenize` with `retrieve_paragraph` corrected to read to the end of the paragraph. */
  function TokenizeCorrected(events: seq<Event>): PullOutcome
  {
    TokenizeWith(MatchingEndTag, events)
  }

  /** Events other than start tags yield nothing and raise nothing. */
  lemma NoStartNoTokens(events: seq<Event>)
    requires forall i :: 0 <= i < |events| ==> !events[i].StartElement?
    ensures Tokenize(events) == PullOutcome([], None)
  {
    NoStartsIffCountZero(events);
  }

  /** `html`, `body` and `div` yield no token and consume only their own start tag. */
  lemma IgnoredTagYieldsNothing(tag: string, rest: seq<Event>)
    requires tag in IgnoredTags
    ensures Tokenize([StartElement(tag)] + rest) == Tokenize(rest)
  {
    assert ([StartElement(tag)] + rest)[1..] == rest;
  }

  /** The first start tag reached decides: if the tokenizer does not know it, it raises with that
      tag before yielding anything. */
  lemma {:induction false} FirstUnknownTagRaises(prefix: seq<Event>, tag: string, rest: seq<Event>)
    requires forall i :: 0 <= i < |prefix| ==> !prefix[i].StartElement?
    requires tag !in KnownTags
    ensures Tokenize(prefix + [StartElement(tag)] + rest) == PullOutcome([], Some(UnexpectedElement(tag)))
    decreases |prefix|
  {
    var events := prefix + [StartElement(tag)] + rest;
    if |prefix| == 0 {
      assert events[0] == StartElement(tag);
    } else {
      assert events[0] == prefix[0];
      assert events[1..] == prefix[1..] + [StartElement(tag)] + rest;
      FirstUnknownTagRaises(prefix[1..], tag, rest);
    }
  }

  /** `expandNode` passes over a whole well-formed node without changing its depth. */
  lemma {:induction false} ExpandNodeSkipsNode(n: Node, rest: seq<Event>, depth: nat)
    ensures ExpandNode(Serialize(n) + rest, depth) == |Serialize(n)| + ExpandNode(rest, depth)
    decreases n
  {
    match n
    case Text(data) =>
      ConsParts(Characters(data), rest);
    case Element(tag, children) =>
      var close := [EndElement(tag)] + rest;
      SerializeElementThen(tag, children, rest);
      ConsParts(StartElement(tag), SerializeAll(children) + close);
      ExpandNodeSkipsNodes(children, close, depth + 1);
      ConsParts(EndElement(tag), rest);
  }

  lemma {:induction false} ExpandNodeSkipsNodes(ns: seq<Node>, rest: seq<Event>, depth: nat)
    ensures ExpandNode(SerializeAll(ns) + rest, depth) == |SerializeAll(ns)| + ExpandNode(rest, depth)
    decreases ns
  {
    if |ns| == 0 {
      assert SerializeAll(ns) + rest == rest;
    } else {
      SerializeAllThen(ns, rest);
      ExpandNodeSkipsNode(ns[0], SerializeAll(ns[1..]) + rest, depth);
      ExpandNodeSkipsNodes(ns[1..], rest, depth);
    }
  }

  /** After the start tag of an element, `expandNode` consumes exactly the rest of that element. */
  lemma ExpandNodeConsumesElement(tag: string, children: seq<Node>, rest: seq<Event>)
    ensures var events := Serialize(Element(tag, children)) + rest;
      events[1..][ExpandNode(events[1..], 0)..] == rest
  {
    var events := Serialize(Element(tag, children)) + rest;
    assert events[1..] == SerializeAll(children) + ([EndElement(tag)] + rest);
    ExpandNodeSkipsNodes(children, [EndElement(tag)] + rest, 0);
    assert ExpandNode([EndElement(tag)] + rest, 0) == 1;
    assert events[1..][|SerializeAll(children)| + 1..] == rest;
  }

  /** A `head` element yields one title and the tokenizer resumes right after the element. */
  lemma HeadYieldsTitle(children: seq<Node>, rest: seq<Event>)
    ensures Tokenize(Serialize(Element("head", children)) + rest) == Prepend(Some(Title), Tokenize(rest))
  {
    ExpandNodeConsumesElement("head", children, rest);
  }

  /** A heading element yields its level and the tokenizer resumes right after the element. */
  lemma HeadingYieldsLevel(tag: string, children: seq<Node>, rest: seq<Event>)
    requires tag in HeadingTags
    ensures Tokenize(Serialize(Element(tag, children)) + rest) == Prepend(Some(Heading(HeadingLevel(tag))), Tokenize(rest))
  {
    ExpandNodeConsumesElement(tag, children, rest);
  }

  /** The `p` branch of the dispatch. */
  lemma TokenizeParagraph(reader: ParagraphReader, events: seq<Event>)
    requires |events| > 0 && events[0] == StartElement("p")
    ensures TokenizeWith(reader, events)
      == Prepend(None, TokenizeWith(reader, events[1..][ParagraphExtent(reader, events[1..])..]))
  {
    var e := events[0];
    assert e.tag != "head" && e.tag !in IgnoredTags && e.tag !in HeadingTags;
  }

  /** `retrieve_paragraph` stops right after the first end tag, whatever element it closes. */
  lemma {:induction false} RetrieveParagraphStops(middle: seq<Event>, endTag: string, rest: seq<Event>)
    requires forall i :: 0 <= i < |middle| ==> !middle[i].EndElement?
    ensures RetrieveParagraph(middle + ([EndElement(endTag)] + rest)) == |middle| + 1
    decreases |middle|
  {
    var tail := [EndElement(endTag)] + rest;
    if |middle| == 0 {
      assert middle + tail == tail;
    } else {
      assert (middle + tail)[1..] == middle[1..] + tail;
      RetrieveParagraphStops(middle[1..], endTag, rest);
    }
  }

  /** A `p` yields `None` and the tokenizer resumes right after the first end tag that follows,
      even when that end tag closes an element nested in the paragraph. */
  lemma ParagraphYieldsNone(middle: seq<Event>, endTag: string, rest: seq<Event>)
    requires forall i :: 0 <= i < |middle| ==> !middle[i].EndElement?
    ensures Tokenize([StartElement("p")] + (middle + ([EndElement(endTag)] + rest))) == Prepend(None, Tokenize(rest))
  {
    var after := middle + ([EndElement(endTag)] + rest);
    TokenizeParagraph(FirstEndTag, [StartElement("p")] + after);
    ConsParts(StartElement("p"), after);
    RetrieveParagraphStops(middle, endTag, rest);
    assert after[|middle| + 1..] == rest;
  }

  /** As written, `<p><b>x</b> and <b>y</b></p>`: the paragraph is left at the first `</b>`, so
      the second `b` reaches the dispatch and raises after the paragraph's `None`. Read to the
      paragraph's own end tag, the same input yields `None` alone. */
  lemma NestedParagraphRaisesAsWritten(x: string, y: string)
    ensures Tokenize(BoldParagraph(x, y)) == PullOutcome([None], Some(UnexpectedElement("b")))
    ensures TokenizeCorrected(BoldParagraph(x, y)) == PullOutcome([None], None)
  {
    BoldParagraphAsWritten(x, y);
    BoldParagraphCorrected(x, y);
  }

  /** The as-written half: the paragraph is read up to the first `</b>`, then the raise at the second `b`. */
  lemma BoldParagraphAsWritten(x: string, y: string)
    ensures Tokenize(BoldParagraph(x, y)) == PullOutcome([None], Some(UnexpectedElement("b")))
  {
    var after := AfterFirstBold(y);
    BoldParagraphParts(x, y);
    ParagraphYieldsNone([StartElement("b"), Characters(x)], "b", after);
    SecondBoldRaises(y);
    var none: seq<Option<PullToken>> := [None];
    assert none + [] == none;
  }

  /** What follows the first `</b>` of `<p><b>x</b> and <b>y</b></p>`. */
  function AfterFirstBold(y: string): seq<Event>
  {
    [Characters(" and "), StartElement("b"), Characters(y), EndElement("b"), EndElement("p")]
  }

  /** The paragraph's events split at the first end tag. */
  lemma BoldParagraphParts(x: string, y: string)
    ensures BoldParagraph(x, y)
      == [StartElement("p")] + ([StartElement("b"), Characters(x)] + ([EndElement("b")] + AfterFirstBold(y)))
  {
    var after := AfterFirstBold(y);
    var endB := EndElement("b");
    assert [endB] + after == [endB, Characters(" and "), StartElement("b"), Characters(y), endB, EndElement("p")];
  }

  /** After the first `</b>`, the text is skipped and the second `b` raises. */
  lemma SecondBoldRaises(y: string)
    ensures Tokenize(AfterFirstBold(y)) == PullOutcome([], Some(UnexpectedElement("b")))
  {
    var prefix, tail := [Characters(" and ")], [Characters(y), EndElement("b"), EndElement("p")];
    assert AfterFirstBold(y) == prefix + [StartElement("b")] + tail;
    FirstUnknownTagRaises(prefix, "b", tail);
  }

  /** The corrected half: the whole paragraph is one element, read to its own end tag. */
  lemma BoldParagraphCorrected(x: string, y: string)
    ensures TokenizeCorrected(BoldParagraph(x, y)) == PullOutcome([None], None)
  {
    var children := [Element("b", [Text(x)]), Text(" and "), Element("b", [Text(y)])];
    BoldParagraphEvents(x, y);
    assert Serialize(Element("p", children)) + [] == BoldParagraph(x, y);
    ParagraphYieldsNoneCorrected(children, []);
  }

  /** The events of `<p><b>x</b> and <b>y</b></p>`, built node by node. */
  lemma BoldParagraphEvents(x: string, y: string)
    ensures Serialize(Element("p", [Element("b", [Text(x)]), Text(" and "), Element("b", [Text(y)])])) == BoldParagraph(x, y)
  {
    var first, between, second := Element("b", [Text(x)]), Text(" and "), Element("b", [Text(y)]);
    var children := [first, between, second];
    assert [Text(x)][1..] == [] && [Text(y)][1..] == [];
    assert SerializeAll([Text(x)]) == [Characters(x)] + SerializeAll([]);
    assert SerializeAll([Text(y)]) == [Characters(y)] + SerializeAll([]);
    assert Serialize(first) == [StartElement("b"), Characters(x), EndElement("b")];
    assert Serialize(second) == [StartElement("b"), Characters(y), EndElement("b")];
    assert children[1..] == [between, second] && [between, second][1..] == [second] && [second][1..] == [];
    assert SerializeAll([second]) == Serialize(second) + SerializeAll([]);
    assert SerializeAll([between, second]) == Serialize(between) + SerializeAll([second]);
    assert SerializeAll(children) == Serialize(first) + SerializeAll([between, second]);
  }

  /** `<p><b>x</b> and <b>y</b></p>`. */
  function BoldParagraph(x: string, y: string): seq<Event>
  {
    [StartElement("p"), StartElement("b"), Characters(x), EndElement("b"), Characters(" and "),
     StartElement("b"), Characters(y), EndElement("b"), EndElement("p")]
  }
  /** Corrected: a `p` element, whatever it holds, yields one `None` and the tokenizer resumes
      right after the paragraph's own end tag. */
  lemma ParagraphYieldsNoneCorrected(children: seq<Node>, rest: seq<Event>)
    ensures TokenizeCorrected(Serialize(Element("p", children)) + rest) == Prepend(None, TokenizeCorrected(rest))
  {
    var events := Serialize(Element("p", children)) + rest;
    SerializeElementThen("p", children, rest);
    TokenizeParagraph(MatchingEndTag, events);
    ExpandNodeConsumesElement("p", children, rest);
  }
}
