/**
  A compositional reference semantics for the stackparse.py loop. A well-formed
  document is a tree; `Eval` says what a handler becomes, and what is emitted, when
  a node is parsed as its child, by recursion over the tree instead of a stack.
  The main theorem states that the stack machine run over the tree's events
  computes exactly that, for any handler table.
 */
module StackTree {
  import opened Wrappers
  import opened Strings
  import opened Events
  import opened StackParse
  import opened StackProperties

  /** Parsing node `n` as a child of handler `h`: text goes to `h`; an element builds its own
      handler from its children, and the finished handler and its result go to `h.Accept`. */
  function Eval(table: Table, h: Handler, n: Node): Result<(Handler, seq<Option<Token>>), ParseError>
    decreases n
  {
    match n
    case Text(data) => Ok((Handle(h, Characters(data)), []))
    case Element(tag, children) =>
      if tag !in table then Err(UnknownTag(tag))
      else match EvalAll(table, table[tag], children)
        case Err(error) => Err(error)
        case Ok((finished, inner)) =>
          var (h', emitted) := Accept(h, finished, Finalize(finished));
          Ok((h', inner + emitted))
  }

  /** Parsing a run of sibling nodes under handler `h`, left to right. */
  function EvalAll(table: Table, h: Handler, ns: seq<Node>): Result<(Handler, seq<Option<Token>>), ParseError>
    decreases ns
  {
    if |ns| == 0 then Ok((h, []))
    else match Eval(table, h, ns[0])
      case Err(error) => Err(error)
      case Ok((h1, emitted1)) =>
        match EvalAll(table, h1, ns[1..])
        case Err(error) => Err(error)
        case Ok((h2, emitted2)) => Ok((h2, emitted1 + emitted2))
  }

  /** What parsing `events` from `m` should give when the reference semantics says `expected`
      for the handler on top of `m`. */
  predicate Agrees(table: Table, m: Machine, events: seq<Event>, expected: Result<(Handler, seq<Option<Token>>), ParseError>)
    requires |m.stack| >= 1
  {
    match expected
    case Ok((h', emitted)) => ParseFrom(table, m, events) == Done(Machine(Pop(m.stack) + [h'], m.out + emitted))
    case Err(error) => ParseFrom(table, m, events).Failed? && ParseFrom(table, m, events).error == error
  }

  /** The stack machine computes the reference semantics: on a node, the handler on top of the
      stack ends up as `Eval` says, nothing below it changes, and the output grows by exactly
      what `Eval` emits; an unrecognised tag makes both fail with the same error. */
  lemma {:induction false} ParseMatchesEval(table: Table, m: Machine, n: Node)
    requires |m.stack| >= 1
    ensures Agrees(table, m, Serialize(n), Eval(table, Top(m.stack), n))
    decreases n
  {
    match n
    case Text(data) => TextMatchesEval(table, m, data);
    case Element(tag, children) =>
      if tag in table {
        var m1 := Machine(m.stack + [table[tag]], m.out);
        assert Top(m1.stack) == table[tag] && Pop(m1.stack) == m.stack;
        ParseMatchesEvalAll(table, m1, children);
        var r := EvalAll(table, table[tag], children);
        if r.Ok? {
          ElementMatchesEval(table, m, tag, children, r.value.0, r.value.1);
        } else {
          ElementFailsLikeEval(table, m, tag, children, r.error);
        }
      } else {
        UnknownElementFails(table, m, tag, children);
      }
  }

  /** Character data: one `handle` call on the top handler, nothing emitted. */
  lemma TextMatchesEval(table: Table, m: Machine, data: string)
    requires |m.stack| >= 1
    ensures Agrees(table, m, Serialize(Text(data)), Eval(table, Top(m.stack), Text(data)))
  {
    var h' := Handle(Top(m.stack), Characters(data));
    var m1 := Deliver(m, Characters(data)).value;
    ParseSingle(table, m, Characters(data), m1);
    assert Eval(table, Top(m.stack), Text(data)) == Ok((h', []));
    assert m1 == Machine(Pop(m.stack) + [h'], m.out + []);
  }

  /** A recognised element whose children parse as `EvalAll` says: the end tag then closes it. */
  lemma ElementMatchesEval(table: Table, m: Machine, tag: string, children: seq<Node>, finished: Handler, inner: seq<Option<Token>>)
    requires |m.stack| >= 1 && tag in table
    requires EvalAll(table, table[tag], children) == Ok((finished, inner))
    requires ParseFrom(table, Machine(m.stack + [table[tag]], m.out), SerializeAll(children))
      == Done(Machine(m.stack + [finished], m.out + inner))
    ensures Agrees(table, m, Serialize(Element(tag, children)), Eval(table, Top(m.stack), Element(tag, children)))
  {
    var body := SerializeAll(children);
    var close := [EndElement(tag)];
    var m1 := Machine(m.stack + [table[tag]], m.out);
    var m2 := Machine(m.stack + [finished], m.out + inner);
    SerializeElement(tag, children);
    ParseOpen(table, m, tag, body + close);
    ParseAppendDone(table, m1, body, close, m2);
    CloseAfterChildren(m, finished, inner);
    StepClose(table, m2, tag);
    ParseSingle(table, m2, EndElement(tag), Close(m2).value);
    EvalElement(table, Top(m.stack), tag, children);
  }

  /** A recognised element whose children fail: the element fails with the same error. */
  lemma ElementFailsLikeEval(table: Table, m: Machine, tag: string, children: seq<Node>, error: ParseError)
    requires |m.stack| >= 1 && tag in table
    requires EvalAll(table, table[tag], children) == Err(error)
    requires ParseFrom(table, Machine(m.stack + [table[tag]], m.out), SerializeAll(children)).Failed?
    requires ParseFrom(table, Machine(m.stack + [table[tag]], m.out), SerializeAll(children)).error == error
    ensures Agrees(table, m, Serialize(Element(tag, children)), Eval(table, Top(m.stack), Element(tag, children)))
  {
    var body := SerializeAll(children);
    var close := [EndElement(tag)];
    var m1 := Machine(m.stack + [table[tag]], m.out);
    SerializeElement(tag, children);
    ParseOpen(table, m, tag, body + close);
    ParseAppendFailed(table, m1, body, close);
    assert Eval(table, Top(m.stack), Element(tag, children)) == Err(error);
  }

  /** An element without a handler fails at its start tag, and so does `Eval`. */
  lemma UnknownElementFails(table: Table, m: Machine, tag: string, children: seq<Node>)
    requires |m.stack| >= 1 && tag !in table
    ensures Agrees(table, m, Serialize(Element(tag, children)), Eval(table, Top(m.stack), Element(tag, children)))
  {
    var events := Serialize(Element(tag, children));
    SerializeElement(tag, children);
    ConsParts(StartElement(tag), SerializeAll(children) + [EndElement(tag)]);
    assert Step(table, m, events[0]) == Err(UnknownTag(tag));
    assert Eval(table, Top(m.stack), Element(tag, children)) == Err(UnknownTag(tag));
  }

  /** Closing an element whose finished handler sits above `m`'s stack. */
  lemma CloseAfterChildren(m: Machine, finished: Handler, inner: seq<Option<Token>>)
    requires |m.stack| >= 1
    ensures var (h', emitted) := Accept(Top(m.stack), finished, Finalize(finished));
      Close(Machine(m.stack + [finished], m.out + inner))
        == Ok(Machine(Pop(m.stack) + [h'], m.out + (inner + emitted)))
  {
    var m2 := Machine(m.stack + [finished], m.out + inner);
    assert Pop(m2.stack) == m.stack;
    var (h', emitted) := Accept(Top(m.stack), finished, Finalize(finished));
    SeqAssoc(m.out, inner, emitted);
  }

  /** The same, for a run of sibling nodes. */
  lemma {:induction false} ParseMatchesEvalAll(table: Table, m: Machine, ns: seq<Node>)
    requires |m.stack| >= 1
    ensures Agrees(table, m, SerializeAll(ns), EvalAll(table, Top(m.stack), ns))
    decreases ns
  {
    if |ns| == 0 {
      assert Pop(m.stack) + [Top(m.stack)] == m.stack;
      assert m.out + [] == m.out;
    } else {
      ParseMatchesEval(table, m, ns[0]);
      var r1 := Eval(table, Top(m.stack), ns[0]);
      if r1.Ok? {
        var m1 := Machine(Pop(m.stack) + [r1.value.0], m.out + r1.value.1);
        assert Top(m1.stack) == r1.value.0;
        ParseMatchesEvalAll(table, m1, ns[1..]);
        SiblingsAfterDone(table, m, ns, r1.value.0, r1.value.1);
      } else {
        SiblingsAfterFailure(table, m, ns, r1.error);
      }
    }
  }

  /** The first sibling parsed as `Eval` says; the rest follow from where it stopped. */
  lemma SiblingsAfterDone(table: Table, m: Machine, ns: seq<Node>, h1: Handler, emitted1: seq<Option<Token>>)
    requires |m.stack| >= 1 && |ns| >= 1
    requires Eval(table, Top(m.stack), ns[0]) == Ok((h1, emitted1))
    requires ParseFrom(table, m, Serialize(ns[0])) == Done(Machine(Pop(m.stack) + [h1], m.out + emitted1))
    requires Agrees(table, Machine(Pop(m.stack) + [h1], m.out + emitted1), SerializeAll(ns[1..]), EvalAll(table, h1, ns[1..]))
    ensures Agrees(table, m, SerializeAll(ns), EvalAll(table, Top(m.stack), ns))
  {
    var m1 := Machine(Pop(m.stack) + [h1], m.out + emitted1);
    assert Pop(m1.stack) == Pop(m.stack);
    ParseAppendDone(table, m, Serialize(ns[0]), SerializeAll(ns[1..]), m1);
    var r2 := EvalAll(table, h1, ns[1..]);
    if r2.Ok? {
      var emitted2 := r2.value.1;
      assert EvalAll(table, Top(m.stack), ns) == Ok((r2.value.0, emitted1 + emitted2));
      SeqAssoc(m.out, emitted1, emitted2);
    } else {
      assert EvalAll(table, Top(m.stack), ns) == Err(r2.error);
    }
  }

  /** The first sibling fails; so does the whole run, with the same error. */
  lemma SiblingsAfterFailure(table: Table, m: Machine, ns: seq<Node>, error: ParseError)
    requires |m.stack| >= 1 && |ns| >= 1
    requires Eval(table, Top(m.stack), ns[0]) == Err(error)
    requires ParseFrom(table, m, Serialize(ns[0])).Failed? && ParseFrom(table, m, Serialize(ns[0])).error == error
    ensures Agrees(table, m, SerializeAll(ns), EvalAll(table, Top(m.stack), ns))
  {
    ParseAppendFailed(table, m, Serialize(ns[0]), SerializeAll(ns[1..]));
    assert EvalAll(table, Top(m.stack), ns) == Err(error);
  }

  /** As written, the whole document fails at its root's end tag, but only after every token the
      reference semantics emits inside the root has been delivered. */
  lemma DocumentFailsAfterItsTokens(tag: string, children: seq<Node>)
    requires tag in TagHandlers
    requires EvalAll(TagHandlers, TagHandlers[tag], children).Ok?
    ensures var (finished, inner) := EvalAll(TagHandlers, TagHandlers[tag], children).value;
      ParseHtml(Serialize(Element(tag, children))) == Failed(Machine([finished], inner), EmptyStack)
  {
    var (finished, inner) := EvalAll(TagHandlers, TagHandlers[tag], children).value;
    RootFailsAfterItsTokens(TagHandlers, tag, children, finished, inner);
  }

  /** The same for the stream pulldom produces, framed by START_DOCUMENT and END_DOCUMENT. */
  lemma DocumentStreamFailsAfterItsTokens(tag: string, children: seq<Node>)
    requires tag in TagHandlers
    requires EvalAll(TagHandlers, TagHandlers[tag], children).Ok?
    ensures var (finished, inner) := EvalAll(TagHandlers, TagHandlers[tag], children).value;
      ParseHtml([StartDocument] + Serialize(Element(tag, children)) + [EndDocument])
        == Failed(Machine([finished], inner), EmptyStack)
  {
    DocumentFailsAfterItsTokens(tag, children);
    DocumentEventsChangeNothing(TagHandlers, Machine([], []), Serialize(Element(tag, children)));
  }

  /** The same for any table: the lone handler of the root is popped by its end tag. */
  lemma RootFailsAfterItsTokens(table: Table, tag: string, children: seq<Node>, finished: Handler, inner: seq<Option<Token>>)
    requires tag in table
    requires EvalAll(table, table[tag], children) == Ok((finished, inner))
    ensures ParseFrom(table, Machine([], []), Serialize(Element(tag, children))) == Failed(Machine([finished], inner), EmptyStack)
  {
    var body := SerializeAll(children);
    var close := [EndElement(tag)];
    SerializeElement(tag, children);
    var m1 := Machine([] + [table[tag]], []);
    ParseOpen(table, Machine([], []), tag, body + close);
    assert Top(m1.stack) == table[tag] && Pop(m1.stack) == [] && m1.out == [];
    ParseMatchesEvalAll(table, m1, children);
    assert [] + [finished] == [finished] && [] + inner == inner;
    ParseAppendDone(table, m1, body, close, Machine([finished], inner));
    CloseLastFails(table, Machine([finished], inner), tag);
  }

  /** The end tag that pops the last handler raises. */
  lemma CloseLastFails(table: Table, m: Machine, tag: string)
    requires |m.stack| == 1
    ensures ParseFrom(table, m, [EndElement(tag)]) == Failed(m, EmptyStack)
  {
  }

  /** With the sentinel root, the whole document parses to the end, and the output is exactly what
      the reference semantics emits for the document under an ignoring root. */
  lemma RootedDocumentMatchesEval(root: Node)
    requires Eval(TagHandlers, IgnoreTag, root).Ok?
    ensures ParseRooted(Serialize(root)) == Done(Machine([IgnoreTag], Eval(TagHandlers, IgnoreTag, root).value.1))
  {
    RootedMatchesEval(TagHandlers, root);
  }

  /** The same for the stream pulldom produces, framed by START_DOCUMENT and END_DOCUMENT. */
  lemma RootedDocumentStreamMatchesEval(root: Node)
    requires Eval(TagHandlers, IgnoreTag, root).Ok?
    ensures ParseRooted([StartDocument] + Serialize(root) + [EndDocument])
      == Done(Machine([IgnoreTag], Eval(TagHandlers, IgnoreTag, root).value.1))
  {
    RootedDocumentMatchesEval(root);
    DocumentEventsChangeNothing(TagHandlers, Machine([IgnoreTag], []), Serialize(root));
  }

  /** The same for any table. */
  lemma RootedMatchesEval(table: Table, root: Node)
    requires Eval(table, IgnoreTag, root).Ok?
    ensures ParseFrom(table, Machine([IgnoreTag], []), Serialize(root))
      == Done(Machine([IgnoreTag], Eval(table, IgnoreTag, root).value.1))
  {
    var m := Machine([IgnoreTag], []);
    ParseMatchesEval(table, m, root);
    var emitted := Eval(table, IgnoreTag, root).value.1;
    IgnoreEvalKeepsRoot(table, root);
    assert Pop(m.stack) + [IgnoreTag] == [IgnoreTag];
    assert m.out + emitted == emitted;
  }

  /** Under an ignoring handler a node evaluates, when it succeeds, back to the ignoring handler. */
  lemma IgnoreEvalKeepsRoot(table: Table, n: Node)
    requires Eval(table, IgnoreTag, n).Ok?
    ensures Eval(table, IgnoreTag, n).value.0 == IgnoreTag
  {
    if n.Text? {
      assert Eval(table, IgnoreTag, n).value.0 == Handle(IgnoreTag, Characters(n.data));
    } else {
      var (finished, _) := EvalAll(table, table[n.tag], n.children).value;
      assert Eval(table, IgnoreTag, n).value.0 == Accept(IgnoreTag, finished, Finalize(finished)).0;
    }
  }

  /** Sibling text nodes, one per chunk. */
  function TextNodes(chunks: seq<string>): (ns: seq<Node>)
    ensures |ns| == |chunks|
    ensures forall i :: 0 <= i < |ns| ==> ns[i] == Text(chunks[i])
  {
    if |chunks| == 0 then [] else [Text(chunks[0])] + TextNodes(chunks[1..])
  }

  lemma {:induction false} TextNodesSerialize(chunks: seq<string>)
    ensures SerializeAll(TextNodes(chunks)) == Texts(chunks)
    decreases |chunks|
  {
    if |chunks| > 0 {
      assert TextNodes(chunks)[1..] == TextNodes(chunks[1..]);
      TextNodesSerialize(chunks[1..]);
    }
  }

  /** An element of a recognised tag hands its finished handler and result to the parent. */
  lemma EvalElement(table: Table, h: Handler, tag: string, children: seq<Node>)
    requires tag in table
    requires EvalAll(table, table[tag], children).Ok?
    ensures var (finished, inner) := EvalAll(table, table[tag], children).value;
      var (h', emitted) := Accept(h, finished, Finalize(finished));
      Eval(table, h, Element(tag, children)) == Ok((h', inner + emitted))
  {
  }

  /** Text alone inside a heading: the heading's text is the chunks joined in order, nothing is emitted. */
  lemma HeadingChildren(table: Table, level: int, chunks: seq<string>)
    ensures EvalAll(table, HeadingTag(level, ""), TextNodes(chunks)) == Ok((HeadingTag(level, Concat(chunks)), []))
  {
    var m := Machine([IgnoreTag, HeadingTag(level, "")], []);
    TextNodesSerialize(chunks);
    ParseMatchesEvalAll(table, m, TextNodes(chunks));
    assert [IgnoreTag] + [HeadingTag(level, "")] == m.stack;
    HeadingConcatenatesText(table, [IgnoreTag], level, "", [], chunks);
    assert "" + Concat(chunks) == Concat(chunks);
    var r := EvalAll(table, HeadingTag(level, ""), TextNodes(chunks));
    assert r.Ok?;
    assert Machine([IgnoreTag] + [r.value.0], [] + r.value.1)
      == Machine([IgnoreTag] + [HeadingTag(level, Concat(chunks))], []);
    assert [IgnoreTag] + [r.value.0] == [IgnoreTag, r.value.0];
    assert r.value.0 == ([IgnoreTag] + [r.value.0])[1];
  }

  /** A heading element holding only text, opened under an ignoring parent, emits one `Heading`
      whose level is the tag's and whose text is all its character data in order, then `None`. */
  lemma HeadingElementEmitsHeading(tag: string, chunks: seq<string>)
    requires tag in TagHandlers && TagHandlers[tag].HeadingTag?
    ensures Eval(TagHandlers, IgnoreTag, Element(tag, TextNodes(chunks)))
      == Ok((IgnoreTag, [Some(Heading(TagHandlers[tag].level, Concat(chunks))), None]))
  {
    var level := TagHandlers[tag].level;
    assert TagHandlers[tag] == HeadingTag(level, "");
    HeadingEmits(TagHandlers, tag, level, chunks);
  }

  /** The same for any table whose handler for `tag` is a fresh heading. */
  lemma HeadingEmits(table: Table, tag: string, level: int, chunks: seq<string>)
    requires tag in table && table[tag] == HeadingTag(level, "")
    ensures Eval(table, IgnoreTag, Element(tag, TextNodes(chunks)))
      == Ok((IgnoreTag, [Some(Heading(level, Concat(chunks))), None]))
  {
    HeadingChildren(table, level, chunks);
    EvalElement(table, IgnoreTag, tag, TextNodes(chunks));
    var heading := Heading(level, Concat(chunks));
    assert Finalize(HeadingTag(level, Concat(chunks))) == Some(heading);
    assert Accept(IgnoreTag, HeadingTag(level, Concat(chunks)), Some(heading)) == (IgnoreTag, [Some(heading), None]);
    assert [] + [Some(heading), None] == [Some(heading), None];
  }

  /** Text alone inside a paragraph: one string item per chunk, appended in order, nothing emitted. */
  lemma {:induction false} ParagraphChildren(table: Table, items: seq<Token>, chunks: seq<string>)
    ensures EvalAll(table, ParagraphTag(items), TextNodes(chunks)) == Ok((ParagraphTag(items + StrItems(chunks)), []))
    decreases |chunks|
  {
    var ns := TextNodes(chunks);
    if |chunks| == 0 {
      assert items + StrItems(chunks) == items;
    } else {
      assert ns[0] == Text(chunks[0]) && ns[1..] == TextNodes(chunks[1..]);
      var items' := items + [Str(chunks[0])];
      assert Eval(table, ParagraphTag(items), ns[0]) == Ok((ParagraphTag(items'), []));
      ParagraphChildren(table, items', chunks[1..]);
      assert StrItems(chunks) == [Str(chunks[0])] + StrItems(chunks[1..]);
      SeqAssoc(items, [Str(chunks[0])], StrItems(chunks[1..]));
      var none: seq<Option<Token>> := [];
      assert none + none == none;
    }
  }

  /** Text alone under a handler whose `handle` has no effect leaves it as it was, emitting nothing. */
  lemma {:induction false} InertChildren(table: Table, h: Handler, chunks: seq<string>)
    requires !Accumulates(h)
    ensures EvalAll(table, h, TextNodes(chunks)) == Ok((h, []))
    decreases |chunks|
  {
    var ns := TextNodes(chunks);
    if |chunks| > 0 {
      assert ns[0] == Text(chunks[0]) && ns[1..] == TextNodes(chunks[1..]);
      InertChildren(table, h, chunks[1..]);
      var none: seq<Option<Token>> := [];
      assert none + none == none;
    }
  }

  /** A paragraph holding only text, opened under an ignoring parent, emits one `Paragraph` whose
      items are its chunks in order, then `None`. */
  lemma ParagraphElementEmitsParagraph(chunks: seq<string>)
    ensures Eval(TagHandlers, IgnoreTag, Element("p", TextNodes(chunks)))
      == Ok((IgnoreTag, [Some(Paragraph(StrItems(chunks))), None]))
  {
    assert "p" in TagHandlers && TagHandlers["p"] == ParagraphTag([]);
    ParagraphEmits(TagHandlers, "p", chunks);
  }

  /** The same for any table whose handler for `tag` is a fresh paragraph. */
  lemma ParagraphEmits(table: Table, tag: string, chunks: seq<string>)
    requires tag in table && table[tag] == ParagraphTag([])
    ensures Eval(table, IgnoreTag, Element(tag, TextNodes(chunks)))
      == Ok((IgnoreTag, [Some(Paragraph(StrItems(chunks))), None]))
  {
    ParagraphChildren(table, [], chunks);
    assert [] + StrItems(chunks) == StrItems(chunks);
    EvalElement(table, IgnoreTag, tag, TextNodes(chunks));
    var paragraph := Paragraph(StrItems(chunks));
    assert Finalize(ParagraphTag(StrItems(chunks))) == Some(paragraph);
    assert Accept(IgnoreTag, ParagraphTag(StrItems(chunks)), Some(paragraph)) == (IgnoreTag, [Some(paragraph), None]);
    assert [] + [Some(paragraph), None] == [Some(paragraph), None];
  }

  /** `<p>before<sup>inner</sup>after</p>` under an ignoring parent: the `sup` closes first, and
      the paragraph's `accept` yields its `None`; the paragraph keeps the bare markers as its middle
      item, dropping the superscript text, and is emitted when it closes. */
  lemma ParagraphWithSupElement(before: string, inner: seq<string>, after: string)
    ensures Eval(TagHandlers, IgnoreTag, Element("p", [Text(before), Element("sup", TextNodes(inner)), Text(after)]))
      == Ok((IgnoreTag, [None, Some(Paragraph([Str(before), Str("<sup></sup>"), Str(after)])), None]))
  {
    assert "p" in TagHandlers && TagHandlers["p"] == ParagraphTag([]);
    SupHandler();
    ParagraphWithSup(TagHandlers, before, inner, after);
  }

  /** The same for any table with a fresh paragraph for `p` and the superscript formatter for `sup`. */
  lemma ParagraphWithSup(table: Table, before: string, inner: seq<string>, after: string)
    requires "p" in table && table["p"] == ParagraphTag([])
    requires "sup" in table && table["sup"] == InlineFormatting("<sup>", "</sup>", "")
    ensures Eval(table, IgnoreTag, Element("p", [Text(before), Element("sup", TextNodes(inner)), Text(after)]))
      == Ok((IgnoreTag, [None, Some(Paragraph([Str(before), Str("<sup></sup>"), Str(after)])), None]))
  {
    var ns := [Text(before), Element("sup", TextNodes(inner)), Text(after)];
    var items := [Str(before), Str("<sup></sup>"), Str(after)];
    ParagraphWithSupChildren(table, before, inner, after);
    EvalElement(table, IgnoreTag, "p", ns);
    var closing: seq<Option<Token>> := [None];
    assert Accept(IgnoreTag, ParagraphTag(items), Some(Paragraph(items))) == (IgnoreTag, [Some(Paragraph(items)), None]);
    assert closing + [Some(Paragraph(items)), None] == [None, Some(Paragraph(items)), None];
  }

  /** The children of that paragraph, left to right: the text, then the `sup` whose closing
      appends its bare markers and yields `None`, then the text after it. */
  lemma ParagraphWithSupChildren(table: Table, before: string, inner: seq<string>, after: string)
    requires "sup" in table && table["sup"] == InlineFormatting("<sup>", "</sup>", "")
    ensures EvalAll(table, ParagraphTag([]), [Text(before), Element("sup", TextNodes(inner)), Text(after)])
      == Ok((ParagraphTag([Str(before), Str("<sup></sup>"), Str(after)]), [None]))
  {
    var supElement := Element("sup", TextNodes(inner));
    var ns := [Text(before), supElement, Text(after)];
    var p1 := ParagraphTag([Str(before)]);
    var p2 := ParagraphTag([Str(before), Str("<sup></sup>")]);
    var p3 := ParagraphTag([Str(before), Str("<sup></sup>"), Str(after)]);
    var closing: seq<Option<Token>> := [None];
    SupInParagraph(table, [Str(before)], inner);
    assert [Str(before)] + [Str("<sup></sup>")] == [Str(before), Str("<sup></sup>")];
    assert [] + [Str(before)] == [Str(before)];
    assert Eval(table, ParagraphTag([]), Text(before)) == Ok((p1, []));
    assert [Str(before), Str("<sup></sup>")] + [Str(after)] == [Str(before), Str("<sup></sup>"), Str(after)];
    assert Eval(table, p2, Text(after)) == Ok((p3, []));
    assert EvalAll(table, p2, [Text(after)]) == Ok((p3, []));
    assert [supElement, Text(after)][1..] == [Text(after)];
    assert closing + [] == closing;
    assert EvalAll(table, p1, [supElement, Text(after)]) == Ok((p3, closing));
    assert ns[1..] == [supElement, Text(after)];
    assert [] + closing == closing;
  }

  /** A `sup` holding only text, closed inside a paragraph: the paragraph gains the bare markers
      `<sup></sup>` as one item, and the `sup`'s closing yields one `None`. */
  lemma SupInParagraph(table: Table, items: seq<Token>, inner: seq<string>)
    requires "sup" in table && table["sup"] == InlineFormatting("<sup>", "</sup>", "")
    ensures Eval(table, ParagraphTag(items), Element("sup", TextNodes(inner)))
      == Ok((ParagraphTag(items + [Str("<sup></sup>")]), [None]))
  {
    var sup := InlineFormatting("<sup>", "</sup>", "");
    var closing: seq<Option<Token>> := [None];
    InertChildren(table, sup, inner);
    EvalElement(table, ParagraphTag(items), "sup", TextNodes(inner));
    assert "<sup>" + "" + "</sup>" == "<sup></sup>";
    assert Finalize(sup) == Some(Str("<sup></sup>"));
    assert Truthy(Some(Str("<sup></sup>"))) by { assert |"<sup></sup>"| == 11; }
    assert [] + closing == closing;
  }

  /** `<body><p>Hello <b>world</b>.</p></body>`: `b` has no handler, so the parse raises at it. */
  lemma BoldIsRejected()
    ensures var doc := Element("body", [Element("p", [Text("Hello "), Element("b", [Text("world")]), Text(".")])]);
      ParseHtml(Serialize(doc)).Failed? && ParseHtml(Serialize(doc)).error == UnknownTag("b")
  {
    var p := Element("p", [Text("Hello "), Element("b", [Text("world")]), Text(".")]);
    var doc := Element("body", [p]);
    assert "b" !in TagHandlers;
    var m1 := Machine([IgnoreTag], []);
    ParseMatchesEvalAll(TagHandlers, m1, [p]);
    assert EvalAll(TagHandlers, IgnoreTag, [p]) == Err(UnknownTag("b")) by {
      assert EvalAll(TagHandlers, ParagraphTag([Str("Hello ")]), [Element("b", [Text("world")]), Text(".")]) == Err(UnknownTag("b"));
      assert EvalAll(TagHandlers, ParagraphTag([]), p.children) == Err(UnknownTag("b"));
    }
    var open := [StartElement("body")];
    var rest := SerializeAll([p]) + [EndElement("body")];
    assert Serialize(doc) == open + rest;
    assert Step(TagHandlers, Machine([], []), StartElement("body")) == Ok(m1) by {
      assert [] + [IgnoreTag] == [IgnoreTag];
    }
    ParseFirst(TagHandlers, Machine([], []), m1, Serialize(doc));
    assert Serialize(doc)[1..] == rest;
    ParseComposes(TagHandlers, m1, SerializeAll([p]), [EndElement("body")]);
  }
}
