/**
  Properties of the stackparse.py parse loop over whole event sequences: the stack
  depth follows element nesting, text accumulates in the top handler, a document
  whose elements are balanced never completes (the missing root handler), and the
  same loop started on a sentinel root completes. Properties that do not depend on
  which tags have handlers are stated for any table.
 */
module StackProperties {
  import opened Wrappers
  import opened Strings
  import opened Events
  import opened StackParse

  /** Parsing a concatenation parses the first part, then the second part from where it stopped. */
  lemma {:induction false} ParseComposes(table: Table, m: Machine, a: seq<Event>, b: seq<Event>)
    ensures ParseFrom(table, m, a + b) ==
      match ParseFrom(table, m, a)
      case Done(m') => ParseFrom(table, m', b)
      case Failed(m', error) => Failed(m', error)
    decreases |a|
  {
    if |a| == 0 {
      assert a + b == b;
    } else {
      assert (a + b)[0] == a[0];
      assert (a + b)[1..] == a[1..] + b;
      match Step(table, m, a[0])
      case Err(_) =>
      case Ok(m') => ParseComposes(table, m', a[1..], b);
    }
  }

  /** A parse that completes on `a` continues on `b` from where it stopped. */
  lemma ParseAppendDone(table: Table, m: Machine, a: seq<Event>, b: seq<Event>, m': Machine)
    requires ParseFrom(table, m, a) == Done(m')
    ensures ParseFrom(table, m, a + b) == ParseFrom(table, m', b)
  {
    ParseComposes(table, m, a, b);
  }

  /** The START_DOCUMENT and END_DOCUMENT that frame every pulldom stream change nothing: the
      framed stream parses exactly as its body. */
  lemma DocumentEventsChangeNothing(table: Table, m: Machine, body: seq<Event>)
    ensures ParseFrom(table, m, [StartDocument] + body + [EndDocument]) == ParseFrom(table, m, body)
  {
    assert [StartDocument] + body + [EndDocument] == [StartDocument] + (body + [EndDocument]);
    ParseComposes(table, m, [StartDocument], body + [EndDocument]);
    ParseComposes(table, m, body, [EndDocument]);
  }

  /** A parse that fails on `a` fails the same way on anything that follows. */
  lemma ParseAppendFailed(table: Table, m: Machine, a: seq<Event>, b: seq<Event>)
    requires ParseFrom(table, m, a).Failed?
    ensures ParseFrom(table, m, a + b) == ParseFrom(table, m, a)
  {
    ParseComposes(table, m, a, b);
  }

  /** After a completed parse the stack is deeper by the number of start tags minus the number of end tags. */
  lemma {:induction false} DepthTracksNesting(table: Table, m: Machine, events: seq<Event>)
    requires ParseFrom(table, m, events).Done?
    ensures |ParseFrom(table, m, events).machine.stack| == |m.stack| + CountStarts(events) - CountEnds(events)
    decreases |events|
  {
    if |events| > 0 {
      var m' := Step(table, m, events[0]).value;
      DepthTracksNesting(table, m', events[1..]);
    }
  }

  /** Once an element has been opened, a completed parse leaves at least one handler on the stack:
      every end tag that succeeds leaves its parent behind. */
  lemma {:induction false} CompletedParseKeepsAHandler(table: Table, m: Machine, events: seq<Event>)
    requires ParseFrom(table, m, events).Done?
    requires |m.stack| >= 1 || CountStarts(events) + CountEnds(events) > 0
    ensures |ParseFrom(table, m, events).machine.stack| >= 1
    decreases |events|
  {
    if |events| == 0 {
    } else {
      var m' := Step(table, m, events[0]).value;
      if |m'.stack| == 0 {
        assert !IsElementEvent(events[0]);
      }
      CompletedParseKeepsAHandler(table, m', events[1..]);
    }
  }

  /** A processing instruction before the root, as in `<?xml-stylesheet href="s.css"?><html>…</html>`,
      reaches `stack[-1].handle` on the empty stack and raises before any element opens. */
  lemma InstructionBeforeRootFails(body: seq<Event>)
    ensures ParseHtml([StartDocument, Other("PROCESSING_INSTRUCTION")] + body) == Failed(Machine([], []), EmptyStack)
  {
    var events := [StartDocument, Other("PROCESSING_INSTRUCTION")] + body;
    assert events[0] == StartDocument && events[1] == Other("PROCESSING_INSTRUCTION");
    assert BeforeAnyHandler(events, 1);
  }

  /** As written, a document whose start and end tags balance never finishes parsing: with no
      handler below the outermost element, some `stack[-1]` meets an empty stack, whether at
      content before the first start tag or at the end tag that pops the last handler. With every
      tag recognised, the error is that `IndexError`. */
  lemma BalancedDocumentFails(events: seq<Event>)
    requires CountStarts(events) == CountEnds(events) > 0
    ensures ParseHtml(events).Failed?
    ensures StartTagsWithin(events, TagHandlers.Keys) ==> ParseHtml(events).error == EmptyStack
  {
    var r := ParseHtml(events);
    if r.Done? {
      DepthTracksNesting(TagHandlers, Machine([], []), events);
      CompletedParseKeepsAHandler(TagHandlers, Machine([], []), events);
    } else if r.error.UnknownTag? && StartTagsWithin(events, TagHandlers.Keys) {
      StartTagsWithinHolds(events, TagHandlers.Keys, r.error.tag);
    }
  }

  /** The smallest balanced document, `<html></html>`, raises on its closing tag after emitting nothing. */
  lemma HtmlRootFails()
    ensures ParseHtml([StartElement("html"), EndElement("html")]) == Failed(Machine([IgnoreTag], []), EmptyStack)
  {
    var events := [StartElement("html"), EndElement("html")];
    assert [] + [IgnoreTag] == [IgnoreTag];
    assert Step(TagHandlers, Machine([], []), StartElement("html")) == Ok(Machine([IgnoreTag], []));
    assert events[1..] == [EndElement("html")];
    assert Step(TagHandlers, Machine([IgnoreTag], []), EndElement("html")) == Err(EmptyStack);
  }

  /** Element nesting with `depth` elements already open: no end tag closes more than is open. */
  predicate NestedFrom(depth: nat, events: seq<Event>)
    decreases |events|
  {
    if |events| == 0 then true
    else if events[0].StartElement? then NestedFrom(depth + 1, events[1..])
    else if events[0].EndElement? then depth >= 1 && NestedFrom(depth - 1, events[1..])
    else NestedFrom(depth, events[1..])
  }

  /** One event into a properly nested sequence, the depth has moved by that event's change. */
  lemma NestedFromTail(depth: nat, events: seq<Event>)
    requires |events| > 0 && NestedFrom(depth, events)
    ensures events[0].EndElement? ==> depth >= 1
    ensures depth + DepthChange(events[0]) >= 0
    ensures NestedFrom(depth + DepthChange(events[0]), events[1..])
  {
  }

  /** The parse loop started on a sentinel root handler that absorbs document-level content. The
      root is never popped; content can no longer meet an empty stack, so `IndexError` is left
      only for an end tag with the root alone open; and a properly nested document of recognised
      tags parses to the end. */
  function ParseRooted(events: seq<Event>): (r: Outcome)
    ensures |r.machine.stack| >= 1 && r.machine.stack[0] == IgnoreTag
    ensures r.Failed? && r.error.EmptyStack? ==> r.machine.stack == [IgnoreTag]
    ensures StartTagsWithin(events, TagHandlers.Keys) && NestedFrom(0, events) ==> r.Done?
  {
    var m := Machine([IgnoreTag], []);
    var r := ParseFrom(TagHandlers, m, events);
    ParseKeepsRoot(TagHandlers, m, events);
    assert StartTagsWithin(events, TagHandlers.Keys) && NestedFrom(0, events) ==> r.Done? by {
      if StartTagsWithin(events, TagHandlers.Keys) && NestedFrom(0, events) {
        RootedParseCompletes(TagHandlers, m, events, 0);
      }
    }
    r
  }

  /** From a stack whose bottom is the root handler, the loop keeps the root at the bottom whether
      it completes or fails, and fails on the empty stack only at an end tag with the root alone. */
  lemma {:induction false} ParseKeepsRoot(table: Table, m: Machine, events: seq<Event>)
    requires |m.stack| >= 1 && m.stack[0] == IgnoreTag
    ensures var r := ParseFrom(table, m, events);
      && |r.machine.stack| >= 1 && r.machine.stack[0] == IgnoreTag
      && (r.Failed? && r.error.EmptyStack? ==> |r.machine.stack| == 1)
    decreases |events|
  {
    if |events| > 0 {
      var e := events[0];
      if Step(table, m, e).Ok? {
        RootedStep(table, m, e);
        ParseKeepsRoot(table, Step(table, m, e).value, events[1..]);
      }
    }
  }

  /** One step on a stack whose bottom is the root handler keeps the root at the bottom, and
      succeeds whenever the tag is recognised and an end tag leaves the root behind. */
  lemma RootedStep(table: Table, m: Machine, e: Event)
    requires |m.stack| >= 1 && m.stack[0] == IgnoreTag
    requires e.StartElement? ==> e.tag in table
    requires e.EndElement? ==> |m.stack| >= 2
    ensures Step(table, m, e).Ok?
    ensures Step(table, m, e).value.stack[0] == IgnoreTag
  {
    match e
    case StartElement(tag) =>
      var m' := Push(table, m, tag).value;
      assert m'.stack[0] == m.stack[0];
    case EndElement(_) => CloseKeepsRoot(m);
    case Characters(_) => DeliverKeepsRoot(m, e);
    case Other(_) => DeliverKeepsRoot(m, e);
    case StartDocument =>
    case EndDocument =>
  }

  lemma CloseKeepsRoot(m: Machine)
    requires |m.stack| >= 2 && m.stack[0] == IgnoreTag
    ensures Close(m).Ok? && Close(m).value.stack[0] == IgnoreTag
  {
    var m' := Close(m).value;
    var n := |m.stack|;
    if n == 2 {
      assert m'.stack[0] == Accept(m.stack[0], m.stack[1], Finalize(m.stack[1])).0;
    } else {
      assert m'.stack[0] == m'.stack[..n - 2][0];
    }
  }

  lemma DeliverKeepsRoot(m: Machine, e: Event)
    requires |m.stack| >= 1 && m.stack[0] == IgnoreTag
    ensures Deliver(m, e).Ok? && Deliver(m, e).value.stack[0] == IgnoreTag
  {
    var m' := Deliver(m, e).value;
    if |m.stack| == 1 {
      assert m'.stack[0] == Top(m'.stack);
    } else {
      assert m'.stack[0] == Pop(m'.stack)[0];
    }
  }

  /** With the root handler at the bottom, a properly nested sequence of recognised tags parses
      to the end, the root stays at the bottom, and the depth follows the nesting. */
  lemma {:induction false} RootedParseCompletes(table: Table, m: Machine, events: seq<Event>, depth: nat)
    requires |m.stack| == depth + 1 && m.stack[0] == IgnoreTag
    requires StartTagsWithin(events, table.Keys)
    requires NestedFrom(depth, events)
    ensures ParseFrom(table, m, events).Done?
    ensures |ParseFrom(table, m, events).machine.stack| == |m.stack| + CountStarts(events) - CountEnds(events) >= 1
    ensures ParseFrom(table, m, events).machine.stack[0] == IgnoreTag
    decreases |events|
  {
    if |events| > 0 {
      var depth' := RootedTail(table, depth, events);
      var m' := RootedFirst(table, m, events);
      RootedParseCompletes(table, m', events[1..], depth');
      CountsTail(events);
    }
  }

  /** What the rest of a nested, recognised sequence inherits from its first event. */
  lemma RootedTail(table: Table, depth: nat, events: seq<Event>) returns (depth': nat)
    requires |events| > 0
    requires StartTagsWithin(events, table.Keys) && NestedFrom(depth, events)
    ensures depth' == depth + DepthChange(events[0])
    ensures events[0].StartElement? ==> events[0].tag in table
    ensures events[0].EndElement? ==> depth >= 1
    ensures StartTagsWithin(events[1..], table.Keys) && NestedFrom(depth', events[1..])
  {
    NestedFromTail(depth, events);
    depth' := depth + DepthChange(events[0]);
  }

  /** The first event of a rooted parse, when it cannot fail, hands the rest to the next machine. */
  lemma RootedFirst(table: Table, m: Machine, events: seq<Event>) returns (m': Machine)
    requires |m.stack| >= 1 && m.stack[0] == IgnoreTag && |events| > 0
    requires events[0].StartElement? ==> events[0].tag in table
    requires events[0].EndElement? ==> |m.stack| >= 2
    ensures |m'.stack| == |m.stack| + DepthChange(events[0]) && m'.stack[0] == IgnoreTag
    ensures ParseFrom(table, m, events) == ParseFrom(table, m', events[1..])
  {
    RootedStep(table, m, events[0]);
    m' := Step(table, m, events[0]).value;
    ParseFirst(table, m, m', events);
  }

  /** The first event contributes its depth change to the difference of the counts. */
  lemma CountsTail(events: seq<Event>)
    requires |events| > 0
    ensures CountStarts(events) - CountEnds(events)
      == DepthChange(events[0]) + CountStarts(events[1..]) - CountEnds(events[1..])
  {
  }

  /** Corrected parse: a balanced, properly nested document of recognised tags completes and
      returns the stack to the lone root handler. */
  lemma RootedDocumentReturnsToRoot(events: seq<Event>)
    requires StartTagsWithin(events, TagHandlers.Keys)
    requires NestedFrom(0, events)
    requires CountStarts(events) == CountEnds(events)
    ensures ParseRooted(events).Done?
    ensures ParseRooted(events).machine.stack == [IgnoreTag]
  {
    RootedParseCompletes(TagHandlers, Machine([IgnoreTag], []), events, 0);
  }

  /** A run of character data. */
  function Texts(chunks: seq<string>): (events: seq<Event>)
    ensures |events| == |chunks|
    ensures forall i :: 0 <= i < |events| ==> events[i] == Characters(chunks[i])
  {
    if |chunks| == 0 then [] else [Characters(chunks[0])] + Texts(chunks[1..])
  }

  /** Character data on top of a heading is concatenated, in order, onto its text; nothing else changes. */
  lemma {:induction false} HeadingConcatenatesText(table: Table, below: seq<Handler>, level: int, text: string, out: seq<Option<Token>>, chunks: seq<string>)
    ensures ParseFrom(table, Machine(below + [HeadingTag(level, text)], out), Texts(chunks))
      == Done(Machine(below + [HeadingTag(level, text + Concat(chunks))], out))
    decreases |chunks|
  {
    if |chunks| == 0 {
      assert text + Concat(chunks) == text;
    } else {
      var m := Machine(below + [HeadingTag(level, text)], out);
      TextsTail(chunks);
      HeadingStep(table, below, level, text, out, chunks[0]);
      ParseFirst(table, m, Machine(below + [HeadingTag(level, text + chunks[0])], out), Texts(chunks));
      HeadingConcatenatesText(table, below, level, text + chunks[0], out, chunks[1..]);
      SeqAssoc(text, chunks[0], Concat(chunks[1..]));
    }
  }

  /** The paragraph items holding the given chunks, one item per chunk. */
  function StrItems(chunks: seq<string>): (items: seq<Token>)
    ensures |items| == |chunks|
    ensures forall i :: 0 <= i < |items| ==> items[i] == Str(chunks[i])
  {
    if |chunks| == 0 then [] else [Str(chunks[0])] + StrItems(chunks[1..])
  }

  /** Character data on top of a paragraph becomes one item per chunk, appended in order. */
  lemma {:induction false} ParagraphKeepsChunks(table: Table, below: seq<Handler>, items: seq<Token>, out: seq<Option<Token>>, chunks: seq<string>)
    ensures ParseFrom(table, Machine(below + [ParagraphTag(items)], out), Texts(chunks))
      == Done(Machine(below + [ParagraphTag(items + StrItems(chunks))], out))
    decreases |chunks|
  {
    if |chunks| == 0 {
      assert items + StrItems(chunks) == items;
    } else {
      var m := Machine(below + [ParagraphTag(items)], out);
      var items' := items + [Str(chunks[0])];
      var m' := Machine(below + [ParagraphTag(items')], out);
      ParagraphStep(table, below, items, out, chunks[0]);
      TextsTail(chunks);
      ParseFirst(table, m, m', Texts(chunks));
      ParagraphKeepsChunks(table, below, items', out, chunks[1..]);
      SeqAssoc(items, [Str(chunks[0])], StrItems(chunks[1..]));
    }
  }

  /** A parse whose first step succeeds continues from the machine that step produced. */
  lemma ParseFirst(table: Table, m: Machine, m': Machine, events: seq<Event>)
    requires |events| > 0 && Step(table, m, events[0]) == Ok(m')
    ensures ParseFrom(table, m, events) == ParseFrom(table, m', events[1..])
  {
  }

  /** A recognised start tag pushes its handler and the parse carries on from there. */
  lemma ParseOpen(table: Table, m: Machine, tag: string, rest: seq<Event>)
    requires tag in table
    ensures ParseFrom(table, m, [StartElement(tag)] + rest) == ParseFrom(table, Machine(m.stack + [table[tag]], m.out), rest)
  {
    var events := [StartElement(tag)] + rest;
    assert events[0] == StartElement(tag) && events[1..] == rest;
    ParseFirst(table, m, Push(table, m, tag).value, events);
  }

  /** The first chunk of a text run is its first event; the rest is the run of the other chunks. */
  lemma TextsTail(chunks: seq<string>)
    requires |chunks| > 0
    ensures Texts(chunks)[0] == Characters(chunks[0]) && Texts(chunks)[1..] == Texts(chunks[1..])
  {
  }

  lemma HeadingStep(table: Table, below: seq<Handler>, level: int, text: string, out: seq<Option<Token>>, c: string)
    ensures Step(table, Machine(below + [HeadingTag(level, text)], out), Characters(c))
      == Ok(Machine(below + [HeadingTag(level, text + c)], out))
  {
    var m := Machine(below + [HeadingTag(level, text)], out);
    assert Pop(m.stack) == below;
  }

  lemma ParagraphStep(table: Table, below: seq<Handler>, items: seq<Token>, out: seq<Option<Token>>, c: string)
    ensures Step(table, Machine(below + [ParagraphTag(items)], out), Characters(c))
      == Ok(Machine(below + [ParagraphTag(items + [Str(c)])], out))
  {
    var m := Machine(below + [ParagraphTag(items)], out);
    assert Pop(m.stack) == below;
  }

  /** Any events other than tags leave an anchor, an inline-formatting or an ignore handler on top
      exactly as it was: the anchor's and the formatting's text stay as pushed. */
  lemma {:induction false} InertHandlerIgnoresContent(table: Table, below: seq<Handler>, h: Handler, out: seq<Option<Token>>, events: seq<Event>)
    requires !Accumulates(h)
    requires forall i :: 0 <= i < |events| ==> !IsElementEvent(events[i])
    ensures ParseFrom(table, Machine(below + [h], out), events) == Done(Machine(below + [h], out))
    decreases |events|
  {
    if |events| > 0 {
      var m := Machine(below + [h], out);
      assert Pop(m.stack) == below;
      assert Step(table, m, events[0]) == Ok(m);
      InertHandlerIgnoresContent(table, below, h, out, events[1..]);
    }
  }

  /** A `sup` element whose content is text alone finalizes to the bare markers: its text is never kept. */
  lemma SupDropsItsText(m: Machine, chunks: seq<string>)
    requires |m.stack| >= 1
    ensures var events := [StartElement("sup")] + Texts(chunks) + [EndElement("sup")];
      var (parent, emitted) := Accept(Top(m.stack), TagHandlers["sup"], Some(Str("<sup></sup>")));
      ParseFrom(TagHandlers, m, events) == Done(Machine(Pop(m.stack) + [parent], m.out + emitted))
  {
    var body := Texts(chunks) + [EndElement("sup")];
    SupHandler();
    ParseOpen(TagHandlers, m, "sup", body);
    SupBody(TagHandlers, m, chunks);
    SeqAssoc([StartElement("sup")], Texts(chunks), [EndElement("sup")]);
  }

  /** The table's handler for `sup`. */
  lemma SupHandler()
    ensures "sup" in TagHandlers && TagHandlers["sup"] == InlineFormatting("<sup>", "</sup>", "")
  {
  }

  /** Inside a freshly pushed `sup`, text is skipped and the end tag hands the bare markers up. */
  lemma SupBody(table: Table, m: Machine, chunks: seq<string>)
    requires |m.stack| >= 1
    ensures var (parent, emitted) := Accept(Top(m.stack), InlineFormatting("<sup>", "</sup>", ""), Some(Str("<sup></sup>")));
      ParseFrom(table, Machine(m.stack + [InlineFormatting("<sup>", "</sup>", "")], m.out), Texts(chunks) + [EndElement("sup")])
        == Done(Machine(Pop(m.stack) + [parent], m.out + emitted))
  {
    var sup := InlineFormatting("<sup>", "</sup>", "");
    var m1 := Machine(m.stack + [sup], m.out);
    InertHandlerIgnoresContent(table, m.stack, sup, m.out, Texts(chunks));
    ParseAppendDone(table, m1, Texts(chunks), [EndElement("sup")], m1);
    SupCloses(m);
    StepClose(table, m1, "sup");
    ParseSingle(table, m1, EndElement("sup"), Close(m1).value);
  }

  /** An end tag steps by closing the top handler, whatever the tag's name. */
  lemma StepClose(table: Table, m: Machine, tag: string)
    ensures Step(table, m, EndElement(tag)) == Close(m)
  {
  }

  /** A single event that steps successfully completes the parse at the machine it produced. */
  lemma ParseSingle(table: Table, m: Machine, e: Event, m': Machine)
    requires Step(table, m, e) == Ok(m')
    ensures ParseFrom(table, m, [e]) == Done(m')
  {
    assert [e][1..] == [];
  }

  /** Closing a freshly pushed `sup` hands the bare markers to the parent. */
  lemma SupCloses(m: Machine)
    requires |m.stack| >= 1
    ensures var (parent, emitted) := Accept(Top(m.stack), InlineFormatting("<sup>", "</sup>", ""), Some(Str("<sup></sup>")));
      Close(Machine(m.stack + [InlineFormatting("<sup>", "</sup>", "")], m.out))
        == Ok(Machine(Pop(m.stack) + [parent], m.out + emitted))
  {
    var sup := InlineFormatting("<sup>", "</sup>", "");
    assert "<sup>" + "" + "</sup>" == "<sup></sup>";
    assert Finalize(sup) == Some(Str("<sup></sup>"));
    var m1 := Machine(m.stack + [sup], m.out);
    assert Pop(m1.stack) == m.stack;
  }

  /** `Heading.markdown` is undone by reading the hashes and the text back. */
  lemma MarkdownRoundTrip(level: nat, text: string)
    ensures SplitHeadingLine(Markdown(Heading(level, text))) == Some((level, text))
  {
    var line := Markdown(Heading(level, text));
    assert line == Repeat('#', level) + (" " + text);
    LeadingCountOfRepeat('#', level, " " + text);
  }
}
