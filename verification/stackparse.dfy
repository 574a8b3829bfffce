/**
  The stack-machine parser of bahai_obsidian/stackparse.py, modelled as written.

  Each open element owns a tag handler on a stack. A start tag pushes the handler
  a table chooses for its name; character data goes to the top handler; an end tag
  finalizes the top handler, pops it and hands (handler, result) to the new top's
  `Accept`, whose emitted values form the output. The output keeps the `None`
  placeholders the source's generators yield. There is no sentinel root handler.

  The loop is stated for any handler table; `parse_html` runs it with the
  module's `TAG_HANDLERS`, which is `TagHandlers` here.
 */
module StackParse {
  import opened Wrappers
  import opened Strings
  import opened Events

  /** The values the parser produces. Python strings (character chunks and formatted
      inline text) are `Str`; the others are the source's dataclasses. */
  datatype Token =
    | Heading(level: int, text: string)
    | Paragraph(items: seq<Token>)
    | Anchor(text: string, href: string)
    | Str(s: string)

  /** One open element's handler and the state it has accumulated. */
  datatype Handler =
    | IgnoreTag
    | HeadingTag(level: int, text: string)
    | ParagraphTag(items: seq<Token>)
    | AnchorTag(text: string)
    | InlineFormatting(prefix: string, suffix: string, text: string)

  /** The exceptions the parse loop raises: `KeyError` for a tag missing from the
      table, `IndexError` for `stack[-1]` on an empty stack. */
  datatype ParseError = UnknownTag(tag: string) | EmptyStack

  datatype Machine = Machine(stack: seq<Handler>, out: seq<Option<Token>>)

  /** The parse of an event sequence: either every event was consumed, or an event
      raised `error` and `machine` is the state just before it. The output emitted
      before the error has already reached the consumer. */
  datatype Outcome =
    | Done(machine: Machine)
    | Failed(machine: Machine, error: ParseError)

  /** Python truthiness of a finalized result: `None` and the empty string are false,
      dataclass instances are always true. */
  predicate Truthy(result: Option<Token>)
  {
    result.Some? && (result.value.Str? ==> |result.value.s| > 0)
  }

  /** A handler table: the fresh handler each recognised tag pushes. */
  type Table = map<string, Handler>

  /** The `TAG_HANDLERS` table. */
  const TagHandlers: Table := map[
    "html" := IgnoreTag,
    "head" := IgnoreTag,
    "meta" := IgnoreTag,
    "title" := IgnoreTag,
    "style" := IgnoreTag,
    "body" := IgnoreTag,
    "div" := IgnoreTag,
    "h1" := HeadingTag(1, ""),
    "h2" := HeadingTag(2, ""),
    "h3" := HeadingTag(3, ""),
    "h4" := HeadingTag(4, ""),
    "p" := ParagraphTag([]),
    "a" := AnchorTag(""),
    "sup" := InlineFormatting("<sup>", "</sup>", "")
  ]

  /** The same variant, with the same fixed parameters (level, prefix, suffix). */
  predicate SameKind(h: Handler, h': Handler)
  {
    match h
    case IgnoreTag => h'.IgnoreTag?
    case HeadingTag(level, _) => h'.HeadingTag? && h'.level == level
    case ParagraphTag(_) => h'.ParagraphTag?
    case AnchorTag(_) => h'.AnchorTag?
    case InlineFormatting(prefix, suffix, _) =>
      h'.InlineFormatting? && h'.prefix == prefix && h'.suffix == suffix
  }

  /** The handlers whose `handle` has an effect: heading and paragraph. `Tag.handle`
      does nothing, and the `handle` of anchors and inline formatting contains `yield`,
      so calling it only builds a generator that never runs. */
  predicate Accumulates(h: Handler)
  {
    h.HeadingTag? || h.ParagraphTag?
  }

  /** `handle` of the top handler for a non-structural event. */
  function Handle(h: Handler, e: Event): (h': Handler)
    ensures SameKind(h, h')
    ensures !Accumulates(h) || !e.Characters? ==> h' == h
    ensures h.HeadingTag? ==> h.text <= h'.text
    ensures h.ParagraphTag? ==> h.items <= h'.items
  {
    match h
    case HeadingTag(level, text) =>
      if e.Characters? then HeadingTag(level, text + e.text) else h
    case ParagraphTag(items) =>
      if e.Characters? then ParagraphTag(items + [Str(e.text)]) else h
    case _ => h
  }

  /** `finalize`: the token a closing element hands to its parent. */
  function Finalize(h: Handler): (result: Option<Token>)
    ensures result.None? <==> h.IgnoreTag?
    ensures Truthy(result) <==> !h.IgnoreTag? && (h.InlineFormatting? ==> |h.prefix + h.text + h.suffix| > 0)
    ensures result.Some? && result.value.Anchor? ==> result.value.href == ""
  {
    match h
    case IgnoreTag => None
    case HeadingTag(level, text) => Some(Heading(level, text))
    case ParagraphTag(items) => Some(Paragraph(items))
    case AnchorTag(text) => Some(Anchor(text, ""))
    case InlineFormatting(prefix, suffix, text) => Some(Str(prefix + text + suffix))
  }

  /** The values of an emitted sequence with the `None` placeholders dropped. */
  function Present(emitted: seq<Option<Token>>): seq<Token>
  {
    if |emitted| == 0 then []
    else (if emitted[0].Some? then [emitted[0].value] else []) + Present(emitted[1..])
  }

  /** `accept(finished, result)` on the new top `parent`: the updated parent and what
      the generator yields. Only `IgnoreTag` forwards a child's token; every variant
      ends with a `None`. */
  function Accept(parent: Handler, finished: Handler, result: Option<Token>): (r: (Handler, seq<Option<Token>>))
    ensures SameKind(parent, r.0)
    ensures |r.1| >= 1 && r.1[|r.1| - 1] == None
    ensures |r.1| == |Present(r.1)| + 1
    ensures Present(r.1) == if parent.IgnoreTag? && Truthy(result) then [result.value] else []
    ensures parent.ParagraphTag? ==>
      r.0.items == parent.items + (if Truthy(result) then [result.value] else [])
    ensures !parent.ParagraphTag? ==> r.0 == parent
  {
    match parent
    case IgnoreTag =>
      assert Present([None]) == [];
      assert Truthy(result) ==> [result, None][1..] == [None];
      (parent, if Truthy(result) then [result, None] else [None])
    case ParagraphTag(items) =>
      (ParagraphTag(if Truthy(result) then items + [result.value] else items), [None])
    case _ => (parent, [None])
  }

  /** The handler on top of a non-empty stack. */
  function Top(stack: seq<Handler>): Handler
    requires |stack| > 0
  {
    stack[|stack| - 1]
  }

  /** The stack without its top handler. */
  function Pop(stack: seq<Handler>): seq<Handler>
    requires |stack| > 0
  {
    stack[..|stack| - 1]
  }

  /** How an event changes the stack depth when it succeeds. */
  function DepthChange(e: Event): int
  {
    if e.StartElement? then 1 else if e.EndElement? then -1 else 0
  }

  /** START_ELEMENT: push the handler the table gives for the tag, or raise `KeyError`. */
  function Push(table: Table, m: Machine, tag: string): (r: Result<Machine, ParseError>)
    ensures r.Ok? <==> tag in table
    ensures r.Err? ==> r.error == UnknownTag(tag)
    ensures r.Ok? ==> r.value.stack == m.stack + [table[tag]] && r.value.out == m.out
  {
    if tag in table then Ok(Machine(m.stack + [table[tag]], m.out))
    else Err(UnknownTag(tag))
  }

  /** END_ELEMENT: finalize the top handler, pop it, and pass (handler, result) to the new top's
      `accept`, whose yields are emitted. `stack[-1]` raises when no parent is left. */
  function Close(m: Machine): (r: Result<Machine, ParseError>)
    ensures r.Ok? <==> |m.stack| >= 2
    ensures r.Err? ==> r.error == EmptyStack
    ensures r.Ok? ==> |r.value.stack| == |m.stack| - 1 && m.out <= r.value.out
    ensures r.Ok? ==>
      var n := |m.stack|;
      && r.value.stack[..n - 2] == m.stack[..n - 2]
      && (r.value.stack[n - 2], r.value.out[|m.out|..]) == Accept(m.stack[n - 2], m.stack[n - 1], Finalize(m.stack[n - 1]))
  {
    if |m.stack| < 2 then Err(EmptyStack)
    else
      var finished := Top(m.stack);
      var result := Finalize(finished);
      var rest := Pop(m.stack);
      var (parent, emitted) := Accept(Top(rest), finished, result);
      Ok(Machine(Pop(rest) + [parent], m.out + emitted))
  }

  /** Any other event goes to the top handler's `handle`; `stack[-1]` raises on an empty stack. */
  function Deliver(m: Machine, e: Event): (r: Result<Machine, ParseError>)
    ensures r.Ok? <==> |m.stack| >= 1
    ensures r.Err? ==> r.error == EmptyStack
    ensures r.Ok? ==>
      && |r.value.stack| == |m.stack|
      && Pop(r.value.stack) == Pop(m.stack)
      && Top(r.value.stack) == Handle(Top(m.stack), e)
      && r.value.out == m.out
  {
    if |m.stack| == 0 then Err(EmptyStack)
    else Ok(Machine(Pop(m.stack) + [Handle(Top(m.stack), e)], m.out))
  }

  /** One iteration of the `parse_html` loop. */
  function Step(table: Table, m: Machine, e: Event): (r: Result<Machine, ParseError>)
    ensures r.Err? && r.error.UnknownTag? <==> e.StartElement? && e.tag !in table
    ensures r.Err? && r.error.UnknownTag? ==> r.error.tag == e.tag
    ensures r.Err? && r.error.EmptyStack? <==>
      (e.EndElement? && |m.stack| < 2) || ((e.Characters? || e.Other?) && |m.stack| == 0)
    ensures r.Ok? ==> |r.value.stack| == |m.stack| + DepthChange(e)
    ensures r.Ok? ==> m.out <= r.value.out
    ensures r.Ok? && !e.EndElement? ==> r.value.out == m.out
    ensures e.StartDocument? || e.EndDocument? ==> r == Ok(m)
  {
    match e
    case StartDocument => Ok(m)
    case EndDocument => Ok(m)
    case StartElement(tag) => Push(table, m, tag)
    case EndElement(_) => Close(m)
    case _ => Deliver(m, e)
  }

  /** The parse loop from machine `m` over `events`. */
  function ParseFrom(table: Table, m: Machine, events: seq<Event>): (r: Outcome)
    ensures m.out <= r.machine.out
    ensures r.Failed? && r.error.UnknownTag? ==> StartElement(r.error.tag) in events && r.error.tag !in table
    decreases |events|
  {
    if |events| == 0 then Done(m)
    else match Step(table, m, events[0])
      case Err(error) => Failed(m, error)
      case Ok(m') => ParseFrom(table, m', events[1..])
  }

  /** `parse_html`: the loop runs with `TAG_HANDLERS` from an empty stack and no output. Document
      events change nothing, so an end tag or content before any start tag hits the empty stack;
      a `KeyError` names a start tag of the input missing from the table. */
  function ParseHtml(events: seq<Event>): (r: Outcome)
    ensures forall k | 0 <= k < |events| && BeforeAnyHandler(events, k) ::
      r == Failed(Machine([], []), EmptyStack)
    ensures r.Failed? && r.error.UnknownTag? ==> StartElement(r.error.tag) in events && r.error.tag !in TagHandlers
  {
    var r := ParseFrom(TagHandlers, Machine([], []), events);
    assert forall k | 0 <= k < |events| && BeforeAnyHandler(events, k) :: r == Failed(Machine([], []), EmptyStack) by {
      forall k | 0 <= k < |events| && BeforeAnyHandler(events, k)
        ensures r == Failed(Machine([], []), EmptyStack)
      {
        EmptyStackFails(TagHandlers, [], events, k);
      }
    }
    r
  }

  /** Event `k` is an end tag or content, and only document events come before it. */
  predicate BeforeAnyHandler(events: seq<Event>, k: int)
    requires 0 <= k < |events|
  {
    && (events[k].EndElement? || events[k].Characters? || events[k].Other?)
    && forall j | 0 <= j < k :: events[j].StartDocument? || events[j].EndDocument?
  }

  /** From an empty stack, the first event that is neither a document event nor a start tag
      raises `IndexError` on the unchanged machine. */
  lemma {:induction false} EmptyStackFails(table: Table, out: seq<Option<Token>>, events: seq<Event>, k: int)
    requires 0 <= k < |events| && BeforeAnyHandler(events, k)
    ensures ParseFrom(table, Machine([], out), events) == Failed(Machine([], out), EmptyStack)
    decreases k
  {
    if k > 0 {
      assert events[0].StartDocument? || events[0].EndDocument?;
      forall j | 0 <= j < k - 1
        ensures events[1..][j].StartDocument? || events[1..][j].EndDocument?
      {
        assert events[1..][j] == events[j + 1];
      }
      assert events[1..][k - 1] == events[k];
      EmptyStackFails(table, out, events[1..], k - 1);
    }
  }

  /** `Heading.markdown`: `level` hashes, one space, then the text. */
  function Markdown(h: Token): (line: string)
    requires h.Heading?
    ensures var n := if h.level > 0 then h.level else 0;
      && |line| == n + 1 + |h.text|
      && (forall i :: 0 <= i < n ==> line[i] == '#')
      && line[n] == ' '
      && line[n + 1..] == h.text
  {
    Repeat('#', h.level) + " " + h.text
  }

  /** Reads a Markdown heading line back: the number of leading hashes and the text after the one space. */
  function SplitHeadingLine(line: string): Option<(nat, string)>
  {
    var n := LeadingCount('#', line);
    if n < |line| && line[n] == ' ' then Some((n, line[n + 1..])) else None
  }
}
