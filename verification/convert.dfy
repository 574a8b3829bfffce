/**
  The tag validator of bahai_obsidian/convert.py: a SAX handler that accepts only a
  closed vocabulary of tags, prints an indented outline line for every start tag and
  tracks the nesting depth in `indent`. The printed outline is returned as lines.
  `Step`, `ConvertFrom` and `Convert` model `startDocument` without its `BahaiDocument()`
  call, which raises as written; `StepAsWritten` and `ConvertAsWrittenFrom` keep that call.
 */
module Convert {
  import opened Wrappers
  import opened Strings
  import opened Events

  const HtmlStructure: set<string> := {"html", "head", "meta", "body", "title", "style"}
  const Headings: set<string> := {"h1", "h2", "h3", "h4"}
  const Tables: set<string> := {"col", "colgroup", "table", "td", "tr", "tbody"}
  const Lists: set<string> := {"ol", "ul", "li"}
  const Structure: set<string> := {"p", "div", "br", "a", "nav", "hr", "blockquote", "abbr", "wbr"}
  const Inline: set<string> := {"span", "sup", "cite", "i", "u"}

  /** `EXPECTED_TAGS`: the union of the six categories. */
  const ExpectedTags: set<string> := HtmlStructure + Headings + Tables + Lists + Structure + Inline

  /** `BahaiMarkdownError("Unexpected tag: " + name)`, or the `TypeError` that `BahaiDocument()`
      raises because the dataclass's `title` field has no default. */
  datatype ConvertError = UnexpectedTag(name: string) | MissingTitle

  /** The handler's state: the depth counter and the outline printed so far. */
  datatype Converter = Converter(indent: int, outline: seq<string>)

  /** The outcome of feeding events to the handler: all consumed, or aborted by the exception
      with `state` as it was when the offending event arrived. */
  datatype ConvertOutcome =
    | Finished(state: Converter)
    | Aborted(state: Converter, error: ConvertError)

  /** The printed outline line: `indent * '  '` (empty for a negative indent), then the name. */
  function OutlineLine(indent: int, name: string): (line: string)
    ensures var width := if indent > 0 then 2 * indent else 0;
      && |line| == width + |name|
      && (forall i :: 0 <= i < width ==> line[i] == ' ')
      && line[width..] == name
  {
    Repeat(' ', 2 * indent) + name
  }

  /** `startElement`: reject a tag outside the vocabulary before touching `indent`; otherwise
      print the line at the current depth, then go one level deeper. */
  function Open(vocabulary: set<string>, c: Converter, name: string): (r: Result<Converter, ConvertError>)
    ensures r.Ok? <==> name in vocabulary
    ensures r.Err? ==> r.error == UnexpectedTag(name)
    ensures r.Ok? ==> r.value.indent == c.indent + 1
    ensures r.Ok? ==> r.value.outline == c.outline + [OutlineLine(c.indent, name)]
  {
    if name !in vocabulary then Err(UnexpectedTag(name))
    else Ok(Converter(c.indent + 1, c.outline + [OutlineLine(c.indent, name)]))
  }

  /** `endElement`: one level up, whatever the tag, with no check against going negative. */
  function Close(c: Converter): (c': Converter)
    ensures c'.indent == c.indent - 1
    ensures c'.outline == c.outline
  {
    c.(indent := c.indent - 1)
  }

  /** One SAX callback, with `startDocument` corrected to reset the depth and nothing else;
      the other callbacks inherited from `ContentHandler` do nothing. */
  function Step(vocabulary: set<string>, c: Converter, e: Event): (r: Result<Converter, ConvertError>)
    ensures r.Err? <==> e.StartElement? && e.tag !in vocabulary
    ensures r.Err? ==> r.error == UnexpectedTag(e.tag)
  {
    match e
    case StartDocument => Ok(c.(indent := 0))
    case StartElement(name) => Open(vocabulary, c, name)
    case EndElement(_) => Ok(Close(c))
    case _ => Ok(c)
  }

  /** The SAX driver delivering `events` to the handler, for the tags in `vocabulary`, with
      `startDocument` corrected as in `Step`. */
  function ConvertFrom(vocabulary: set<string>, c: Converter, events: seq<Event>): (r: ConvertOutcome)
    ensures c.outline <= r.state.outline
    ensures r.Aborted? ==> r.error.UnexpectedTag? && StartElement(r.error.name) in events && r.error.name !in vocabulary
    decreases |events|
  {
    if |events| == 0 then Finished(c)
    else match Step(vocabulary, c, events[0])
      case Err(error) => Aborted(c, error)
      case Ok(c') => ConvertFrom(vocabulary, c', events[1..])
  }

  /** `xml.sax.parse(fname, BahaiHtmlParser())` with the corrected `startDocument`, from depth 0.
      The source's handler has no `indent` until `startDocument`, which the driver always delivers
      first; on a stream without it, which the driver never produces, the model still starts at
      depth 0 where the source would raise `AttributeError`. */
  function Convert(events: seq<Event>): (r: ConvertOutcome)
    ensures StartTagsWithin(events, ExpectedTags) ==> r.Finished?
    ensures r.Aborted? ==> r.error.UnexpectedTag? && StartElement(r.error.name) in events && r.error.name !in ExpectedTags
  {
    var r := ConvertFrom(ExpectedTags, Converter(0, []), events);
    assert StartTagsWithin(events, ExpectedTags) ==> r.Finished? by {
      if StartTagsWithin(events, ExpectedTags) {
        ExpectedTagsFinish(ExpectedTags, Converter(0, []), events);
      }
    }
    r
  }

  /** A rejected start tag aborts at once and leaves the depth and the outline as they were. */
  lemma RejectedStartLeavesState(vocabulary: set<string>, c: Converter, name: string, rest: seq<Event>)
    requires name !in vocabulary
    ensures ConvertFrom(vocabulary, c, [StartElement(name)] + rest) == Aborted(c, UnexpectedTag(name))
  {
    assert ([StartElement(name)] + rest)[0] == StartElement(name);
  }

  /** Dropping the first event keeps a sequence free of `startDocument`. */
  lemma NoDocumentStartTail(events: seq<Event>)
    requires |events| > 0 && NoDocumentStart(events)
    ensures !events[0].StartDocument? && NoDocumentStart(events[1..])
  {
    forall i | 0 <= i < |events[1..]| ensures !events[1..][i].StartDocument? {
      assert events[1..][i] == events[i + 1];
    }
  }

  /** Without `startDocument` in between, a completed run moves the depth by the start tags minus
      the end tags and prints one line per start tag. */
  lemma {:induction false} IndentTracksNesting(vocabulary: set<string>, c: Converter, events: seq<Event>)
    requires NoDocumentStart(events)
    requires ConvertFrom(vocabulary, c, events).Finished?
    ensures ConvertFrom(vocabulary, c, events).state.indent == c.indent + CountStarts(events) - CountEnds(events)
    ensures |ConvertFrom(vocabulary, c, events).state.outline| == |c.outline| + CountStarts(events)
    decreases |events|
  {
    if |events| > 0 {
      NoDocumentStartTail(events);
      var c' := Step(vocabulary, c, events[0]).value;
      IndentTracksNesting(vocabulary, c', events[1..]);
    }
  }

  /** A run whose start tags are all in the vocabulary never aborts. */
  lemma {:induction false} ExpectedTagsFinish(vocabulary: set<string>, c: Converter, events: seq<Event>)
    requires StartTagsWithin(events, vocabulary)
    ensures ConvertFrom(vocabulary, c, events).Finished?
    decreases |events|
  {
    if |events| > 0 {
      var c' := Step(vocabulary, c, events[0]).value;
      ExpectedTagsFinish(vocabulary, c', events[1..]);
    }
  }

  /** A document whose start tags are all in the vocabulary and balance its end tags completes
      with the depth back at 0 and one outline line per element; `Convert` is the instance for
      `EXPECTED_TAGS`. */
  lemma BalancedDocumentReturnsToZero(vocabulary: set<string>, body: seq<Event>)
    requires NoDocumentStart(body)
    requires StartTagsWithin(body, vocabulary)
    requires CountStarts(body) == CountEnds(body)
    ensures ConvertFrom(vocabulary, Converter(0, []), [StartDocument] + body).Finished?
    ensures ConvertFrom(vocabulary, Converter(0, []), [StartDocument] + body).state.indent == 0
    ensures |ConvertFrom(vocabulary, Converter(0, []), [StartDocument] + body).state.outline| == CountStarts(body)
  {
    var events := [StartDocument] + body;
    var start := Converter(0, []);
    assert events[0] == StartDocument && events[1..] == body;
    assert ConvertFrom(vocabulary, start, events) == ConvertFrom(vocabulary, start, body);
    ExpectedTagsFinish(vocabulary, start, body);
    IndentTracksNesting(vocabulary, start, body);
  }

  /** The outline line gives back its depth and its tag: count the leading spaces and halve. */
  lemma OutlineLineRoundTrip(indent: nat, name: string)
    requires |name| == 0 || name[0] != ' '
    ensures LeadingCount(' ', OutlineLine(indent, name)) == 2 * indent
    ensures OutlineLine(indent, name)[2 * indent..] == name
  {
    LeadingCountOfRepeat(' ', 2 * indent, name);
  }

  /** The callbacks as written: `startDocument` sets `indent` to 0 and then raises, because
      `BahaiDocument()` is called without the required `title`. */
  function StepAsWritten(vocabulary: set<string>, c: Converter, e: Event): (r: Result<Converter, ConvertError>)
    ensures r.Err? <==> e.StartDocument? || (e.StartElement? && e.tag !in vocabulary)
    ensures r.Err? ==> r.error == if e.StartDocument? then MissingTitle else UnexpectedTag(e.tag)
    ensures r.Ok? ==> Step(vocabulary, c, e) == r
  {
    if e.StartDocument? then Err(MissingTitle) else Step(vocabulary, c, e)
  }

  /** The SAX driver over the callbacks as written: the first `startDocument` aborts the run. */
  function ConvertAsWrittenFrom(vocabulary: set<string>, c: Converter, events: seq<Event>): (r: ConvertOutcome)
    ensures r.Aborted? && r.error.MissingTitle? ==> StartDocument in events
    ensures StartDocument in events ==> r.Aborted?
    decreases |events|
  {
    if |events| == 0 then Finished(c)
    else match StepAsWritten(vocabulary, c, events[0])
      case Err(error) => Aborted(if error.MissingTitle? then c.(indent := 0) else c, error)
      case Ok(c') =>
        assert StartDocument in events ==> StartDocument in events[1..] by {
          if StartDocument in events {
            var i :| 0 <= i < |events| && events[i] == StartDocument;
            assert i > 0 && events[1..][i - 1] == events[i];
          }
        }
        ConvertAsWrittenFrom(vocabulary, c', events[1..])
  }

  /** `xml.sax.parse(fname, BahaiHtmlParser())` as written, on a document's events. The driver
      delivers `startDocument` first, so a document aborts before any tag is looked at. A stream
      without `startDocument` is never delivered; the model gives it `Convert`'s meaning from
      depth 0, where the source would raise `AttributeError` on the missing `indent`. */
  function ConvertAsWritten(events: seq<Event>): (r: ConvertOutcome)
    ensures |events| > 0 && events[0] == StartDocument ==> r == Aborted(Converter(0, []), MissingTitle)
    ensures NoDocumentStart(events) ==> r == Convert(events)
  {
    var r := ConvertAsWrittenFrom(ExpectedTags, Converter(0, []), events);
    assert NoDocumentStart(events) ==> r == Convert(events) by {
      if NoDocumentStart(events) {
        AsWrittenAgreesAwayFromDocumentStart(ExpectedTags, Converter(0, []), events);
      }
    }
    r
  }

  /** Away from `startDocument` the two versions of the handler behave the same. */
  lemma {:induction false} AsWrittenAgreesAwayFromDocumentStart(vocabulary: set<string>, c: Converter, events: seq<Event>)
    requires NoDocumentStart(events)
    ensures ConvertAsWrittenFrom(vocabulary, c, events) == ConvertFrom(vocabulary, c, events)
    decreases |events|
  {
    if |events| > 0 {
      NoDocumentStartTail(events);
      if Step(vocabulary, c, events[0]).Ok? {
        AsWrittenAgreesAwayFromDocumentStart(vocabulary, Step(vocabulary, c, events[0]).value, events[1..]);
      }
    }
  }

  /** As written, every document aborts at its `startDocument`, before any tag is looked at:
      the outline is empty and the depth 0, whatever the body and the vocabulary. */
  lemma EveryDocumentRaisesAsWritten(vocabulary: set<string>, c: Converter, body: seq<Event>)
    ensures ConvertAsWrittenFrom(vocabulary, c, [StartDocument] + body) == Aborted(c.(indent := 0), MissingTitle)
  {
    assert ([StartDocument] + body)[0] == StartDocument;
  }

  /** `<html></html>`: the corrected handler prints one line and returns to depth 0; the handler
      as written raises instead. */
  lemma HtmlDocumentRaisesAsWritten()
    ensures Convert([StartDocument, StartElement("html"), EndElement("html")]) == Finished(Converter(0, ["html"]))
    ensures ConvertAsWritten([StartDocument, StartElement("html"), EndElement("html")]) == Aborted(Converter(0, []), MissingTitle)
  {
    var body := [StartElement("html"), EndElement("html")];
    assert [StartDocument] + body == [StartDocument, StartElement("html"), EndElement("html")];
    EveryDocumentRaisesAsWritten(ExpectedTags, Converter(0, []), body);
    assert OutlineLine(0, "html") == "html";
  }
}
