# bahai-obsidian core, modelled in Dafny

bahai-obsidian turns Bahá'í writings published as XHTML into Markdown for an
Obsidian vault. This project models the code that reads the XHTML event stream:

- **stackparse.py**, the stack-machine parser. Each open element owns a tag handler on a
  stack, chosen by tag name from `TAG_HANDLERS`:
  - a start tag pushes a fresh handler;
  - character data goes to the top handler's `handle`;
  - an end tag finalizes the top handler, pops it, and yields from the new top's `accept`.

  The loop (`StackParse.ParseFrom`) is stated for any handler table. `parse_html`
  (`StackParse.ParseHtml`) runs it with `TAG_HANDLERS` (`StackParse.TagHandlers`) from
  an empty stack.
- **convert.py**, the SAX validator. It rejects any tag outside `EXPECTED_TAGS`, prints an
  indented outline line per start tag and counts depth in `indent`. The handler
  (`Convert.ConvertFrom`) is stated for any tag vocabulary. `Convert.Convert` uses it with
  `EXPECTED_TAGS` (`Convert.ExpectedTags`).

  As written, `startDocument` calls `BahaiDocument()` without its required `title`, so it
  raises `TypeError` on every document (see "## Findings"). `Convert.Step`,
  `Convert.ConvertFrom` and `Convert.Convert` model `startDocument` WITHOUT that call: it
  only resets `indent` to 0. `Convert.StepAsWritten` and `Convert.ConvertAsWrittenFrom`
  model the callbacks as written, including the call.
- **pullparse.py**, the draft pull tokenizer. It dispatches on start-tag names, skips
  subtrees with `expandNode`, and skips paragraphs with `retrieve_paragraph`. The loop
  (`PullParse.TokenizeWith`) takes the paragraph reader as a parameter: `PullParse.Tokenize`
  uses `retrieve_paragraph` as written, and `PullParse.TokenizeCorrected` reads to the
  paragraph's own end tag (see "## Findings").
- **inspect.py**, the tag census. It collects the set of element names one document
  opens, and reduces those sets with `|` over several files.

The XML parser is not modelled. Its output is taken as a given sequence of
`Events.Event` values (START/END_DOCUMENT, START/END_ELEMENT with a tag name,
CHARACTERS, and `Other` for comments, processing instructions and ignorable
whitespace).

Python generator behaviour is modelled explicitly:
- Tokens yielded before an exception have already reached the consumer, so a failed parse
  (`StackParse.Outcome.Failed`) keeps the output emitted so far.
- `AnchorTag.handle` and `InlineFormatting.handle` contain `yield`. Calling them only
  creates a generator object, so their bodies never run: anchors and `sup` never record
  their text.
- Every `accept` ends with a bare `yield`, so the output carries a `None` after each closed
  element. The output is `seq<Option<Token>>`.
- Python truthiness decides whether `IgnoreTag.accept` forwards a child's result and whether
  `ParagraphTag.accept` keeps it. `None` and `''` are false; dataclass instances are true.

`StackTree` gives the stack parser an independent, compositional reference
semantics over document trees (`Eval`). It proves that the stack machine computes
exactly that semantics for every tree and every handler table.

## Model

| member | source | states |
|---|---|---|
| StackParse.Handle | bahai_obsidian/stackparse.py:36-103 | `handle` changes only a heading or a paragraph, and only on character data; the handler keeps its kind and level, and heading text or paragraph items only grow |
| StackParse.Finalize | bahai_obsidian/stackparse.py:39-106 | `finalize` returns `None` exactly for `IgnoreTag`; the result is truthy exactly when it is not `None` and not an empty string; an anchor's href is always empty |
| StackParse.Accept | bahai_obsidian/stackparse.py:42-76 | every `accept` yields exactly one `None`, last, and besides it at most the forwarded token: only `IgnoreTag` forwards a truthy child token; a paragraph appends a truthy token to its items; every other parent is unchanged |
| StackParse.Push | bahai_obsidian/stackparse.py:118-119 | a start tag succeeds exactly when the tag has a handler, and pushes that handler; otherwise it raises `KeyError` for that tag |
| StackParse.Close | bahai_obsidian/stackparse.py:121-124 | an end tag succeeds exactly when at least two handlers are open; it removes one handler, leaves the handlers below the parent untouched, and appends exactly what the parent's `accept` yields; otherwise it raises `IndexError` |
| StackParse.Deliver | bahai_obsidian/stackparse.py:126-127 | character and other events change only the top handler, as `handle` says, and emit nothing; they raise `IndexError` on an empty stack |
| StackParse.Step | bahai_obsidian/stackparse.py:112-127 | one loop iteration raises `KeyError` exactly for a start tag without a handler, and `IndexError` exactly for an end tag with fewer than two handlers open or for content on an empty stack; on success the depth moves by the event's change and output is only appended; document events change nothing |
| StackParse.ParseFrom | bahai_obsidian/stackparse.py:109-127 | the loop only appends to the output; a `KeyError` names a start tag that occurs in the input and has no handler |
| StackParse.ParseHtml | bahai_obsidian/stackparse.py:109-127 | `parse_html` starts with `stack = []` and skips document events, so when the first event that is not START/END_DOCUMENT is an end tag or content, the parse raises `IndexError` on the empty machine with nothing emitted; a `KeyError` names a start tag of the input that `TAG_HANDLERS` lacks |
| StackParse.Markdown | bahai_obsidian/stackparse.py:20-21 | `markdown()` is `level` hashes, one space, then the text |
| StackProperties.MarkdownRoundTrip | bahai_obsidian/stackparse.py:20-21 | the heading line gives back its level (the count of leading hashes) and its text |
| StackProperties.ParseComposes | bahai_obsidian/stackparse.py:109-127 | parsing `a + b` is parsing `a`, then `b` from where `a` stopped; a failure in `a` is final |
| StackProperties.DepthTracksNesting | bahai_obsidian/stackparse.py:118-124 | after a completed parse the stack depth has grown by start tags minus end tags |
| StackProperties.CompletedParseKeepsAHandler | bahai_obsidian/stackparse.py:121-124 | once any handler is open, a completed parse leaves at least one handler on the stack |
| StackProperties.BalancedDocumentFails | bahai_obsidian/stackparse.py:109-124 | as written, a document whose start and end tags balance never completes; with every tag recognised the error is `IndexError` |
| StackProperties.InstructionBeforeRootFails | bahai_obsidian/stackparse.py:109-127 | as written, a processing instruction after START_DOCUMENT and before the root raises `IndexError` on the empty stack before any element opens, whatever follows |
| StackProperties.HtmlRootFails | bahai_obsidian/stackparse.py:118-124 | `<html></html>` raises at `</html>` after emitting nothing |
| StackProperties.DocumentEventsChangeNothing | bahai_obsidian/stackparse.py:113-115 | the START_DOCUMENT and END_DOCUMENT framing a stream change nothing: the framed stream parses exactly as its body |
| StackProperties.ParseRooted | bahai_obsidian/stackparse.py:109-127 | corrected loop with a sentinel root: the root is never popped, whether the parse completes or fails; `IndexError` is left only for an end tag with the root alone open; a properly nested document of recognised tags parses to the end |
| StackProperties.RootedParseCompletes | bahai_obsidian/stackparse.py:109-127 | on a stack rooted in an `IgnoreTag`, a properly nested sequence of recognised tags parses to the end; the root stays at the bottom and the depth follows the nesting |
| StackProperties.RootedDocumentReturnsToRoot | bahai_obsidian/stackparse.py:109-127 | corrected loop: a balanced, properly nested document of recognised tags completes with only the root handler left |
| StackProperties.HeadingConcatenatesText | bahai_obsidian/stackparse.py:57-59 | character data inside a heading is joined, in order, onto its text; nothing else changes and nothing is emitted |
| StackProperties.ParagraphKeepsChunks | bahai_obsidian/stackparse.py:69-71 | character data inside a paragraph becomes one string item per chunk, appended in order |
| StackProperties.InertHandlerIgnoresContent | bahai_obsidian/stackparse.py:86-103 | content events leave an anchor, inline-formatting or ignore handler exactly as pushed: the generator bodies of `handle` never run |
| StackProperties.SupBody | bahai_obsidian/stackparse.py:95-106 | after a freshly pushed `sup` handler, character data changes nothing, and the end tag hands the bare markers `<sup></sup>` to the parent's `accept` |
| StackProperties.SupDropsItsText | bahai_obsidian/stackparse.py:95-106 | a `sup` with only text inside finalizes to `<sup></sup>` with its text dropped, and its parent accepts that string |
| StackTree.ParseMatchesEval | bahai_obsidian/stackparse.py:109-127 | on any tree, for any table, the stack machine agrees with the reference semantics: same top handler, nothing below it changes, the same emitted output, or the same error |
| StackTree.ParseMatchesEvalAll | bahai_obsidian/stackparse.py:109-127 | the same agreement for a run of sibling trees |
| StackTree.DocumentFailsAfterItsTokens | bahai_obsidian/stackparse.py:121-124 | as written, a whole document raises `IndexError` at its root's end tag, after every token the reference semantics emits inside the root has been delivered |
| StackTree.DocumentStreamFailsAfterItsTokens | bahai_obsidian/stackparse.py:109-127 | the same failure for the whole pulldom stream, START_DOCUMENT and END_DOCUMENT included |
| StackTree.RootedDocumentMatchesEval | bahai_obsidian/stackparse.py:109-127 | with a sentinel root, a whole document completes, and its output is exactly what the reference semantics emits under an ignoring root |
| StackTree.RootedDocumentStreamMatchesEval | bahai_obsidian/stackparse.py:109-127 | with a sentinel root, the whole pulldom stream, START_DOCUMENT and END_DOCUMENT included, completes with exactly the reference semantics' output |
| StackTree.HeadingElementEmitsHeading | bahai_obsidian/stackparse.py:52-62 | a heading element holding only text, under an ignoring parent, emits one `Heading` with the tag's level and all its text in order, then `None` |
| StackTree.ParagraphElementEmitsParagraph | bahai_obsidian/stackparse.py:65-76 | a paragraph holding only text, under an ignoring parent, emits one `Paragraph` whose items are its text chunks in order, then `None` |
| StackTree.ParagraphWithSupElement | bahai_obsidian/stackparse.py:65-106 | `<p>before<sup>inner</sup>after</p>` under an ignoring parent emits `None` for the closed `sup`, then a `Paragraph` of `before`, the bare `<sup></sup>` and `after`, then `None`: the superscript text is lost |
| StackTree.BoldIsRejected | bahai_obsidian/stackparse.py:118-119 | `b` has no handler, so `<body><p>Hello <b>world</b>.</p></body>` raises `KeyError('b')` |
| Convert.OutlineLine | bahai_obsidian/convert.py:32 | the printed line is two spaces per level of depth (none for a negative depth), then the name |
| Convert.OutlineLineRoundTrip | bahai_obsidian/convert.py:32 | the outline line gives back its depth (leading spaces halved) and its tag name |
| Convert.Open | bahai_obsidian/convert.py:29-33 | (used by the handler with `startDocument` corrected) `startElement` succeeds exactly for an expected tag; it prints the line at the current depth and goes one deeper; otherwise it raises `BahaiMarkdownError` for that name |
| Convert.Close | bahai_obsidian/convert.py:35-36 | `endElement` goes one level up whatever the tag and prints nothing |
| Convert.Step | bahai_obsidian/convert.py:25-36 | with `startDocument` modelled without its `BahaiDocument()` call, a callback fails exactly for a start tag outside the vocabulary, with that tag's error |
| Convert.StepAsWritten | bahai_obsidian/convert.py:25-36 | as written, a callback fails exactly on `startDocument` (with `TypeError`) or on a start tag outside the vocabulary; whenever it succeeds it agrees with the corrected callback |
| Convert.ConvertFrom | bahai_obsidian/convert.py:25-36 | with `startDocument` modelled without its `BahaiDocument()` call, the outline only grows, and an abort names an unexpected start tag present in the input |
| Convert.ConvertAsWrittenFrom | bahai_obsidian/convert.py:25-36 | as written, any run that meets a `startDocument` aborts |
| Convert.Convert | bahai_obsidian/convert.py:39-41 | with `startDocument` modelled without its `BahaiDocument()` call, a document whose start tags are all in `EXPECTED_TAGS` completes, and an abort names a start tag of the input outside `EXPECTED_TAGS` |
| Convert.ConvertAsWritten | bahai_obsidian/convert.py:25-41 | as written, a document whose stream starts with `startDocument`, as every stream `xml.sax.parse` delivers does, aborts with `TypeError` at depth 0 having printed nothing; a stream without `startDocument`, which the driver never delivers, is given the corrected `Convert`'s meaning from depth 0 |
| Convert.RejectedStartLeavesState | bahai_obsidian/convert.py:29-31 | an unexpected tag aborts at once, leaving depth and outline as they were |
| Convert.IndentTracksNesting | bahai_obsidian/convert.py:29-36 | away from `startDocument`, a completed run moves `indent` by start tags minus end tags and prints one line per start tag |
| Convert.ExpectedTagsFinish | bahai_obsidian/convert.py:17-31 | with `startDocument` modelled without its `BahaiDocument()` call, a run whose start tags are all in the vocabulary (`EXPECTED_TAGS` for `Convert`) never aborts |
| Convert.BalancedDocumentReturnsToZero | bahai_obsidian/convert.py:25-36 | with the corrected `startDocument`, a balanced document whose tags are all in the vocabulary completes at depth 0 with one line per element |
| Convert.AsWrittenAgreesAwayFromDocumentStart | bahai_obsidian/convert.py:25-36 | without `startDocument`, the handler as written and the corrected one produce the same outcome |
| Convert.EveryDocumentRaisesAsWritten | bahai_obsidian/convert.py:12-27 | as written, every document aborts at its `startDocument` with depth 0, having printed nothing, whatever its body |
| Convert.HtmlDocumentRaisesAsWritten | bahai_obsidian/convert.py:12-36 | for `<html></html>`, the corrected handler finishes at depth 0 having printed `html`, and the handler as written raises |
| PullParse.HeadingLevel | bahai_obsidian/pullparse.py:71 | `int(tagName[1])` for `h1`–`h4` is the digit after the `h`, between 1 and 4 |
| PullParse.ExpandNode | bahai_obsidian/pullparse.py:64-70 | `expandNode` consumes input up to an end tag, or stops quietly when the input runs out |
| PullParse.ExpandNodeConsumesElement | bahai_obsidian/pullparse.py:64-70 | after an element's start tag, `expandNode` consumes exactly the rest of that element |
| PullParse.RetrieveParagraph | bahai_obsidian/pullparse.py:74-82 | the loop consumes input up to and including the first end tag, and no end tag before it |
| PullParse.RetrieveParagraphStops | bahai_obsidian/pullparse.py:77-82 | after content with no end tag, the loop stops right after the first end tag, whichever element it closes |
| PullParse.ParagraphExtent | bahai_obsidian/pullparse.py:74-82 | whichever reader, the `p` branch consumes no more than the input, and, when input remains, stops right after an end tag |
| PullParse.TokenizeWith | bahai_obsidian/pullparse.py:85-104 | for either paragraph reader, an error names a start tag in the input that has no branch; every heading level is between 1 and 4; at most one token per start tag |
| PullParse.Tokenize | bahai_obsidian/pullparse.py:85-104 | as written: an error names a start tag in the input that has no branch; every heading level is between 1 and 4; at most one token per start tag |
| PullParse.NoStartNoTokens | bahai_obsidian/pullparse.py:87-89 | input without start tags yields nothing and raises nothing |
| PullParse.IgnoredTagYieldsNothing | bahai_obsidian/pullparse.py:94-95 | `html`, `body` and `div` yield nothing and consume only their start tag |
| PullParse.FirstUnknownTagRaises | bahai_obsidian/pullparse.py:103-104 | the first start tag without a branch raises, before anything is yielded |
| PullParse.HeadYieldsTitle | bahai_obsidian/pullparse.py:91-92 | `head` yields one title, and tokenizing resumes right after the element |
| PullParse.HeadingYieldsLevel | bahai_obsidian/pullparse.py:97-98 | a heading yields its level, and tokenizing resumes right after the element |
| PullParse.NestedParagraphRaisesAsWritten | bahai_obsidian/pullparse.py:74-82 | as written, `<p><b>x</b> and <b>y</b></p>` yields `None` and then raises at the second `b`; with the corrected reader it yields `None` alone |
| PullParse.ParagraphYieldsNoneCorrected | bahai_obsidian/pullparse.py:74-82 | corrected reader: a `p` element, whatever it holds, yields one `None`, and tokenizing resumes right after the paragraph's own end tag |
| PullParse.ParagraphYieldsNone | bahai_obsidian/pullparse.py:100-101 | `p` yields `None`, and tokenizing resumes after the first end tag that follows, even one that closes a nested element |
| Inspect.Collect | bahai_obsidian/inspect.py:8-12 | `startDocument` empties the set, `startElement` adds the name, and no callback adds anything else |
| Inspect.CollectAllIsUnion | bahai_obsidian/inspect.py:7-12 | away from `startDocument`, the collected set is the starting set plus exactly the start-tag names |
| Inspect.CollectAll | bahai_obsidian/inspect.py:7-12 | away from `startDocument`, the callbacks never remove a name from the set |
| Inspect.FindTags | bahai_obsidian/inspect.py:15-18 | the driver delivers `startDocument` first; when the rest of the document holds no other `startDocument`, the result is exactly the names of the elements it opens |
| Inspect.FindTagsIgnoresOrderAndRepetition | bahai_obsidian/inspect.py:8-12 | documents with the same events, in any order or count, give the same set |
| Inspect.UnionAll | bahai_obsidian/inspect.py:22 | a name is in the combined result exactly when some file opens an element of that name |
| Vocabulary.PullTagsHaveHandlers | bahai_obsidian/pullparse.py:90-101 | every tag the pull tokenizer has a branch for has a stack-parser handler |
| Vocabulary.HandledTagsAreExpected | bahai_obsidian/stackparse.py:130-145 | every tag with a stack-parser handler passes the convert.py validator |
| Vocabulary.ValidatorAcceptsMore | bahai_obsidian/convert.py:22 | `i` passes the validator but has no stack-parser handler |

## Left out

- XML parsing: pulldom and SAX tokenisation, attributes, namespaces and character-data splitting are taken as given in the event sequence.
- The `__main__` blocks, `print` and command-line handling. convert.py's printed outline is modelled as returned lines. pullparse.py's "ignoring" message is dropped.
- pullparse.py `retrieve_title` and `retrieve_heading` text: both read a DOM subtree built by `expandNode`, so they need DOM construction. The tokens carry no text. The `IndexError` for a `head` without a title or an empty heading is not modelled.
- PullParse.HeadingYieldsLevel: yields the level for every heading element. In the source, `node.childNodes[0].data` (pullparse.py:71) raises `AttributeError` when a heading's first child is an element, as in `<h2><a id="x"/>Text</h2>`, and `IndexError` when the heading is empty, so the lemma matches the source only for headings whose first child is text.
- pullparse.py `show_structure`, and the `Format`, `InlineText` and `Paragraph` classes, which `tokenize` never builds.
- Generator laziness: a parse is modelled as the full list of what the consumer would receive. Stopping consumption early is not modelled.
- `StackParse.Handle`'s `doc` and `node` arguments: only the character data is modelled.
- Behaviour the source does not have, which the model therefore does not have either:
  - whitespace normalisation of character data;
  - label anchors, `href` capture and an ambiguous-anchor error;
  - handlers for `b`, `i`, `u` and `em`: these tags raise `KeyError` in `parse_html`;
  - an error for unbalanced tags;
  - a sentinel root handler in `parse_html`;
  - a renderer with word wrapping and `^label` lines (only `Heading.markdown` exists).
- Anchor and `sup` text: the source's `handle` bodies never run, so the text is dropped (`StackProperties.SupDropsItsText`). A corrected handler is not modelled, because the source gives no single evident fix: it has both `self.text = node.data` (replace) and `+=` (append) elsewhere.
- Convert.ConvertAsWritten: on a stream without `startDocument`, which `xml.sax.parse` never delivers, the source raises `AttributeError` at the first expected `startElement` or any `endElement`, because `indent` is created only in `startDocument`; the model instead runs such a stream as `Convert` from depth 0. `Convert.Convert` and `Convert.ConvertFrom` likewise start from a given depth.
- Convert.Step: models `startDocument` without the `BahaiDocument()` call, which raises `TypeError` as written; so do `Convert.Open`, `Convert.ConvertFrom`, `Convert.Convert` and `Convert.ExpectedTagsFinish`. The call as written is modelled by `Convert.StepAsWritten` and `Convert.ConvertAsWrittenFrom`.

## Findings

| source | as written | input that shows it | evidently intended | confidence | as-written member | corrected member |
|---|---|---|---|---|---|---|
| bahai_obsidian/stackparse.py:121-124 | the stack starts empty, so the end tag of the outermost element pops the last handler and `stack[-1].accept` raises `IndexError`; content before the root, such as a processing instruction, meets the empty stack even earlier, at line 127 | `<html></html>`, i.e. `[StartElement("html"), EndElement("html")]` | a root handler that absorbs document-level content, so that a balanced document completes | not executed | StackProperties.BalancedDocumentFails | StackProperties.RootedDocumentReturnsToRoot |
| bahai_obsidian/convert.py:27 | `startDocument` calls `BahaiDocument()`, whose dataclass field `title` has no default, so it raises `TypeError` before any element is seen | any document, e.g. `<html></html>` | a document object that can be created before its title is known, so validation proceeds | not executed | Convert.EveryDocumentRaisesAsWritten | Convert.BalancedDocumentReturnsToZero |
| bahai_obsidian/pullparse.py:74-82 | `retrieve_paragraph` stops at the first END_ELEMENT of any element, although it means to read to the end of the paragraph, so the rest of the paragraph goes back to the dispatch | `<p><b>x</b> and <b>y</b></p>`: `None` is yielded, then `BahaiHtmlParseError` for the second `b` | read to the paragraph's own end tag, counting depth as `expandNode` does | not executed; medium: the function is a draft | PullParse.NestedParagraphRaisesAsWritten | PullParse.ParagraphYieldsNoneCorrected |
