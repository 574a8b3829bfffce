/**
  The event stream that the XML pull parser (pulldom) and the SAX driver deliver
  to the four parsers of the repository. The tokenizer itself is not modelled:
  a document is given directly as its sequence of events.
 */
module Events {
  import opened Strings

  datatype Event =
    | StartDocument
    | EndDocument
    | StartElement(tag: string)
    | EndElement(tag: string)
    | Characters(text: string)
      /** Every other pulldom event kind: COMMENT, PROCESSING_INSTRUCTION, IGNORABLE_WHITESPACE. */
    | Other(kind: string)

  predicate IsElementEvent(e: Event)
  {
    e.StartElement? || e.EndElement?
  }

  /** Number of START_ELEMENT events. */
  function CountStarts(events: seq<Event>): nat
  {
    if |events| == 0 then 0
    else (if events[0].StartElement? then 1 else 0) + CountStarts(events[1..])
  }

  /** Number of END_ELEMENT events. */
  function CountEnds(events: seq<Event>): nat
  {
    if |events| == 0 then 0
    else (if events[0].EndElement? then 1 else 0) + CountEnds(events[1..])
  }

  /** No START_DOCUMENT occurs in the events (a document body). */
  predicate NoDocumentStart(events: seq<Event>)
  {
    forall i :: 0 <= i < |events| ==> !events[i].StartDocument?
  }

  /** Every start tag of the events belongs to `vocabulary`. */
  predicate StartTagsWithin(events: seq<Event>, vocabulary: set<string>)
    decreases |events|
  {
    |events| == 0 ||
    ((events[0].StartElement? ==> events[0].tag in vocabulary) && StartTagsWithin(events[1..], vocabulary))
  }

  /** Any start tag occurring in such events is in the vocabulary. */
  lemma {:induction false} StartTagsWithinHolds(events: seq<Event>, vocabulary: set<string>, tag: string)
    requires StartTagsWithin(events, vocabulary) && StartElement(tag) in events
    ensures tag in vocabulary
    decreases |events|
  {
    if events[0] != StartElement(tag) {
      assert StartElement(tag) in events[1..] by {
        var i :| 0 <= i < |events| && events[i] == StartElement(tag);
        assert events[1..][i - 1] == events[i];
      }
      StartTagsWithinHolds(events[1..], vocabulary, tag);
    }
  }

  /** A sequence without START_ELEMENT events counts zero starts, and conversely. */
  lemma {:induction false} NoStartsIffCountZero(events: seq<Event>)
    ensures CountStarts(events) == 0 <==> forall i :: 0 <= i < |events| ==> !events[i].StartElement?
  {
    if |events| > 0 {
      NoStartsIffCountZero(events[1..]);
      if CountStarts(events) == 0 {
        forall i | 0 <= i < |events| ensures !events[i].StartElement? {
          if i > 0 { assert events[i] == events[1..][i - 1]; }
        }
      } else if !events[0].StartElement? {
        var j :| 0 <= j < |events[1..]| && events[1..][j].StartElement?;
        assert events[j + 1].StartElement?;
      }
    }
  }

  /** A well-formed document (or part of one) as a tree of elements and text. */
  datatype Node = Element(tag: string, children: seq<Node>) | Text(data: string)

  /** The events the pull parser delivers for a node: start tag, content, end tag. */
  function Serialize(n: Node): (events: seq<Event>)
    ensures |events| >= 1
    decreases n
  {
    match n
    case Text(data) => [Characters(data)]
    case Element(tag, children) => [StartElement(tag)] + SerializeAll(children) + [EndElement(tag)]
  }

  function SerializeAll(ns: seq<Node>): seq<Event>
    decreases ns
  {
    if |ns| == 0 then [] else Serialize(ns[0]) + SerializeAll(ns[1..])
  }

  /** An element followed by more events: its start tag, then its children, its end tag and the rest. */
  lemma SerializeElementThen(tag: string, children: seq<Node>, rest: seq<Event>)
    ensures Serialize(Element(tag, children)) + rest
      == [StartElement(tag)] + (SerializeAll(children) + ([EndElement(tag)] + rest))
  {
    var start, body, close := [StartElement(tag)], SerializeAll(children), [EndElement(tag)];
    SeqAssoc(start + body, close, rest);
    SeqAssoc(start, body, close + rest);
  }

  /** An element's events: its start tag, then its children's events and its end tag. */
  lemma SerializeElement(tag: string, children: seq<Node>)
    ensures Serialize(Element(tag, children)) == [StartElement(tag)] + (SerializeAll(children) + [EndElement(tag)])
  {
    SeqAssoc([StartElement(tag)], SerializeAll(children), [EndElement(tag)]);
  }

  /** Siblings followed by more events: the first sibling, then the others and the rest. */
  lemma SerializeAllThen(ns: seq<Node>, rest: seq<Event>)
    requires |ns| > 0
    ensures SerializeAll(ns) + rest == Serialize(ns[0]) + (SerializeAll(ns[1..]) + rest)
  {
    SeqAssoc(Serialize(ns[0]), SerializeAll(ns[1..]), rest);
  }
}
