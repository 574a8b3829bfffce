/**
  The tag census of bahai_obsidian/inspect.py: a SAX handler that collects the names
  of the elements a document opens, and the union of those sets over several files.
 */
module Inspect {
  import opened Events

  /** Reference definition: the names of the start tags among the events. */
  function StartTags(events: seq<Event>): set<string>
  {
    set i | 0 <= i < |events| && events[i].StartElement? :: events[i].tag
  }

  /** One SAX callback of `UniqueTagFinder`: `startDocument` starts an empty set, `startElement`
      adds the name, every other callback is inherited and does nothing. */
  function Collect(elements: set<string>, e: Event): (r: set<string>)
    ensures e.StartDocument? ==> r == {}
    ensures e.StartElement? ==> e.tag in r
    ensures !e.StartDocument? ==> elements <= r && r - elements <= StartTags([e])
  {
    match e
    case StartDocument => {}
    case StartElement(name) =>
      assert [e][0] == e;
      elements + {name}
    case _ => elements
  }

  /** The callbacks for `events`, in order, starting from the set `elements`. */
  function CollectAll(elements: set<string>, events: seq<Event>): (r: set<string>)
    ensures NoDocumentStart(events) ==> elements <= r
    decreases |events|
  {
    if |events| == 0 then elements
    else
      assert NoDocumentStart(events) ==> NoDocumentStart(events[1..]) by {
        forall i | 0 <= i < |events[1..]| ensures events[1..][i] == events[i + 1] {}
      }
      CollectAll(Collect(elements, events[0]), events[1..])
  }

  /** `main(fname)`: the handler's set after the SAX driver has delivered the document's events,
      the first of which is always `startDocument`. */
  function FindTags(document: seq<Event>): (r: set<string>)
    ensures NoDocumentStart(document) ==> r == StartTags(document)
  {
    var events := [StartDocument] + document;
    assert events[0] == StartDocument && events[1..] == document;
    var r := CollectAll({}, events);
    assert NoDocumentStart(document) ==> r == StartTags(document) by {
      if NoDocumentStart(document) {
        CollectAllIsUnion({}, document);
      }
    }
    r
  }

  /** Without `startDocument` in between, the collected set is what it started with plus the
      start-tag names, and nothing else. */
  lemma {:induction false} CollectAllIsUnion(elements: set<string>, events: seq<Event>)
    requires NoDocumentStart(events)
    ensures CollectAll(elements, events) == elements + StartTags(events)
    decreases |events|
  {
    if |events| > 0 {
      var rest := events[1..];
      assert NoDocumentStart(rest) by {
        forall i | 0 <= i < |rest| ensures !rest[i].StartDocument? {
          assert rest[i] == events[i + 1];
        }
      }
      CollectAllIsUnion(Collect(elements, events[0]), rest);
      var first := if events[0].StartElement? then {events[0].tag} else {};
      assert StartTags(events) == first + StartTags(rest) by {
        forall t | t in StartTags(events) ensures t in first + StartTags(rest) {
          var i :| 0 <= i < |events| && events[i].StartElement? && events[i].tag == t;
          if i > 0 {
            assert rest[i - 1] == events[i];
          }
        }
        forall t | t in StartTags(rest) ensures t in StartTags(events) {
          var i :| 0 <= i < |rest| && rest[i].StartElement? && rest[i].tag == t;
          assert events[i + 1] == rest[i];
        }
      }
    }
  }

  /** Repeating or reordering events does not change the set: only which start tags occur matters. */
  lemma FindTagsIgnoresOrderAndRepetition(a: seq<Event>, b: seq<Event>)
    requires NoDocumentStart(a) && NoDocumentStart(b)
    requires forall e :: e in a <==> e in b
    ensures FindTags(a) == FindTags(b)
  {
    forall t | t in StartTags(a) ensures t in StartTags(b) {
      var i :| 0 <= i < |a| && a[i].StartElement? && a[i].tag == t;
      assert a[i] in b;
      var j :| 0 <= j < |b| && b[j] == a[i];
    }
    forall t | t in StartTags(b) ensures t in StartTags(a) {
      var i :| 0 <= i < |b| && b[i].StartElement? && b[i].tag == t;
      assert b[i] in a;
      var j :| 0 <= j < |a| && a[j] == b[i];
    }
  }

  /** `functools.reduce(lambda x, y: x | y, ..., set())`: the union of the per-file sets, left to
      right, starting from the empty set. */
  function UnionFrom(acc: set<string>, files: seq<seq<Event>>): set<string>
    decreases |files|
  {
    if |files| == 0 then acc else UnionFrom(acc + FindTags(files[0]), files[1..])
  }

  /** A name is in the multi-file result exactly when some file opens an element of that name. */
  function UnionAll(files: seq<seq<Event>>): (r: set<string>)
    ensures forall t :: t in r <==> exists i :: 0 <= i < |files| && t in FindTags(files[i])
  {
    var r := UnionFrom({}, files);
    assert forall t :: t in r <==> exists i :: 0 <= i < |files| && t in FindTags(files[i]) by {
      forall t {
        UnionFromMembers({}, files, t);
      }
    }
    r
  }

  /** A name is in the running union exactly when it is in the accumulator or in some remaining file's set. */
  lemma {:induction false} UnionFromMembers(acc: set<string>, files: seq<seq<Event>>, t: string)
    ensures t in UnionFrom(acc, files) <==> t in acc || exists i :: 0 <= i < |files| && t in FindTags(files[i])
    decreases |files|
  {
    if |files| > 0 {
      UnionFromMembers(acc + FindTags(files[0]), files[1..], t);
      if t in UnionFrom(acc, files) && t !in acc && t !in FindTags(files[0]) {
        var i :| 0 <= i < |files[1..]| && t in FindTags(files[1..][i]);
        assert files[1..][i] == files[i + 1];
      }
      if exists i :: 0 <= i < |files| && t in FindTags(files[i]) {
        var i :| 0 <= i < |files| && t in FindTags(files[i]);
        if i > 0 {
          assert files[1..][i - 1] == files[i];
        }
      }
    }
  }
}
