/** Reports travel as chains of binary events attached to one command by many shards at once: building a chain,
    attaching it without locks, merging result codes, and reading every shard's bytes back. */
module EventChain {
  import opened Bytes

  datatype ChainEvent =
    | BinaryEvent(section: int, matchedOrderId: int, matchedOrderUid: int, price: int, size: int, bidderHoldPrice: int)
    | OtherEvent

  // ----- Bytes as events -----

  function EventAt(section: int, words: seq<int>, i: nat): ChainEvent
    requires i + 5 <= |words|
  {
    BinaryEvent(section, words[i], words[i + 1], words[i + 2], words[i + 3], words[i + 4])
  }

  function EventsOf(section: int, words: seq<int>): (events: seq<ChainEvent>)
    requires |words| % 5 == 0
    ensures |events| == |words| / 5
  {
    if words == [] then [] else [EventAt(section, words, 0)] + EventsOf(section, words[5..])
  }

  lemma {:induction false} EventsOfAppend(section: int, words: seq<int>, i: nat)
    requires i % 5 == 0 && i + 5 <= |words|
    ensures EventsOf(section, words[..i + 5]) == EventsOf(section, words[..i]) + [EventAt(section, words, i)]
    decreases i
  {
    if i == 0 {
      assert words[..5][5..] == [] && words[..0] == [];
      assert EventsOf(section, words[..5][5..]) == [];
      assert EventAt(section, words[..5], 0) == EventAt(section, words, 0);
    } else {
      EventsOfAppend(section, words[5..], i - 5);
      assert words[5..][..i] == words[..i + 5][5..] && words[5..][..i - 5] == words[..i][5..];
      assert EventAt(section, words[5..], i - 5) == EventAt(section, words, i);
      assert EventAt(section, words[..i + 5], 0) == EventAt(section, words[..i], 0);
    }
  }

  function ChainFor(section: int, bytes: seq<byte>): seq<ChainEvent> {
    RequiredSizeIs(|bytes|, 5);
    EventsOf(section, BytesToLongArray(bytes, 5))
  }

  class MatcherTradeEvent {
    var event: ChainEvent
    var nextEvent: MatcherTradeEvent?

    constructor (event: ChainEvent)
      ensures this.event == event && nextEvent == null
    {
      this.event, nextEvent := event, null;
    }
  }

  /** Every node points to the one behind it, the last to none. */
  ghost predicate Linked(chain: seq<MatcherTradeEvent>)
    reads chain
  {
    && (forall i, j | 0 <= i < j < |chain| :: chain[i] != chain[j])
    && (forall i | 0 <= i < |chain| :: chain[i].nextEvent == if i + 1 < |chain| then chain[i + 1] else null)
  }

  ghost function Contents(chain: seq<MatcherTradeEvent>): (events: seq<ChainEvent>)
    reads chain
    ensures |events| == |chain|
  {
    seq(|chain|, i requires 0 <= i < |chain| reads chain => chain[i].event)
  }

  /** Links a new node behind the last one. */
  method Attach(ghost chain: seq<MatcherTradeEvent>, last: MatcherTradeEvent?, node: MatcherTradeEvent)
    requires Linked(chain) && node !in chain && node.nextEvent == null
    requires if chain == [] then last == null else last == chain[|chain| - 1]
    modifies chain`nextEvent
    ensures Linked(chain + [node]) && Contents(chain + [node]) == old(Contents(chain)) + [node.event]
  {
    if last != null {
      last.nextEvent := node;
    }
  }

  /** The bytes of a report as a chain of events, in order. */
  method CreateBinaryEventsChain(section: int, bytes: seq<byte>)
    returns (first: MatcherTradeEvent?, ghost chain: seq<MatcherTradeEvent>)
    ensures Linked(chain) && Contents(chain) == ChainFor(section, bytes)
    ensures if chain == [] then first == null else first == chain[0]
    ensures fresh(chain)
  {
    RequiredSizeIs(|bytes|, 5);
    var data := BytesToLongArray(bytes, 5);
    first, chain := null, [];
    var last: MatcherTradeEvent? := null;
    var i := 0;
    assert data[..0] == [];
    while i < |data|
      invariant 0 <= i <= |data| && i % 5 == 0 && |data| % 5 == 0
      invariant Linked(chain) && fresh(chain) && Contents(chain) == EventsOf(section, data[..i])
      invariant if chain == [] then first == null && last == null else first == chain[0] && last == chain[|chain| - 1]
    {
      var event := new MatcherTradeEvent(EventAt(section, data, i));
      EventsOfAppend(section, data, i);
      Attach(chain, last, event);
      if first == null {
        first := event;
      }
      last := event;
      chain := chain + [event];
      i := i + 5;
    }
    assert data[..i] == data;
  }

  // ----- Reading the chain back -----

  function OfSection(events: seq<ChainEvent>, section: int): seq<ChainEvent> {
    if events == [] then []
    else (if events[0].BinaryEvent? && events[0].section == section then [events[0]] else [])
           + OfSection(events[1..], section)
  }

  function WordsOf(events: seq<ChainEvent>): seq<int> {
    if events == [] then []
    else (if events[0].BinaryEvent?
          then [events[0].matchedOrderId, events[0].matchedOrderUid, events[0].price, events[0].size,
                events[0].bidderHoldPrice] else [])
         + WordsOf(events[1..])
  }

  /** The bytes received for a section. */
  function Received(events: seq<ChainEvent>, section: int): seq<byte> {
    LongsToBytes(WordsOf(OfSection(events, section)))
  }

  lemma {:induction false} OfSectionConcat(a: seq<ChainEvent>, b: seq<ChainEvent>, section: int)
    ensures OfSection(a + b, section) == OfSection(a, section) + OfSection(b, section)
  {
    if a == [] {
      assert a + b == b;
    } else {
      OfSectionConcat(a[1..], b, section);
      assert (a + b)[1..] == a[1..] + b && (a + b)[0] == a[0];
      var own := if a[0].BinaryEvent? && a[0].section == section then [a[0]] else [];
      assert own + (OfSection(a[1..], section) + OfSection(b, section))
             == (own + OfSection(a[1..], section)) + OfSection(b, section);
    }
  }

  lemma {:induction false} EventsBack(section: int, words: seq<int>)
    requires |words| % 5 == 0
    ensures WordsOf(EventsOf(section, words)) == words
    ensures OfSection(EventsOf(section, words), section) == EventsOf(section, words)
    ensures forall s: int :: s != section ==> OfSection(EventsOf(section, words), s) == []
  {
    if words != [] {
      EventsBack(section, words[5..]);
      var events := EventsOf(section, words);
      assert events[1..] == EventsOf(section, words[5..]);
      assert words == words[..5] + words[5..];
      assert words[..5] == [words[0], words[1], words[2], words[3], words[4]];
    }
  }

  /** One report alone comes back as its bytes, padded with zeros to a multiple of forty. */
  lemma ReportComesBack(section: int, bytes: seq<byte>)
    ensures Received(ChainFor(section, bytes), section) == Padded(bytes, 5)
    ensures |Padded(bytes, 5)| % 40 == 0
    ensures forall s: int :: s != section ==> OfSection(ChainFor(section, bytes), s) == []
    ensures OfSection(ChainFor(section, bytes), section) == [] <==> bytes == []
  {
    hide EventsOf, OfSection, WordsOf, LongsToBytes, BytesToLongArray, RequiredLongArraySize;
    RequiredSizeIs(|bytes|, 5);
    EventsBack(section, BytesToLongArray(bytes, 5));
    PackedIsPadded(bytes, 5);
  }

  /** Follows the chain and collects, for every section, its events in order. */
  method DeserializeEvents(head: MatcherTradeEvent?, ghost chain: seq<MatcherTradeEvent>)
    returns (result: map<int, seq<byte>>)
    requires Linked(chain) && (if chain == [] then head == null else head == chain[0])
    ensures forall s: int :: s in result <==> OfSection(Contents(chain), s) != []
    ensures forall s: int <- result :: result[s] == Received(Contents(chain), s)
  {
    var sections: map<int, seq<ChainEvent>> := map[];
    var evt := head;
    ghost var n := 0;
    ghost var all := Contents(chain);
    while evt != null
      invariant 0 <= n <= |chain| && evt == if n < |chain| then chain[n] else null
      invariant forall s: int :: s in sections <==> OfSection(all[..n], s) != []
      invariant forall s: int <- sections :: sections[s] == OfSection(all[..n], s)
      decreases |chain| - n
    {
      assert evt.nextEvent == if n + 1 < |chain| then chain[n + 1] else null;
      assert all[..n + 1] == all[..n] + [evt.event];
      forall s: int
        ensures OfSection(all[..n + 1], s) == OfSection(all[..n], s) + if evt.event.BinaryEvent?
                && evt.event.section == s then [evt.event] else []
      {
        OfSectionConcat(all[..n], [evt.event], s);
        OfSectionOne(evt.event, s);
      }
      if evt.event.BinaryEvent? {
        var s := evt.event.section;
        sections := sections[s := (if s in sections then sections[s] else []) + [evt.event]];
      }
      evt := evt.nextEvent;
      n := n + 1;
    }
    assert all[..n] == all;
    result := map s: int | s in sections :: LongsToBytes(WordsOf(sections[s]));
  }

  lemma OfSectionOne(e: ChainEvent, section: int)
    ensures OfSection([e], section) == if e.BinaryEvent? && e.section == section then [e] else []
  {
    assert [e][1..] == [];
    assert OfSection([e][1..], section) == [];
  }
}
