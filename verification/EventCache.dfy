/** Correlation of packets with events: the cache of a spooler and the processing of one record. */
module EventCache {

  datatype Kind = PacketRecord | EventRecord | ExtraData | Unrecognised

  /** The record types of the unified2 format that the spooler tells apart. */
  function KindOf(rtype: nat): Kind {
    if rtype == 2 then PacketRecord
    else if rtype in {7, 72, 99, 100, 104, 105} then EventRecord
    else if rtype == 110 then ExtraData
    else Unrecognised
  }

  datatype Record = Record(rtype: nat, eventId: nat, eventSecond: nat) {
    function Kind(): Kind { KindOf(rtype) }
    // Only the low 16 bits of an event id take part in correlation.
    function Id(): nat { eventId % 0x1_0000 }
  }

  /** A cached event. The event itself is named by the index of its record in the file. */
  datatype Node = Node(rtype: nat, event: nat, used: bool, timeUsed: nat, eventId: nat, eventSecond: nat)

  /** The cache, newest event first, and its count of cached events. */
  datatype Cache = Cache(nodes: seq<Node>, cached: nat)

  const EMPTY: Cache := Cache([], 0)

  /** What reaches the output plugins: an event alone, a packet with its event, a packet alone. */
  datatype Output = Alert(event: nat, rtype: nat) | Special(packet: nat, event: nat, rtype: nat) | Log(packet: nat) {
    predicate Carries(e: nat) { !Log? && event == e }
  }

  /** The event cache limit, and whether every packet of a stream repeats its event. */
  datatype Config = Config(limit: nat, eachPacket: bool)

  // ---- One record, as a function ----

  /** The first cached event with these ids; |nodes| if there is none. */
  function Find(nodes: seq<Node>, id: nat, second: nat): (i: nat)
    ensures i <= |nodes|
    ensures i < |nodes| ==> nodes[i].eventId == id && nodes[i].eventSecond == second
    ensures forall j :: 0 <= j < i ==> nodes[j].eventId != id || nodes[j].eventSecond != second
  {
    if nodes == [] || (nodes[0].eventId == id && nodes[0].eventSecond == second) then 0
    else 1 + Find(nodes[1..], id, second)
  }

  predicate Purgeable(n: Node) { n.used && n.timeUsed >= 1 }

  /** The oldest purgeable event; |nodes| if there is none. */
  function Candidate(nodes: seq<Node>): (i: nat)
    ensures i <= |nodes| && (i < |nodes| ==> Purgeable(nodes[i]))
    ensures i < |nodes| ==> forall j :: i < j < |nodes| ==> !Purgeable(nodes[j])
    ensures i == |nodes| ==> forall j :: 0 <= j < |nodes| ==> !Purgeable(nodes[j])
  {
    if nodes == [] then 0
    else
      var i := Candidate(nodes[1..]);
      if i < |nodes| - 1 then 1 + i else if Purgeable(nodes[0]) then 0 else |nodes|
  }

  // Over the limit, one event is purged; when that is the newest, the list is emptied with it.
  function Clean(c: Cache, limit: nat): Cache {
    var i := Candidate(c.nodes);
    if c.nodes == [] || c.cached <= limit || i == |c.nodes| then c
    else if i == 0 then Cache([], c.cached - 1)
    else Cache(c.nodes[..i] + c.nodes[i + 1..], c.cached - 1)
  }

  predicate HeadUnused(c: Cache) { c.nodes != [] && !c.nodes[0].used }

  function MarkHead(c: Cache): Cache
    requires c.nodes != []
  {
    c.(nodes := c.nodes[0 := c.nodes[0].(used := true)])
  }

  function AlertHead(c: Cache): seq<Output> {
    if HeadUnused(c) then [Alert(c.nodes[0].event, c.nodes[0].rtype)] else []
  }

  function Flushed(c: Cache): Cache { if HeadUnused(c) then MarkHead(c) else c }

  datatype Effect = Effect(cache: Cache, outputs: seq<Output>, bookmark: bool)

  function PacketEffect(c: Cache, id: nat, second: nat, k: nat, cfg: Config): (e: Effect)
    ensures e.bookmark
  {
    var i := Find(c.nodes, id, second);
    if i < |c.nodes| then
      var n := c.nodes[i];
      Effect(c.(nodes := c.nodes[i := n.(used := true, timeUsed := n.timeUsed + 1)]),
             if !n.used || cfg.eachPacket then [Special(k, n.event, n.rtype)] else [], true)
    else
      Effect(Flushed(c), AlertHead(c) + [Log(k)], true)
  }

  function EventEffect(c: Cache, rtype: nat, id: nat, second: nat, k: nat): Effect {
    Effect(Cache([Node(rtype, k, false, 0, id, second)] + Flushed(c).nodes, c.cached + 1), AlertHead(c), true)
  }

  function Handle(c: Cache, r: Record, k: nat, cfg: Config): Effect {
    match r.Kind()
    case PacketRecord => PacketEffect(c, r.Id(), r.eventSecond, k, cfg)
    case EventRecord => EventEffect(c, r.rtype, r.Id(), r.eventSecond, k)
    case ExtraData => Effect(c, [], true)
    case Unrecognised => Effect(c, AlertHead(c), HeadUnused(c))  // the event stays unused
  }

  /** What record number k does to the cache, to the outputs and to the bookmark. */
  function Step(c: Cache, r: Record, k: nat, cfg: Config): Effect {
    var e := Handle(c, r, k, cfg);
    e.(cache := Clean(e.cache, cfg.limit))
  }

  // ---- The spooler object ----

  class Spooler {
    var nodes: seq<Node>
    var eventsCached: nat
    var outputs: seq<Output>  // the calls of the output plugins so far
    var recordIdx: nat
    const cfg: Config

    function Contents(): Cache
      reads this
    {
      Cache(nodes, eventsCached)
    }

    constructor (cfg: Config)
      ensures Contents() == EMPTY && outputs == [] && recordIdx == 0 && this.cfg == cfg
    {
      this.cfg := cfg;
      nodes, eventsCached, outputs, recordIdx := [], 0, [], 0;
    }

    method CachePush(rtype: nat, event: nat, eventId: nat, eventSecond: nat)
      modifies this`nodes, this`eventsCached
      ensures nodes == [Node(rtype, event, false, 0, eventId, eventSecond)] + old(nodes)
      ensures eventsCached == old(eventsCached) + 1
    {
      nodes := [Node(rtype, event, false, 0, eventId, eventSecond)] + nodes;
      eventsCached := eventsCached + 1;
    }

    // The position of the event found, whose use is counted; |nodes| stands for a null pointer.
    method CacheGetByEventID(eventId: nat, eventSecond: nat) returns (i: nat)
      modifies this`nodes
      ensures i == Find(old(nodes), eventId, eventSecond)
      ensures nodes == if i == |old(nodes)| then old(nodes)
                       else old(nodes)[i := old(nodes)[i].(timeUsed := old(nodes)[i].timeUsed + 1)]
    {
      i := 0;
      while i < |nodes|
        invariant i <= |nodes| && nodes == old(nodes)
        invariant Find(nodes, eventId, eventSecond) == i + Find(nodes[i..], eventId, eventSecond)
      {
        if nodes[i].eventId == eventId && nodes[i].eventSecond == eventSecond {
          nodes := nodes[i := nodes[i].(timeUsed := nodes[i].timeUsed + 1)];
          return;
        }
        assert nodes[i..][1..] == nodes[i + 1..];
        i := i + 1;
      }
    }

    method CacheClean()
      modifies this`nodes, this`eventsCached
      ensures Contents() == Clean(old(Contents()), cfg.limit)
    {
      if nodes == [] {
        return;
      }
      if eventsCached > cfg.limit {
        var candidate := |nodes|;
        var i := 0;
        while i < |nodes|
          invariant 0 <= i <= |nodes|
          invariant Candidate(nodes[i..]) < |nodes| - i ==> Candidate(nodes) == i + Candidate(nodes[i..])
          invariant Candidate(nodes[i..]) == |nodes| - i ==> Candidate(nodes) == candidate
        {
          assert nodes[i..][1..] == nodes[i + 1..];
          if nodes[i].used && nodes[i].timeUsed >= 1 {
            candidate := i;
          }
          i := i + 1;
        }
        if candidate != |nodes| {
          if candidate == 0 {
            nodes := [];
          } else {
            nodes := nodes[..candidate] + nodes[candidate + 1..];
          }
          eventsCached := eventsCached - 1;
        }
      }
    }

    // Fires the newest cached event if no packet has; marks it used.
    method FlushHead(fireOutput: bool)
      modifies this`nodes, this`outputs
      ensures nodes == Flushed(old(Contents())).nodes
      ensures outputs == old(outputs) + if fireOutput then AlertHead(old(Contents())) else []
    {
      if nodes != [] && !nodes[0].used {
        if fireOutput {
          outputs := outputs + [Alert(nodes[0].event, nodes[0].rtype)];
        }
        nodes := nodes[0 := nodes[0].(used := true)];
      }
    }

    method ProcessPacket(id: nat, second: nat, k: nat, fireOutput: bool)
      modifies this`nodes, this`outputs
      ensures var e := PacketEffect(old(Contents()), id, second, k, cfg);
              Contents() == e.cache && outputs == old(outputs) + (if fireOutput then e.outputs else [])
    {
      var i := CacheGetByEventID(id, second);
      if i < |nodes| {
        if fireOutput && (!nodes[i].used || cfg.eachPacket) {
          outputs := outputs + [Special(k, nodes[i].event, nodes[i].rtype)];
        }
        nodes := nodes[i := nodes[i].(used := true)];
      } else {
        FlushHead(fireOutput);
        if fireOutput {
          outputs := outputs + [Log(k)];
        }
      }
    }

    /** Processes the record just read; only with fireOutput set does it reach the outputs, and only
        then may it ask for the waldo to be written. */
    method ProcessRecord(r: Record, fireOutput: bool) returns (writeWaldo: bool)
      requires recordIdx > 0
      modifies this`nodes, this`eventsCached, this`outputs
      ensures var e := Step(old(Contents()), r, recordIdx - 1, cfg);
              && Contents() == e.cache
              && outputs == old(outputs) + (if fireOutput then e.outputs else [])
              && writeWaldo == (fireOutput && e.bookmark)
    {
      hide Clean, PacketEffect;
      var k := recordIdx - 1;
      var handled := true;
      match r.Kind() {
        case PacketRecord =>
          ProcessPacket(r.Id(), r.eventSecond, k, fireOutput);
        case EventRecord =>
          FlushHead(fireOutput);
          CachePush(r.rtype, k, r.Id(), r.eventSecond);
        case ExtraData =>
        case Unrecognised =>
          handled := nodes != [] && !nodes[0].used;
          if handled && fireOutput {
            outputs := outputs + [Alert(nodes[0].event, nodes[0].rtype)];
          }
      }
      writeWaldo := fireOutput && handled;
      CacheClean();
    }
  }
}
