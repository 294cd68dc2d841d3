/** Which packets of a spool file reach the output plugins, with which event, and in what order. */
module PacketDelivery {
  import opened EventCache
  import opened EventDelivery

  // ---- Records, by the numbers of the unified2 format ----

  predicate IsPacket(r: Record) { r.rtype == 2 }

  predicate IsEvent(r: Record) { r.rtype in {7, 72, 99, 100, 104, 105} }

  predicate IsExtraData(r: Record) { r.rtype == 110 }

  /** A packet and an event of the same second, with ids that agree in their low 16 bits. */
  predicate Belongs(packet: Record, event: Record) {
    packet.eventId % 0x1_0000 == event.eventId % 0x1_0000 && packet.eventSecond == event.eventSecond
  }

  // ---- What the cache holds ----

  predicate Cached(c: Cache, e: nat) { exists i :: 0 <= i < |c.nodes| && c.nodes[i].event == e }

  predicate UsedIn(c: Cache, e: nat) { exists i :: 0 <= i < |c.nodes| && c.nodes[i].event == e && c.nodes[i].used }

  /** Every node is an event record read before, with its type and ids. */
  predicate NodeHolds(x: Node, recs: seq<Record>, n: nat)
    requires n <= |recs|
  {
    && x.event < n && IsEvent(recs[x.event]) && x.rtype == recs[x.event].rtype
    && x.eventId == recs[x.event].eventId % 0x1_0000 && x.eventSecond == recs[x.event].eventSecond
  }

  /** The nodes stand for event records, the newest first. */
  ghost predicate Holds(c: Cache, recs: seq<Record>, n: nat)
    requires n <= |recs|
  {
    && (forall i :: 0 <= i < |c.nodes| ==> NodeHolds(c.nodes[i], recs, n))
    && (forall i, j :: 0 <= i < j < |c.nodes| ==> c.nodes[j].event < c.nodes[i].event)
  }

  predicate SameEvent(x: Node, y: Node) {
    x.event == y.event && x.rtype == y.rtype && x.eventId == y.eventId && x.eventSecond == y.eventSecond
  }

  // The nodes stay, but for their marks.
  predicate Marked(c: Cache, d: Cache) {
    && d.cached == c.cached && |d.nodes| == |c.nodes|
    && forall i :: 0 <= i < |c.nodes| ==> SameEvent(d.nodes[i], c.nodes[i])
  }

  lemma FlushMarks(c: Cache)
    ensures Marked(c, Flushed(c)) && Marked(c, c)
  {
  }

  lemma PacketMarks(c: Cache, id: nat, second: nat, k: nat, cfg: Config)
    ensures Marked(c, PacketEffect(c, id, second, k, cfg).cache)
  {
    hide Flushed, Marked;
    FlushMarks(c);
    var i := Find(c.nodes, id, second);
    if i < |c.nodes| {
      MarkOne(c, i, c.nodes[i].(used := true, timeUsed := c.nodes[i].timeUsed + 1));
    }
  }

  lemma MarkOne(c: Cache, i: nat, x: Node)
    requires i < |c.nodes| && SameEvent(x, c.nodes[i])
    ensures Marked(c, c.(nodes := c.nodes[i := x]))
  {
  }

  // Before any purge a record adds itself to the nodes, if it is an event, and else only marks them.
  lemma HandleShape(c: Cache, r: Record, k: nat, cfg: Config)
    ensures var d, shift := Handle(c, r, k, cfg).cache, if IsEvent(r) then 1 else 0;
      && d.cached == c.cached + shift && |d.nodes| == |c.nodes| + shift
      && (IsEvent(r) ==> d.nodes[0] == Node(r.rtype, k, false, 0, r.eventId % 0x1_0000, r.eventSecond))
      && forall i :: 0 <= i < |c.nodes| ==> SameEvent(d.nodes[i + shift], c.nodes[i])
  {
    hide Flushed, PacketEffect, SameEvent;
    FlushMarks(c);
    PacketMarks(c, r.Id(), r.eventSecond, k, cfg);
    if IsEvent(r) {
      var d := Handle(c, r, k, cfg).cache;
      assert d.nodes[1..] == Flushed(c).nodes;
      assert forall i :: 0 <= i < |c.nodes| ==> d.nodes[i + 1] == d.nodes[1..][i];
    }
  }

  lemma HandleHolds(c: Cache, recs: seq<Record>, n: nat, cfg: Config)
    requires 0 < n <= |recs| && Holds(c, recs, n - 1)
    ensures Holds(Handle(c, recs[n - 1], n - 1, cfg).cache, recs, n)
  {
    hide Handle;
    var r := recs[n - 1];
    var d, shift := Handle(c, r, n - 1, cfg).cache, if IsEvent(r) then 1 else 0;
    HandleShape(c, r, n - 1, cfg);
    forall i | 0 <= i < |d.nodes|
      ensures NodeHolds(d.nodes[i], recs, n)
    {
      if i >= shift {
        assert NodeHolds(c.nodes[i - shift], recs, n - 1) && SameEvent(d.nodes[i - shift + shift], c.nodes[i - shift]);
      }
    }
    forall i, j | 0 <= i < j < |d.nodes|
      ensures d.nodes[j].event < d.nodes[i].event
    {
      assert SameEvent(d.nodes[j - shift + shift], c.nodes[j - shift]) && NodeHolds(c.nodes[j - shift], recs, n - 1);
      if i >= shift {
        assert SameEvent(d.nodes[i - shift + shift], c.nodes[i - shift]);
      }
    }
  }

  lemma CleanHolds(c: Cache, limit: nat, recs: seq<Record>, n: nat)
    requires n <= |recs| && Holds(c, recs, n)
    ensures Holds(Clean(c, limit), recs, n)
  {
    var i, d := Candidate(c.nodes), Clean(c, limit);
    assert d == c || d.nodes == []
      || forall k :: 0 <= k < |d.nodes| ==> d.nodes[k] == c.nodes[if k < i then k else k + 1];
  }

  lemma {:induction false} CacheHolds(recs: seq<Record>, n: nat, cfg: Config)
    requires n <= |recs|
    ensures Holds(CacheAfter(recs, n, cfg), recs, n)
  {
    hide Holds, Handle, Clean;
    if n > 0 {
      CacheHolds(recs, n - 1, cfg);
      HandleHolds(CacheAfter(recs, n - 1, cfg), recs, n, cfg);
      CleanHolds(Handled(recs, n - 1, cfg), cfg.limit, recs, n);
    } else {
      NothingHolds(recs);
    }
  }

  lemma NothingHolds(recs: seq<Record>)
    ensures Holds(EMPTY, recs, 0)
  {
  }

  /** The newest cached event that a packet belongs to. */
  ghost predicate Correlates(c: Cache, recs: seq<Record>, k: nat, e: nat)
    requires k < |recs|
  {
    && Cached(c, e) && e < |recs| && Belongs(recs[k], recs[e])
    && forall e': nat :: Cached(c, e') && e' < |recs| && Belongs(recs[k], recs[e']) ==> e' <= e
  }

  // ---- What one record fires ----

  /** The alert of an event that waits for its first delivery, with the type of its record. */
  predicate IsAlert(c: Cache, recs: seq<Record>, outs: seq<Output>) {
    if HeadUnused(c) then
      c.nodes[0].event < |recs| && outs == [Alert(c.nodes[0].event, recs[c.nodes[0].event].rtype)]
    else outs == []
  }

  /** What record k sends to the plugins, in order. A packet goes with the newest cached event that it belongs
      to, unless that has been used and events are not repeated. Without such an event it goes alone,
      behind the alert of an event that waits. So do events and unrecognised records, but with
      nothing of their own. Extra data sends nothing. */
  ghost predicate Fires(c: Cache, recs: seq<Record>, k: nat, cfg: Config, outs: seq<Output>)
    requires k < |recs|
  {
    if IsPacket(recs[k]) then
      && (forall e: nat :: Correlates(c, recs, k, e) ==> SendsWith(c, recs, k, cfg, e, outs))
      && ((forall e: nat :: !Correlates(c, recs, k, e)) ==>
            |outs| > 0 && IsAlert(c, recs, outs[..|outs| - 1]) && outs[|outs| - 1] == Log(k))
    else if IsExtraData(recs[k]) then outs == []
    else IsAlert(c, recs, outs)
  }

  predicate SendsWith(c: Cache, recs: seq<Record>, k: nat, cfg: Config, e: nat, outs: seq<Output>) {
    if UsedIn(c, e) && !cfg.eachPacket then outs == [] else e < |recs| && outs == [Special(k, e, recs[e].rtype)]
  }

  // The node that a packet finds is its newest event, if it has one.
  lemma FindIsNewest(c: Cache, recs: seq<Record>, k: nat)
    requires k < |recs| && Holds(c, recs, k)
    ensures var i := Find(c.nodes, recs[k].Id(), recs[k].eventSecond);
      if i == |c.nodes| then forall e: nat :: !Correlates(c, recs, k, e)
      else forall e: nat :: Correlates(c, recs, k, e) <==> e == c.nodes[i].event
  {
    var i := Find(c.nodes, recs[k].Id(), recs[k].eventSecond);
    forall e: nat | Cached(c, e) && e < |recs| && Belongs(recs[k], recs[e])
      ensures i < |c.nodes| && e <= c.nodes[i].event
    {
      var j :| 0 <= j < |c.nodes| && c.nodes[j].event == e;
      assert NodeHolds(c.nodes[j], recs, k);
    }
    if i < |c.nodes| {
      var e := c.nodes[i].event;
      assert NodeHolds(c.nodes[i], recs, k) && Cached(c, e) && Belongs(recs[k], recs[e]);
    }
  }

  lemma UsedIsNode(c: Cache, recs: seq<Record>, n: nat, i: nat)
    requires n <= |recs| && Holds(c, recs, n) && i < |c.nodes|
    ensures UsedIn(c, c.nodes[i].event) <==> c.nodes[i].used
  {
    if UsedIn(c, c.nodes[i].event) {
      var j :| 0 <= j < |c.nodes| && c.nodes[j].event == c.nodes[i].event && c.nodes[j].used;
      assert j == i;
    }
  }

  lemma RecordFires(recs: seq<Record>, k: nat, cfg: Config) returns (outs: seq<Output>)
    requires k < |recs|
    ensures OutputsAfter(recs, k + 1, cfg) == OutputsAfter(recs, k, cfg) + outs
    ensures Fires(CacheAfter(recs, k, cfg), recs, k, cfg, outs)
  {
    hide Clean, Holds, Fires, Handle;
    outs := Step(CacheAfter(recs, k, cfg), recs[k], k, cfg).outputs;
    CacheHolds(recs, k, cfg);
    HandleFires(CacheAfter(recs, k, cfg), recs, k, cfg);
  }

  lemma HandleFires(c: Cache, recs: seq<Record>, k: nat, cfg: Config)
    requires k < |recs| && Holds(c, recs, k)
    ensures Fires(c, recs, k, cfg, Handle(c, recs[k], k, cfg).outputs)
  {
    hide Holds, Correlates, SendsWith, Find;
    HeadHolds(c, recs, k);
    if IsPacket(recs[k]) {
      PacketFires(c, recs, k, cfg);
      assert (AlertHead(c) + [Log(k)])[..|AlertHead(c)|] == AlertHead(c);
    }
  }

  lemma HeadHolds(c: Cache, recs: seq<Record>, n: nat)
    requires n <= |recs| && Holds(c, recs, n)
    ensures IsAlert(c, recs, AlertHead(c))
  {
    if HeadUnused(c) {
      assert NodeHolds(c.nodes[0], recs, n);
    }
  }

  lemma PacketFires(c: Cache, recs: seq<Record>, k: nat, cfg: Config)
    requires k < |recs| && Holds(c, recs, k) && IsPacket(recs[k])
    ensures var outs := Handle(c, recs[k], k, cfg).outputs;
      && (forall e: nat :: Correlates(c, recs, k, e) ==> SendsWith(c, recs, k, cfg, e, outs))
      && ((forall e: nat :: !Correlates(c, recs, k, e)) ==> outs == AlertHead(c) + [Log(k)])
  {
    hide Correlates, UsedIn;
    FindIsNewest(c, recs, k);
    var i := Find(c.nodes, recs[k].Id(), recs[k].eventSecond);
    if i < |c.nodes| {
      UsedIsNode(c, recs, k, i);
      assert NodeHolds(c.nodes[i], recs, k);
      assert Correlates(c, recs, k, c.nodes[i].event);
    }
  }

  // ---- Every packet of a file ----

  predicate HasPacket(o: Output, k: nat) { !o.Alert? && o.packet == k }

  /** The outputs that carry packet k. */
  function PacketOutputs(outs: seq<Output>, k: nat): seq<Output> {
    if outs == [] then []
    else PacketOutputs(outs[..|outs| - 1], k) + if HasPacket(outs[|outs| - 1], k) then [outs[|outs| - 1]] else []
  }

  lemma {:induction false} PacketOutputsConcat(a: seq<Output>, b: seq<Output>, k: nat)
    ensures PacketOutputs(a + b, k) == PacketOutputs(a, k) + PacketOutputs(b, k)
  {
    if b == [] {
      assert a + b == a;
    } else {
      PacketOutputsConcat(a, b[..|b| - 1], k);
      assert (a + b)[..|a + b| - 1] == a + b[..|b| - 1];
    }
  }

  /** How packet k must reach the plugins: once, with its newest cached event, or alone; or not at all, if that
      event has been used and events are not repeated. */
  ghost predicate Sent(recs: seq<Record>, k: nat, cfg: Config, outs: seq<Output>)
    requires k < |recs|
  {
    var c := CacheAfter(recs, k, cfg);
    && (forall e: nat :: Correlates(c, recs, k, e) ==> SendsWith(c, recs, k, cfg, e, outs))
    && ((forall e: nat :: !Correlates(c, recs, k, e)) ==> outs == [Log(k)])
  }

  // One record sends no packet but its own.
  lemma FiresOnly(c: Cache, recs: seq<Record>, k: nat, cfg: Config, outs: seq<Output>, j: nat)
    requires k < |recs| && Fires(c, recs, k, cfg, outs)
    ensures j != k || !IsPacket(recs[k]) ==> PacketOutputs(outs, j) == []
    ensures IsPacket(recs[k]) && c == CacheAfter(recs, k, cfg) ==> Sent(recs, k, cfg, PacketOutputs(outs, k))
  {
    hide Correlates, UsedIn;
    PacketOutputsFew(outs, j);
    PacketOutputsFew(outs, k);
  }

  lemma PacketOutputsFew(outs: seq<Output>, k: nat)
    requires |outs| <= 2
    ensures |outs| == 0 ==> PacketOutputs(outs, k) == []
    ensures |outs| == 1 ==> PacketOutputs(outs, k) == if HasPacket(outs[0], k) then [outs[0]] else []
    ensures |outs| == 2 && outs[0].Alert? ==> PacketOutputs(outs, k) == if HasPacket(outs[1], k) then [outs[1]] else []
  {
    if |outs| == 2 {
      assert outs[..1] == [outs[0]] && outs[..1][..0] == [];
    } else if |outs| == 1 {
      assert outs[..0] == [];
    }
  }

  // ---- The order of the outputs ----

  /** Packets go out in the order of their records. */
  ghost predicate InOrder(outs: seq<Output>, n: nat) {
    && (forall i :: 0 <= i < |outs| && !outs[i].Alert? ==> outs[i].packet < n)
    && (forall i, j :: 0 <= i < j < |outs| && !outs[i].Alert? && !outs[j].Alert? ==> outs[i].packet < outs[j].packet)
  }

  lemma {:induction false} PacketsInOrder(recs: seq<Record>, n: nat, cfg: Config)
    requires n <= |recs|
    ensures InOrder(OutputsAfter(recs, n, cfg), n)
  {
    hide Fires, Step, CacheAfter;
    if n > 0 {
      PacketsInOrder(recs, n - 1, cfg);
      var outs := RecordFires(recs, n - 1, cfg);
      FiresOwn(CacheAfter(recs, n - 1, cfg), recs, n - 1, cfg, outs);
    }
  }

  lemma FiresOwn(c: Cache, recs: seq<Record>, k: nat, cfg: Config, outs: seq<Output>)
    requires k < |recs| && Fires(c, recs, k, cfg, outs)
    ensures forall i :: 0 <= i < |outs| && !outs[i].Alert? ==> outs[i].packet == k && i == |outs| - 1
  {
    hide Correlates, UsedIn;
    if exists e: nat :: Correlates(c, recs, k, e) {
      var e: nat :| Correlates(c, recs, k, e);
      assert IsPacket(recs[k]) ==> SendsWith(c, recs, k, cfg, e, outs);
    }
  }

  /** Of the first n records of a file every packet has been sent as it must be, and nothing else as a packet. */
  lemma {:induction false} PacketLaw(recs: seq<Record>, n: nat, cfg: Config, k: nat)
    requires n <= |recs|
    ensures if k < n && IsPacket(recs[k]) then Sent(recs, k, cfg, PacketOutputs(OutputsAfter(recs, n, cfg), k))
            else PacketOutputs(OutputsAfter(recs, n, cfg), k) == []
  {
    hide Sent, Fires, Step, CacheAfter;
    if n > 0 {
      PacketLaw(recs, n - 1, cfg, k);
      var outs := RecordFires(recs, n - 1, cfg);
      FiresOnly(CacheAfter(recs, n - 1, cfg), recs, n - 1, cfg, outs, k);
      PacketOutputsConcat(OutputsAfter(recs, n - 1, cfg), outs, k);
      var before, own := PacketOutputs(OutputsAfter(recs, n - 1, cfg), k), PacketOutputs(outs, k);
      assert k == n - 1 ==> before + own == own;
      assert k != n - 1 ==> before + own == before;
    }
  }

  // ---- What stays cached ----

  function EventsIn(recs: seq<Record>, n: nat): nat
    requires n <= |recs|
  {
    if n == 0 then 0 else EventsIn(recs, n - 1) + if IsEvent(recs[n - 1]) then 1 else 0
  }

  // Before any purge a record changes the cached events by itself only.
  lemma HandleCaches(c: Cache, r: Record, k: nat, cfg: Config)
    ensures var d := Handle(c, r, k, cfg).cache;
      && d.cached == c.cached + (if IsEvent(r) then 1 else 0)
      && forall e: nat :: Cached(d, e) <==> Cached(c, e) || (IsEvent(r) && e == k)
  {
    hide Handle;
    var d, shift := Handle(c, r, k, cfg).cache, if IsEvent(r) then 1 else 0;
    HandleShape(c, r, k, cfg);
    forall e: nat
      ensures Cached(d, e) <==> Cached(c, e) || (IsEvent(r) && e == k)
    {
      if Cached(c, e) {
        var i :| 0 <= i < |c.nodes| && c.nodes[i].event == e;
        assert SameEvent(d.nodes[i + shift], c.nodes[i]);
      }
      if IsEvent(r) && e == k {
        assert d.nodes[0].event == e;
      }
      if Cached(d, e) {
        var i :| 0 <= i < |d.nodes| && d.nodes[i].event == e;
        if i >= shift {
          assert SameEvent(d.nodes[i - shift + shift], c.nodes[i - shift]);
        }
      }
    }
  }

  /** As long as there have been no more events than the limit, all of them are cached. */
  lemma {:induction false} NothingPurged(recs: seq<Record>, n: nat, cfg: Config)
    requires n <= |recs| && EventsIn(recs, n) <= cfg.limit
    ensures CacheAfter(recs, n, cfg).cached == EventsIn(recs, n)
    ensures forall e: nat :: Cached(CacheAfter(recs, n, cfg), e) <==> e < n && IsEvent(recs[e])
  {
    hide Handle, Cached;
    if n > 0 {
      NothingPurged(recs, n - 1, cfg);
      HandleCaches(CacheAfter(recs, n - 1, cfg), recs[n - 1], n - 1, cfg);
    } else {
      NothingCached();
    }
  }

  lemma NothingCached()
    ensures forall e: nat :: !Cached(EMPTY, e)
  {
  }

  /** A purge happens exactly when the count is over the limit and some event can be purged: one that is
      used and has had a packet. It takes the oldest of these, and with the newest of all the whole list. */
  lemma CleanLaw(c: Cache, limit: nat)
    ensures var d := Clean(c, limit);
      && (d != c <==> c.cached > limit && exists i :: 0 <= i < |c.nodes| && Purgeable(c.nodes[i]))
      && (d != c ==>
            && d.cached == c.cached - 1
            && exists i :: 0 <= i < |c.nodes| && Oldest(c, i)
                           && d.nodes == if i == 0 then [] else c.nodes[..i] + c.nodes[i + 1..])
  {
    if exists i :: 0 <= i < |c.nodes| && Purgeable(c.nodes[i]) {
      assert Candidate(c.nodes) < |c.nodes| && Oldest(c, Candidate(c.nodes));
    }
  }

  predicate Oldest(c: Cache, i: nat)
    requires i < |c.nodes|
  {
    Purgeable(c.nodes[i]) && forall j :: i < j < |c.nodes| ==> !Purgeable(c.nodes[j])
  }

  /** The count stays within the limit, but for events that cannot be purged. */
  lemma {:induction false} CountIsBounded(recs: seq<Record>, n: nat, cfg: Config)
    requires n <= |recs|
    ensures var c := CacheAfter(recs, n, cfg);
            c.cached <= cfg.limit || NonePurgeable(c)
  {
    hide Clean, Handle, NonePurgeable, OnePurgeable;
    if n > 0 {
      var c, d := CacheAfter(recs, n - 1, cfg), Handled(recs, n - 1, cfg);
      CountIsBounded(recs, n - 1, cfg);
      HandleCaches(c, recs[n - 1], n - 1, cfg);
      CleanBounds(d, cfg.limit);
      if NonePurgeable(c) {
        HandlePurgeable(c, recs[n - 1], n - 1, cfg);
      }
    }
  }

  predicate NonePurgeable(c: Cache) { forall i :: 0 <= i < |c.nodes| ==> !Purgeable(c.nodes[i]) }

  predicate OnePurgeable(c: Cache) {
    forall i, j :: 0 <= i < j < |c.nodes| ==> !Purgeable(c.nodes[i]) || !Purgeable(c.nodes[j])
  }

  lemma CleanBounds(c: Cache, limit: nat)
    ensures var d := Clean(c, limit);
      && (c.cached <= limit + 1 ==> d.cached <= limit || NonePurgeable(d))
      && (OnePurgeable(c) ==> d.cached <= limit || NonePurgeable(d))
  {
    var i, d := Candidate(c.nodes), Clean(c, limit);
    if d != c && i > 0 {
      assert forall k :: 0 <= k < |d.nodes| ==> d.nodes[k] == c.nodes[if k < i then k else k + 1];
    }
  }

  // A record makes at most one event purgeable, and no event record does.
  lemma HandlePurgeable(c: Cache, r: Record, k: nat, cfg: Config)
    requires NonePurgeable(c)
    ensures OnePurgeable(Handle(c, r, k, cfg).cache)
  {
  }

  // ---- How often an event has been used ----

  /** The packets among the first n records that were correlated with event e. */
  ghost function Uses(recs: seq<Record>, n: nat, cfg: Config, e: nat): nat
    requires n <= |recs|
  {
    if n == 0 then 0
    else
      Uses(recs, n - 1, cfg, e)
      + if IsPacket(recs[n - 1]) && Correlates(CacheAfter(recs, n - 1, cfg), recs, n - 1, e) then 1 else 0
  }

  /** Every cached event knows how many packets it has had. */
  ghost predicate Counted(c: Cache, recs: seq<Record>, n: nat, cfg: Config)
    requires n <= |recs|
  {
    forall i :: 0 <= i < |c.nodes| ==> c.nodes[i].timeUsed == Uses(recs, n, cfg, c.nodes[i].event)
  }

  lemma {:induction false} UsesAreCounted(recs: seq<Record>, n: nat, cfg: Config)
    requires n <= |recs|
    ensures Counted(CacheAfter(recs, n, cfg), recs, n, cfg)
  {
    hide Clean, Handle, Counted, Correlates;
    if n > 0 {
      UsesAreCounted(recs, n - 1, cfg);
      HandleCounted(recs, n, cfg);
      CleanCounted(Handled(recs, n - 1, cfg), recs, n, cfg);
    } else {
      NothingCounted(recs, cfg);
    }
  }

  lemma NothingCounted(recs: seq<Record>, cfg: Config)
    ensures Counted(EMPTY, recs, 0, cfg)
  {
  }

  lemma CleanCounted(c: Cache, recs: seq<Record>, n: nat, cfg: Config)
    requires n <= |recs| && Counted(c, recs, n, cfg)
    ensures Counted(Clean(c, cfg.limit), recs, n, cfg)
  {
    hide Uses;
    var i, d := Candidate(c.nodes), Clean(c, cfg.limit);
    assert d == c || d.nodes == []
      || forall k :: 0 <= k < |d.nodes| ==> d.nodes[k] == c.nodes[if k < i then k else k + 1];
  }

  lemma {:induction false} UsesNone(recs: seq<Record>, n: nat, cfg: Config, e: nat)
    requires n <= e < |recs|
    ensures Uses(recs, n, cfg, e) == 0
  {
    hide Correlates;
    if n > 0 {
      UsesNone(recs, n - 1, cfg, e);
      CacheHolds(recs, n - 1, cfg);
      CorrelatesBefore(CacheAfter(recs, n - 1, cfg), recs, n - 1, e);
    }
  }

  lemma CorrelatesBefore(c: Cache, recs: seq<Record>, k: nat, e: nat)
    requires k < |recs| && Holds(c, recs, k)
    ensures Correlates(c, recs, k, e) ==> e < k
  {
    if Correlates(c, recs, k, e) {
      var i :| 0 <= i < |c.nodes| && c.nodes[i].event == e;
      assert NodeHolds(c.nodes[i], recs, k);
    }
  }

  lemma HandleCounted(recs: seq<Record>, n: nat, cfg: Config)
    requires 0 < n <= |recs| && Counted(CacheAfter(recs, n - 1, cfg), recs, n - 1, cfg)
    ensures Counted(Handled(recs, n - 1, cfg), recs, n, cfg)
  {
    hide Correlates, CacheAfter;
    var c, r := CacheAfter(recs, n - 1, cfg), recs[n - 1];
    CacheHolds(recs, n - 1, cfg);
    UsesNone(recs, n - 1, cfg, n - 1);
    if IsPacket(r) {
      FindIsNewest(c, recs, n - 1);
      PacketCounted(c, recs, n, cfg);
    }
  }

  lemma PacketCounted(c: Cache, recs: seq<Record>, n: nat, cfg: Config)
    requires 0 < n <= |recs| && c == CacheAfter(recs, n - 1, cfg) && Counted(c, recs, n - 1, cfg)
    requires Holds(c, recs, n - 1) && IsPacket(recs[n - 1])
    ensures Counted(Handle(c, recs[n - 1], n - 1, cfg).cache, recs, n, cfg)
  {
    hide Correlates, CacheAfter;
    var r := recs[n - 1];
    FindIsNewest(c, recs, n - 1);
    var i, d := Find(c.nodes, r.Id(), r.eventSecond), Handle(c, r, n - 1, cfg).cache;
    forall j | 0 <= j < |d.nodes|
      ensures d.nodes[j].timeUsed == Uses(recs, n, cfg, d.nodes[j].event)
    {
      assert d.nodes[j].event == c.nodes[j].event;
      assert i < |c.nodes| && j != i ==> c.nodes[j].event != c.nodes[i].event;
    }
  }
}
