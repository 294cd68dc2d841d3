/** How often each event of a spool file reaches the output plugins. */
module EventDelivery {
  import opened EventCache

  /** The cache, and the outputs fired, after the first n records of a file. */
  function CacheAfter(recs: seq<Record>, n: nat, cfg: Config): Cache
    requires n <= |recs|
  {
    if n == 0 then EMPTY else Step(CacheAfter(recs, n - 1, cfg), recs[n - 1], n - 1, cfg).cache
  }

  function OutputsAfter(recs: seq<Record>, n: nat, cfg: Config): seq<Output>
    requires n <= |recs|
  {
    if n == 0 then []
    else OutputsAfter(recs, n - 1, cfg) + Step(CacheAfter(recs, n - 1, cfg), recs[n - 1], n - 1, cfg).outputs
  }

  function Deliveries(outs: seq<Output>, e: nat): nat {
    if outs == [] then 0 else Deliveries(outs[..|outs| - 1], e) + if outs[|outs| - 1].Carries(e) then 1 else 0
  }

  /** Only the newest cached event can still be waiting for its delivery. */
  predicate OnlyHeadUnused(c: Cache) {
    && |c.nodes| <= c.cached
    && forall i :: 0 < i < |c.nodes| ==> c.nodes[i].used
  }

  predicate Waiting(c: Cache, e: nat) { HeadUnused(c) && c.nodes[0].event == e }

  lemma CleanKeeps(c: Cache, limit: nat)
    requires OnlyHeadUnused(c)
    ensures OnlyHeadUnused(Clean(c, limit))
    ensures HeadUnused(Clean(c, limit)) == HeadUnused(c)
    ensures HeadUnused(c) ==> Clean(c, limit).nodes[0] == c.nodes[0]
    ensures forall x :: x in c.nodes && x !in Clean(c, limit).nodes ==> x.used
    ensures forall x :: x in Clean(c, limit).nodes ==> x in c.nodes
  {
  }

  /** No record, at any setting and with or without firing, lets an event other than the newest
      wait; and a purge drops only delivered events, even when it empties the list. */
  lemma {:induction false} NoPurgeOfUndelivered(recs: seq<Record>, n: nat, cfg: Config)
    requires n <= |recs|
    ensures OnlyHeadUnused(CacheAfter(recs, n, cfg))
    ensures n > 0 ==>
      var before := Handle(CacheAfter(recs, n - 1, cfg), recs[n - 1], n - 1, cfg).cache;
      forall x :: x in before.nodes && x !in CacheAfter(recs, n, cfg).nodes ==> x.used
  {
    if n > 0 {
      NoPurgeOfUndelivered(recs, n - 1, cfg);
      HandleKeeps(CacheAfter(recs, n - 1, cfg), recs[n - 1], n - 1, cfg);
      CleanKeeps(Handle(CacheAfter(recs, n - 1, cfg), recs[n - 1], n - 1, cfg).cache, cfg.limit);
    }
  }

  lemma HandleKeeps(c: Cache, r: Record, k: nat, cfg: Config)
    requires OnlyHeadUnused(c)
    ensures OnlyHeadUnused(Handle(c, r, k, cfg).cache)
  {
  }

  /** A delivery on top of the one an event is due: an unrecognised record while the event waits
      (it is fired and left unused), or one more packet of a used event when each packet repeats it. */
  predicate Repeats(c: Cache, r: Record, cfg: Config, e: nat) {
    match r.Kind()
    case PacketRecord =>
      var i := Find(c.nodes, r.Id(), r.eventSecond);
      cfg.eachPacket && i < |c.nodes| && c.nodes[i].used && c.nodes[i].event == e
    case Unrecognised => Waiting(c, e)
    case _ => false
  }

  function RepeatsAfter(recs: seq<Record>, n: nat, cfg: Config, e: nat): nat
    requires n <= |recs|
  {
    if n == 0 then 0
    else RepeatsAfter(recs, n - 1, cfg, e) + if Repeats(CacheAfter(recs, n - 1, cfg), recs[n - 1], cfg, e) then 1 else 0
  }

  lemma {:induction false} DeliveriesConcat(a: seq<Output>, b: seq<Output>, e: nat)
    ensures Deliveries(a + b, e) == Deliveries(a, e) + Deliveries(b, e)
  {
    if b == [] {
      assert a + b == a;
    } else {
      DeliveriesConcat(a, b[..|b| - 1], e);
      assert (a + b)[..|a + b| - 1] == a + b[..|b| - 1];
    }
  }

  /** Every cached event comes from an earlier event record. */
  ghost predicate FromBefore(c: Cache, recs: seq<Record>, n: nat)
    requires n <= |recs|
  {
    forall x :: x in c.nodes ==> x.event < n && recs[x.event].Kind() == EventRecord
  }

  lemma {:induction false} CachedFromBefore(recs: seq<Record>, n: nat, cfg: Config)
    requires n <= |recs|
    ensures FromBefore(CacheAfter(recs, n, cfg), recs, n)
  {
    hide Clean;
    if n > 0 {
      var c, r := CacheAfter(recs, n - 1, cfg), recs[n - 1];
      CachedFromBefore(recs, n - 1, cfg);
      HandleFromBefore(c, recs, n, cfg);
      NoPurgeOfUndelivered(recs, n - 1, cfg);
      HandleKeeps(c, r, n - 1, cfg);
      CleanKeeps(Handle(c, r, n - 1, cfg).cache, cfg.limit);
    }
  }

  lemma HandleFromBefore(c: Cache, recs: seq<Record>, n: nat, cfg: Config)
    requires 0 < n <= |recs| && FromBefore(c, recs, n - 1)
    ensures FromBefore(Handle(c, recs[n - 1], n - 1, cfg).cache, recs, n)
  {
    var r := recs[n - 1];
    var h := Handle(c, r, n - 1, cfg).cache;
    forall x | x in h.nodes
      ensures x.event < n && recs[x.event].Kind() == EventRecord
    {
      if r.Kind() == EventRecord && x == h.nodes[0] {
      } else {
        assert exists y :: y in c.nodes && y.event == x.event by {
          var j :| 0 <= j < |h.nodes| && h.nodes[j] == x;
          var y := c.nodes[if r.Kind() == EventRecord then j - 1 else j];
          assert y.event == x.event;
        }
      }
    }
  }

  // One record before the purge: a waiting event that stops waiting is delivered, and repeats
  // come on top.
  lemma HandleDelivers(c: Cache, r: Record, k: nat, cfg: Config, e: nat)
    requires OnlyHeadUnused(c) && forall x :: x in c.nodes ==> x.event < k
    ensures var h := Handle(c, r, k, cfg);
      && Deliveries(h.outputs, e) == (if Waiting(c, e) && !Waiting(h.cache, e) then 1 else 0)
                                     + (if Repeats(c, r, cfg, e) then 1 else 0)
      && (Waiting(h.cache, e) ==> Waiting(c, e) || (r.Kind() == EventRecord && e == k))
      && (r.Kind() == EventRecord && e == k ==> Waiting(h.cache, e))
  {
    hide Deliveries;
    assert Deliveries([], e) == 0 by { DeliveriesNone(e); }
    if HeadUnused(c) {
      DeliveriesOne(Alert(c.nodes[0].event, c.nodes[0].rtype), e);
    }
    if r.Kind() == PacketRecord {
      PacketDelivers(c, r, k, cfg, e);
    }
  }

  lemma PacketDelivers(c: Cache, r: Record, k: nat, cfg: Config, e: nat)
    requires OnlyHeadUnused(c) && r.Kind() == PacketRecord
    ensures var h := Handle(c, r, k, cfg);
      && Deliveries(h.outputs, e) == (if Waiting(c, e) && !Waiting(h.cache, e) then 1 else 0)
                                     + (if Repeats(c, r, cfg, e) then 1 else 0)
      && (Waiting(h.cache, e) ==> Waiting(c, e))
  {
    hide Deliveries;
    assert Deliveries([], e) == 0 by { DeliveriesNone(e); }
    var i := Find(c.nodes, r.Id(), r.eventSecond);
    if i < |c.nodes| {
      DeliveriesOne(Special(k, c.nodes[i].event, c.nodes[i].rtype), e);
    } else {
      DeliveriesConcat(AlertHead(c), [Log(k)], e);
      DeliveriesOne(Log(k), e);
      if HeadUnused(c) {
        DeliveriesOne(Alert(c.nodes[0].event, c.nodes[0].rtype), e);
      }
    }
  }

  lemma StepDelivers(c: Cache, r: Record, k: nat, cfg: Config, e: nat)
    requires OnlyHeadUnused(c) && forall x :: x in c.nodes ==> x.event < k
    ensures var s := Step(c, r, k, cfg);
      && Deliveries(s.outputs, e) == (if Waiting(c, e) && !Waiting(s.cache, e) then 1 else 0)
                                     + (if Repeats(c, r, cfg, e) then 1 else 0)
      && (Waiting(s.cache, e) ==> Waiting(c, e) || (r.Kind() == EventRecord && e == k))
      && (r.Kind() == EventRecord && e == k ==> Waiting(s.cache, e))
      && (r.Kind() == Unrecognised && Waiting(c, e) ==> Waiting(s.cache, e))
  {
    hide Clean, Deliveries, Repeats;
    HandleDelivers(c, r, k, cfg, e);
    HandleKeeps(c, r, k, cfg);
    CleanKeeps(Handle(c, r, k, cfg).cache, cfg.limit);
  }

  lemma DeliveriesNone(e: nat)
    ensures Deliveries([], e) == 0
  {
  }

  lemma DeliveriesOne(o: Output, e: nat)
    ensures Deliveries([o], e) == if o.Carries(e) then 1 else 0
  {
    assert [o][..0] == [];
    assert Deliveries([], e) == 0;
  }

  lemma WaitingIsEvent(recs: seq<Record>, n: nat, cfg: Config, e: nat)
    requires n <= |recs| && Waiting(CacheAfter(recs, n, cfg), e)
    ensures e < n && recs[e].Kind() == EventRecord
  {
    CachedFromBefore(recs, n, cfg);
    assert CacheAfter(recs, n, cfg).nodes[0] in CacheAfter(recs, n, cfg).nodes;
  }

  lemma NothingYet(e: nat, cfg: Config)
    ensures Deliveries([], e) == 0 && !Waiting(EMPTY, e)
  {
  }

  /** The delivery law, at any settings: an event read so far has been delivered once, plus its
      repeats, unless it is the one waiting, which has only its repeats; nothing else is. */
  lemma {:induction false} DeliveryLaw(recs: seq<Record>, n: nat, cfg: Config, e: nat)
    requires n <= |recs|
    ensures var due := if e < n && recs[e].Kind() == EventRecord && !Waiting(CacheAfter(recs, n, cfg), e) then 1 else 0;
            Deliveries(OutputsAfter(recs, n, cfg), e) == due + RepeatsAfter(recs, n, cfg, e)
  {
    hide Step, Repeats, Waiting;
    NothingYet(e, cfg);
    if n > 0 {
      var c, r := CacheAfter(recs, n - 1, cfg), recs[n - 1];
      DeliveryLaw(recs, n - 1, cfg, e);
      NoPurgeOfUndelivered(recs, n - 1, cfg);
      CachedFromBefore(recs, n - 1, cfg);
      assert Waiting(c, e) ==> e < n - 1 && recs[e].Kind() == EventRecord by {
        if Waiting(c, e) {
          WaitingIsEvent(recs, n - 1, cfg, e);
        }
      }
      StepDelivers(c, r, n - 1, cfg, e);
      DeliveriesConcat(OutputsAfter(recs, n - 1, cfg), Step(c, r, n - 1, cfg).outputs, e);
    }
  }

  /** Single delivery: without unrecognised records and with one alert per stream, every event
      reaches the plugins exactly once, except the newest one while it is still unused, which
      has not reached them at all. */
  lemma SingleDelivery(recs: seq<Record>, n: nat, cfg: Config, e: nat)
    requires n <= |recs| && !cfg.eachPacket
    requires forall i :: 0 <= i < n ==> recs[i].Kind() != Unrecognised
    requires e < n && recs[e].Kind() == EventRecord
    ensures Deliveries(OutputsAfter(recs, n, cfg), e) == if Waiting(CacheAfter(recs, n, cfg), e) then 0 else 1
  {
    DeliveryLaw(recs, n, cfg, e);
    NoRepeats(recs, n, cfg, e);
  }

  lemma {:induction false} NoRepeats(recs: seq<Record>, n: nat, cfg: Config, e: nat)
    requires n <= |recs| && !cfg.eachPacket
    requires forall i :: 0 <= i < n ==> recs[i].Kind() != Unrecognised
    ensures RepeatsAfter(recs, n, cfg, e) == 0
  {
    hide Step;
    if n > 0 {
      NoRepeats(recs, n - 1, cfg, e);
    }
  }

  /** An unrecognised record is what breaks it: right after an event, each one fires that event
      again and still leaves it waiting. */
  lemma UnrecognisedRepeats(recs: seq<Record>, cfg: Config)
    requires |recs| >= 3 && recs[0].Kind() == EventRecord
    requires recs[1].Kind() == recs[2].Kind() == Unrecognised
    ensures Deliveries(OutputsAfter(recs, 3, cfg), 0) == 2 && Waiting(CacheAfter(recs, 3, cfg), 0)
  {
    hide Step;
    for n := 0 to 3
      invariant n > 0 ==> Waiting(CacheAfter(recs, n, cfg), 0)
      invariant RepeatsAfter(recs, n, cfg, 0) == if n == 0 then 0 else n - 1
    {
      NoPurgeOfUndelivered(recs, n, cfg);
      CachedFromBefore(recs, n, cfg);
      StepDelivers(CacheAfter(recs, n, cfg), recs[n], n, cfg, 0);
    }
    DeliveryLaw(recs, 3, cfg, 0);
  }

  /** The count of cached events is only an upper bound: two events and a packet of the second,
      at a limit of one, leave an empty list and a count of one. */
  lemma CountDrifts(first: Record, second: Record, packet: Record, cfg: Config)
    requires cfg.limit == 1 && first.Kind() == second.Kind() == EventRecord && packet.Kind() == PacketRecord
    requires packet.Id() == second.Id() && packet.eventSecond == second.eventSecond
    ensures CacheAfter([first, second, packet], 3, cfg) == Cache([], 1)
  {
    var recs := [first, second, packet];
    var a := Node(first.rtype, 0, false, 0, first.Id(), first.eventSecond);
    var b := Node(second.rtype, 1, false, 0, second.Id(), second.eventSecond);
    assert CacheAfter(recs, 0, cfg) == EMPTY;
    assert CacheAfter(recs, 1, cfg) == Cache([a], 1);
    assert Step(Cache([a], 1), second, 1, cfg).cache == Cache([b, a.(used := true)], 2) by {
      assert Candidate([b, a.(used := true)]) == 2;
    }
    assert CacheAfter(recs, 2, cfg) == Cache([b, a.(used := true)], 2);
    var used := [b.(used := true, timeUsed := 1), a.(used := true)];
    assert Handle(Cache([b, a.(used := true)], 2), packet, 2, cfg).cache == Cache(used, 2);
    assert Candidate(used[1..]) == 1;
  }

  /** The head of a longer list, purged: the list is emptied, but only one event is counted off. */
  predicate DropsList(c: Cache, limit: nat) {
    c.cached > limit && |c.nodes| > 1 && Candidate(c.nodes) == 0
  }

  /** By how much the count exceeds the list grows exactly by the nodes lost with the head. */
  lemma CleanDrifts(c: Cache, limit: nat)
    ensures var d := Clean(c, limit);
            d.cached - |d.nodes| == c.cached - |c.nodes| + if DropsList(c, limit) then |c.nodes| - 1 else 0
  {
  }

  lemma HandleCounts(c: Cache, r: Record, k: nat, cfg: Config)
    ensures var d := Handle(c, r, k, cfg).cache; d.cached - |d.nodes| == c.cached - |c.nodes|
  {
  }

  function Handled(recs: seq<Record>, i: nat, cfg: Config): Cache
    requires i < |recs|
  {
    Handle(CacheAfter(recs, i, cfg), recs[i], i, cfg).cache
  }

  /** The count of cached events is the length of the list if and only if no purge so far has hit
      the head of a longer list. */
  lemma {:induction false} CountIsExact(recs: seq<Record>, n: nat, cfg: Config)
    requires n <= |recs|
    ensures |CacheAfter(recs, n, cfg).nodes| <= CacheAfter(recs, n, cfg).cached
    ensures CacheAfter(recs, n, cfg).cached == |CacheAfter(recs, n, cfg).nodes|
            <==> forall i :: 0 <= i < n ==> !DropsList(Handled(recs, i, cfg), cfg.limit)
  {
    hide Handle, Clean, DropsList;
    if n > 0 {
      CountIsExact(recs, n - 1, cfg);
      HandleCounts(CacheAfter(recs, n - 1, cfg), recs[n - 1], n - 1, cfg);
      CleanDrifts(Handled(recs, n - 1, cfg), cfg.limit);
      DropsSome(Handled(recs, n - 1, cfg), cfg.limit);
    }
  }

  lemma DropsSome(c: Cache, limit: nat)
    ensures DropsList(c, limit) ==> |c.nodes| > 1
  {
  }

  // ---- Events that wait ----

  /** The records that leave a waiting event waiting: extra data, unrecognised ones, and packets of
      an older event that is still cached. */
  predicate LeavesWaiting(c: Cache, r: Record) {
    match r.Kind()
    case PacketRecord => 0 < Find(c.nodes, r.Id(), r.eventSecond) < |c.nodes|
    case EventRecord => false
    case ExtraData => true
    case Unrecognised => true
  }

  /** One record: a waiting event goes on waiting exactly at such a record. */
  lemma StepWaits(c: Cache, r: Record, k: nat, cfg: Config, e: nat)
    requires OnlyHeadUnused(c) && Waiting(c, e) && e < k
    ensures Waiting(Step(c, r, k, cfg).cache, e) <==> LeavesWaiting(c, r)
  {
    hide Clean;
    HandleKeeps(c, r, k, cfg);
    CleanKeeps(Handle(c, r, k, cfg).cache, cfg.limit);
  }

  /** An event that no record since has claimed: neither its packet nor another event, nor a packet
      that belongs to no cached event. */
  predicate Unclaimed(recs: seq<Record>, e: nat, n: nat, cfg: Config)
    requires n <= |recs|
  {
    forall i :: e < i < n ==> LeavesWaiting(CacheAfter(recs, i, cfg), recs[i])
  }

  /** After n records an event is still waiting if and only if every record after it is one that
      leaves it waiting. */
  lemma {:induction false} WaitsWhileUnclaimed(recs: seq<Record>, n: nat, cfg: Config, e: nat)
    requires n <= |recs|
    ensures Waiting(CacheAfter(recs, n, cfg), e)
            <==> e < n && recs[e].Kind() == EventRecord && Unclaimed(recs, e, n, cfg)
  {
    hide Step, Waiting, LeavesWaiting;
    NothingYet(e, cfg);
    if n > 0 {
      var c, r := CacheAfter(recs, n - 1, cfg), recs[n - 1];
      WaitsWhileUnclaimed(recs, n - 1, cfg, e);
      NoPurgeOfUndelivered(recs, n - 1, cfg);
      CachedFromBefore(recs, n - 1, cfg);
      StepDelivers(c, r, n - 1, cfg, e);
      if Waiting(c, e) {
        StepWaits(c, r, n - 1, cfg, e);
      }
    }
  }
}
