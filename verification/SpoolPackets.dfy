/** Packets over whole runs of the spooler, and how far its bookmark can lag. */
module SpoolPackets {
  import opened EventCache
  import opened EventDelivery
  import opened PacketDelivery
  import opened SpoolRun

  // ---- Every packet, over whole runs ----

  /** The outputs of the file with this extension that carry packet k. */
  function FiredPacket(fs: seq<Fired>, ext: nat, k: nat): seq<Output> {
    if fs == [] then []
    else
      var f := fs[|fs| - 1];
      FiredPacket(fs[..|fs| - 1], ext, k) + if f.ext == ext && HasPacket(f.output, k) then [f.output] else []
  }

  lemma {:induction false} FiredPacketConcat(a: seq<Fired>, b: seq<Fired>, ext: nat, k: nat)
    ensures FiredPacket(a + b, ext, k) == FiredPacket(a, ext, k) + FiredPacket(b, ext, k)
  {
    if b == [] {
      assert a + b == a;
    } else {
      FiredPacketConcat(a, b[..|b| - 1], ext, k);
      assert (a + b)[..|a + b| - 1] == a + b[..|b| - 1];
    }
  }

  lemma {:induction false} FiredPacketTagged(tag: nat, outs: seq<Output>, ext: nat, k: nat)
    ensures FiredPacket(Tagged(tag, outs), ext, k) == if tag == ext then PacketOutputs(outs, k) else []
  {
    if outs != [] {
      var last := |outs| - 1;
      FiredPacketTagged(tag, outs[..last], ext, k);
      assert Tagged(tag, outs)[..last] == Tagged(tag, outs[..last]);
    }
  }

  lemma FiredPacketNone(ext: nat, k: nat)
    ensures FiredPacket([], ext, k) == []
  {
  }

  lemma {:induction false} FiredPacketWhole(files: seq<File>, a: nat, i: nat, j: nat, k: nat, cfg: Config)
    requires Ordered(files) && i <= |files| && j < |files|
    ensures FiredPacket(WholeLog(files, a, i, cfg), files[j].ext, k)
            == if a <= j < i then PacketOutputs(OutputsAfter(files[j].recs, |files[j].recs|, cfg), k) else []
  {
    hide FiredPacket, PacketOutputs, OutputsAfter, Tagged;
    FiredPacketNone(files[j].ext, k);
    if i > a {
      var f := files[i - 1];
      FiredPacketWhole(files, a, i - 1, j, k, cfg);
      FiredPacketConcat(WholeLog(files, a, i - 1, cfg), FileLog(f, |f.recs|, cfg), files[j].ext, k);
      FiredPacketTagged(f.ext, OutputsAfter(f.recs, |f.recs|, cfg), files[j].ext, k);
    }
  }

  lemma {:induction false} PacketOutputsFewer(a: seq<Fired>, b: seq<Fired>, ext: nat, k: nat)
    requires a <= b
    ensures FiredPacket(a, ext, k) <= FiredPacket(b, ext, k)
  {
    hide FiredPacket;
    FiredPacketConcat(a, b[|a|..], ext, k);
    assert b == a + b[|a|..];
  }

  /** Over all rotations and restarts, once the reader has caught up, every packet of every file from the first
      one on has been sent as its file says, and nothing else as a packet; at no time has more. */
  lemma PacketsSentOnce(run: seq<System>, t0: nat, cfg: Config, n: nat, j: nat, k: nat)
    requires IsRun(run, t0, cfg) && n < |run| && j < |run[n].files|
    ensures Inv(run[n], t0, cfg)
    ensures var s, d := run[n], Drain(run[n], t0, cfg);
      var f := s.files[j];
      && FiredPacket(s.emitted, f.ext, k) <= FiredPacket(d.emitted, f.ext, k)
      && if FirstFrom(s.files, t0, 0) <= j && k < |f.recs| && IsPacket(f.recs[k])
         then Sent(f.recs, k, cfg, FiredPacket(d.emitted, f.ext, k))
         else FiredPacket(d.emitted, f.ext, k) == []
  {
    hide Init, Next, Inv, ReaderOpen, ReaderClosed, Bookmarked, Drain, WholeLog, FiredPacket, PacketOutputs, Sent,
         OutputsAfter, CacheAfter, FirstFrom;
    var s := run[n];
    var f, a := s.files[j], FirstFrom(s.files, t0, 0);
    NoLoss(run, t0, cfg, n);
    EmittedIsPrefix(run, t0, cfg, n);
    InvIsSound(s, t0, cfg);
    SoundIsOrdered(s);
    PacketOutputsFewer(s.emitted, WholeLog(s.files, a, |s.files|, cfg), f.ext, k);
    FiredPacketWhole(s.files, a, |s.files|, j, k, cfg);
    PacketLaw(f.recs, |f.recs|, cfg, k);
  }

  lemma SoundIsOrdered(s: System)
    requires Sound(s)
    ensures Ordered(s.files)
  {
  }

  // ---- How far the bookmark lags ----

  predicate Recognised(r: Record) { IsPacket(r) || IsEvent(r) || IsExtraData(r) }

  /** The bookmark is in the open file, behind the records to be skipped or just processed, but for records
      that are not recognised. */
  predicate Close(s: System)
    requires s.reader.spool.Open? && s.reader.spool.file < |s.files|
  {
    var r, o, recs := s.reader, s.reader.spool, s.files[s.reader.spool.file].recs;
    && s.waldo.timestamp == s.files[o.file].ext && o.recordIdx <= |recs|
    && if r.recordStart > 0 then s.waldo.recordIdx == o.recordIdx + r.recordStart
       else
         && s.waldo.recordIdx <= o.recordIdx
         && forall k :: s.waldo.recordIdx <= k < o.recordIdx ==> !Recognised(recs[k])
  }

  predicate CloseOrClosed(s: System) {
    s.reader.spool.Open? ==> s.reader.spool.file < |s.files| && Close(s)
  }

  lemma IterateClose(s: System, t0: nat, cfg: Config)
    requires Inv(s, t0, cfg) && Sound(s) && CloseOrClosed(s)
    ensures CloseOrClosed(Iterate(s, cfg))
  {
    hide Bookmarked, Step, FirstFrom, CacheAfter, LogTo, WholeLog, Tagged;
    if s.reader.spool.Open? {
      var o := s.reader.spool;
      if o.recordIdx < |s.files[o.file].recs| {
        BookmarkMoves(o.cache, s.files[o.file].recs[o.recordIdx], o.recordIdx, cfg);
      }
    } else {
      OpensClose(s, t0, cfg);
    }
  }

  lemma BookmarkMoves(c: Cache, r: Record, k: nat, cfg: Config)
    ensures Recognised(r) ==> Step(c, r, k, cfg).bookmark
  {
  }

  lemma OpensClose(s: System, t0: nat, cfg: Config)
    requires Inv(s, t0, cfg) && Sound(s) && !s.reader.spool.Open?
    ensures CloseOrClosed(OpenNext(s))
  {
    hide CacheAfter, LogTo, WholeLog;
    var r, j := s.reader, FirstFrom(s.files, s.reader.timestamp, 0);
    if j < |s.files| {
      FirstIs(s.files, j);
    }
  }

  /** The writer adds to the last file only, so what has been read stays. */
  lemma GrownClose(s: System, s': System)
    requires CloseOrClosed(s) && Grown(s.files, s'.files) && s' == s.(files := s'.files)
    ensures CloseOrClosed(s')
  {
    if s.reader.spool.Open? {
      var i := s.reader.spool.file;
      assert s.files[i].ext == s'.files[i].ext && s.files[i].recs <= s'.files[i].recs;
    }
  }

  /** In every reachable state the bookmark stands directly behind the last record that was recognised and
      fired, so a restart goes over nothing again but unrecognised records. */
  lemma {:induction false} BookmarkIsClose(run: seq<System>, t0: nat, cfg: Config, n: nat)
    requires IsRun(run, t0, cfg) && n < |run|
    ensures CloseOrClosed(run[n])
  {
    hide Init, Inv, Iterate, Writes, CloseOrClosed, Grown;
    if n == 0 {
      StartsClosed(run[0], t0);
    } else {
      BookmarkIsClose(run, t0, cfg, n - 1);
      RunInv(run, t0, cfg, n - 1);
      var s, s' := run[n - 1], run[n];
      assert Next(s, s', cfg);
      if s' == Restart(s) {
        RestartsClosed(s);
      } else if Writes(s.files, s'.files) && s' == s.(files := s'.files) {
        InvIsSound(s, t0, cfg);
        WritesGrow(s.files, s'.files);
        GrownClose(s, s');
      } else {
        IterateClose(s, t0, cfg);
      }
    }
  }

  lemma StartsClosed(s: System, t0: nat)
    requires Init(s, t0)
    ensures CloseOrClosed(s)
  {
  }

  lemma RestartsClosed(s: System)
    ensures CloseOrClosed(Restart(s))
  {
  }
}
