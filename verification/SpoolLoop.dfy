/** The main loop of continuous processing, over its own mutable state, against the steps of SpoolRun. */
module SpoolLoop {
  import opened EventCache
  import opened SpoolRun

  class MainLoop {
    const invoked: nat         // the timestamp the loop was started with
    const cfg: Config
    var timestamp: nat
    var recordStart: nat
    var extension: nat
    var newFile: bool
    var spooler: Spooler?
    var file: nat              // the place in the directory of the open file
    var phase: Phase
    var waldo: Waldo
    var emitted: seq<Fired>

    ghost predicate Valid()
      reads this, spooler
    {
      spooler != null ==> spooler.cfg == cfg
    }

    ghost function State(files: seq<File>): System
      reads this, spooler
    {
      var open := if spooler == null then Closed else Open(file, phase, spooler.recordIdx, spooler.Contents());
      System(files, Reader(invoked, timestamp, recordStart, extension, newFile, open), waldo, emitted)
    }

    /** Start, or start again, from a bookmark. */
    constructor (w: Waldo, before: seq<Fired>, cfg: Config)
      ensures Valid() && spooler == null && this.cfg == cfg
      ensures forall files: seq<File> :: State(files) == System(files, Start(w), w, before)
    {
      invoked, timestamp, recordStart, extension, newFile := w.timestamp, w.timestamp, w.recordIdx, 0, false;
      this.cfg, spooler, file, phase, waldo, emitted := cfg, null, 0, Opened, w, before;
    }

    // Without an open file: find the next one and open it.
    method OpenPass(files: seq<File>)
      requires Valid() && Ordered(files) && spooler == null
      modifies this
      ensures Valid() && (spooler != null ==> fresh(spooler))
      ensures State(files) == OpenNext(old(State(files)))
    {
      hide FirstFrom, Step;
      var found := Next(files);
      if invoked != extension {
        recordStart := 0;
      }
      if found {
        spooler := new Spooler(cfg);
        phase := Opened;
        file := FirstFrom(files, extension, 0);
        if invoked != extension {
          waldo := Waldo(extension, spooler.recordIdx);
        }
        timestamp := extension + 1;
      }
    }

    // The next extension goes into the field, if there is one.
    method Next(files: seq<File>) returns (found: bool)
      requires Ordered(files)
      modifies this`extension
      ensures var j := FirstFrom(files, timestamp, 0);
              && found == (j < |files|)
              && extension == (if found then files[j].ext else old(extension))
              && (found ==> FirstFrom(files, extension, 0) == j)
    {
      var e;
      found, e := NextOf(files, timestamp);
      if found {
        extension := e;
      }
    }

    // Reads the record whose header has been read, and processes it.
    method RecordPass(files: seq<File>)
      requires Valid() && spooler != null && phase == HeaderRead
      requires file < |files| && spooler.recordIdx < |files[file].recs|
      modifies this, spooler
      ensures Valid() && spooler == old(spooler)
      ensures State(files) == ReadOn(old(State(files)), cfg)
    {
      hide Step, FirstFrom, Tagged;
      var f := files[file];
      var r, before := f.recs[spooler.recordIdx], |spooler.outputs|;
      phase := RecordRead;
      spooler.recordIdx := spooler.recordIdx + 1;
      if recordStart > 0 {
        recordStart := recordStart - 1;
        var _ := spooler.ProcessRecord(r, false);
      } else {
        var writeWaldo := spooler.ProcessRecord(r, true);
        emitted := emitted + Tagged(f.ext, spooler.outputs[before..]);
        if writeWaldo {
          waldo := Waldo(f.ext, spooler.recordIdx);
        }
      }
    }

    /** One pass of the loop: it does to the fields what a step of the model does to the state. */
    method Pass(files: seq<File>)
      requires Valid() && Sound(State(files))
      modifies this, spooler
      ensures Valid() && (spooler != null ==> spooler == old(spooler) || fresh(spooler))
      ensures State(files) == Iterate(old(State(files)), cfg)
    {
      hide FirstFrom, Step, Ordered;
      if spooler == null {
        OpenPass(files);
        return;
      }
      var f := files[file];
      if spooler.recordIdx < |f.recs| || (f.headerOnly && phase != HeaderRead) {
        if phase != HeaderRead {
          phase := HeaderRead;
        } else {
          RecordPass(files);
        }
      } else if newFile {
        spooler, recordStart, newFile := null, 0, false;
      } else {
        var found, _ := NextOf(files, timestamp);
        if found {
          newFile := true;
        }
      }
    }

    /** The loop itself, while the writer is at rest: it stops waiting for files only when the whole
        log has been emitted. */
    method CatchUp(files: seq<File>, ghost t0: nat)
      requires Valid() && Inv(State(files), t0, cfg)
      modifies this, spooler
      ensures Valid() && State(files) == Drain(old(State(files)), t0, cfg)
      ensures emitted == WholeLog(files, FirstFrom(files, t0, 0), |files|, cfg)
    {
      hide Iterate, Inv, Sound, FirstFrom, Idle, WholeLog, StageLeft, RecordsLeft, PassesLeft;
      InvIsSound(State(files), t0, cfg);
      ghost var d := Drain(State(files), t0, cfg);
      var idle := AtRest(files);
      while !idle
        invariant Valid() && (spooler != null ==> spooler == old(spooler) || fresh(spooler))
        invariant State(files).files == files && Inv(State(files), t0, cfg) && Sound(State(files))
        invariant idle == Idle(State(files)) && Drain(State(files), t0, cfg) == d
        decreases StageLeft(State(files)), RecordsLeft(State(files)), PassesLeft(State(files))
      {
        PassDecreases(State(files), t0, cfg);
        IterateInv(State(files), t0, cfg);
        Pass(files);
        idle := AtRest(files);
      }
      IdleEmitted(State(files), t0, cfg);
    }

    method AtRest(files: seq<File>) returns (idle: bool)
      requires Valid() && Sound(State(files))
      ensures idle == Idle(State(files))
    {
      hide FirstFrom;
      var found, _ := NextOf(files, timestamp);
      idle := !found;
      if spooler != null {
        var f := files[file];
        idle := idle && !newFile && spooler.recordIdx >= |f.recs| && (!f.headerOnly || phase == HeaderRead);
      }
    }
  }

  method NextOf(files: seq<File>, timestamp: nat) returns (found: bool, extension: nat)
    requires Ordered(files)
    ensures var j := FirstFrom(files, timestamp, 0);
            found == (j < |files|) && (found ==> extension == files[j].ext && FirstFrom(files, extension, 0) == j)
  {
    hide Counted;
    var entries := seq(|files|, i requires 0 <= i < |files| => Named(files[i].ext, true, false));
    found, extension := FindNextExtension(entries, false, timestamp);
    CountedExtensions(files, entries);
    LeastIsFirst(files, Counted(entries, false), timestamp, found, extension);
  }

  lemma LeastIsFirst(files: seq<File>, extensions: set<nat>, timestamp: nat, found: bool, extension: nat)
    requires Ordered(files) && IsLeast(extensions, timestamp, found, extension)
    requires forall i :: 0 <= i < |files| ==> files[i].ext in extensions
    requires forall e :: e in extensions ==> exists i :: 0 <= i < |files| && files[i].ext == e
    ensures var j := FirstFrom(files, timestamp, 0);
            found == (j < |files|) && (found ==> extension == files[j].ext && FirstFrom(files, extension, 0) == j)
  {
    var j := FirstFrom(files, timestamp, 0);
    if j < |files| {
      assert files[j].ext in extensions && Due(files[j].ext, timestamp);
      FirstIs(files, j);
    }
  }

  // In this loop every name parses.
  lemma CountedExtensions(files: seq<File>, entries: seq<Entry>)
    requires entries == seq(|files|, i requires 0 <= i < |files| => Named(files[i].ext, true, false))
    ensures forall i :: 0 <= i < |files| ==> files[i].ext in Counted(entries, false)
    ensures forall e :: e in Counted(entries, false) ==> exists i :: 0 <= i < |files| && files[i].ext == e
  {
    CountedAreThere(entries, false);
    forall i | 0 <= i < |files|
      ensures files[i].ext in Counted(entries, false)
    {
      assert Proper(entries[i]) && entries[i].value == files[i].ext;
    }
  }
}
