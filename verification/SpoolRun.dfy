/** Whole runs of the spooler: a writer that appends and rotates, a reader that follows it, and
    restarts of the reader from its bookmark, in any interleaving. */
module SpoolRun {
  import opened EventCache
  import opened EventDelivery

  // ---- The next spool file ----

  /** A directory entry: of another name, or one whose extension is parsed to a value, cleanly to the
      end of the name or not, and in range or not. */
  datatype Entry = Foreign | Named(value: nat, clean: bool, outOfRange: bool)

  predicate Overflows(e: Entry) { e.Named? && e.outOfRange }

  /** An extension that parses. */
  predicate Proper(e: Entry) { e.Named? && e.clean && !e.outOfRange }

  /** The error number that an overflow leaves behind is never reset: it was set before the scan, or by
      one of the first i entries. */
  predicate Stale(entries: seq<Entry>, errno: bool, i: nat)
    requires i <= |entries|
  {
    errno || exists j :: 0 <= j < i && Overflows(entries[j])
  }

  /** The extensions that the scan takes into account: those in front of any overflow. */
  function Counted(entries: seq<Entry>, errno: bool): set<nat> {
    set i | 0 <= i < |entries| && Proper(entries[i]) && !Stale(entries, errno, i) :: entries[i].value
  }

  /** Those that are there. */
  function Extensions(entries: seq<Entry>): set<nat> {
    set i | 0 <= i < |entries| && Proper(entries[i]) :: entries[i].value
  }

  predicate Due(extension: nat, timestamp: nat) { extension > 0 && extension >= timestamp }

  /** The least one that is due, if there is one. */
  ghost predicate IsLeast(extensions: set<nat>, timestamp: nat, found: bool, extension: nat) {
    && (found <==> exists e :: e in extensions && Due(e, timestamp))
    && (found ==> extension in extensions && Due(extension, timestamp))
    && (found ==> forall e :: e in extensions && Due(e, timestamp) ==> extension <= e)
  }

  /** The scan, in whatever order the directory lists its entries. */
  method FindNextExtension(entries: seq<Entry>, errno: bool, timestamp: nat) returns (found: bool, extension: nat)
    ensures IsLeast(Counted(entries, errno), timestamp, found, extension)
  {
    var timestampMin, range, i := 0, errno, 0;
    while i < |entries|
      invariant 0 <= i <= |entries|
      invariant range == Stale(entries, errno, i)
      invariant timestampMin == 0 || (timestampMin in Counted(entries, errno) && timestampMin >= timestamp)
      invariant forall k :: 0 <= k < i && Proper(entries[k]) && !Stale(entries, errno, k) ==>
                  Due(entries[k].value, timestamp) ==> 0 < timestampMin <= entries[k].value
    {
      if entries[i].Named? {
        var fileTimestamp := entries[i].value;
        range := range || entries[i].outOfRange;
        if !range && entries[i].clean {
          assert fileTimestamp in Counted(entries, errno);
          if timestamp != 0 && fileTimestamp == timestamp {
            timestampMin := fileTimestamp;
            break;
          } else if fileTimestamp > timestamp {
            if timestampMin == 0 || fileTimestamp < timestampMin {
              timestampMin := fileTimestamp;
            }
          }
        }
      }
      i := i + 1;
    }
    found, extension := timestampMin != 0, timestampMin;
  }

  /** It finds the right file, the least one due of those that are there, if and only if no such file is
      hidden behind an overflow, unless one that is not smaller is in front. */
  lemma ScanIsRight(entries: seq<Entry>, errno: bool, timestamp: nat, found: bool, extension: nat)
    requires IsLeast(Counted(entries, errno), timestamp, found, extension)
    ensures IsLeast(Extensions(entries), timestamp, found, extension)
            <==> forall e :: e in Extensions(entries) && Due(e, timestamp) ==>
                   exists c :: c in Counted(entries, errno) && Due(c, timestamp) && c <= e
  {
    hide Due;
    CountedAreThere(entries, errno);
    if IsLeast(Extensions(entries), timestamp, found, extension) {
      forall e | e in Extensions(entries) && Due(e, timestamp)
        ensures exists c :: c in Counted(entries, errno) && Due(c, timestamp) && c <= e
      {
        assert extension in Counted(entries, errno) && extension <= e;
      }
    }
  }

  lemma CountedAreThere(entries: seq<Entry>, errno: bool)
    ensures Counted(entries, errno) <= Extensions(entries)
    ensures errno ==> Counted(entries, errno) == {}
    ensures !errno && (forall i :: 0 <= i < |entries| ==> !Overflows(entries[i])) ==>
              Counted(entries, errno) == Extensions(entries)
  {
    hide Proper, Overflows;
  }

  /** A directory whose only file is hidden: behind a name whose extension is out of range. */
  lemma OverflowHides(other: nat, extension: nat, timestamp: nat, found: bool, e: nat)
    requires Due(extension, timestamp)
    requires IsLeast(Counted([Named(other, true, true), Named(extension, true, false)], false), timestamp, found, e)
    ensures !found
    ensures Extensions([Named(other, true, true), Named(extension, true, false)]) == {extension}
  {
    var entries := [Named(other, true, true), Named(extension, true, false)];
    assert Overflows(entries[0]) && Stale(entries, false, 1);
    assert Proper(entries[1]) && extension in Extensions(entries);
  }

  // ---- The files, the reader and its bookmark ----

  /** A spool file: its complete records, and whether the header of one more has been written. */
  datatype File = File(ext: nat, recs: seq<Record>, headerOnly: bool)

  datatype Phase = Opened | HeaderRead | RecordRead

  /** An open spool file, by its place in the directory, and how far it has been read. */
  datatype Spool = Closed | Open(file: nat, phase: Phase, recordIdx: nat, cache: Cache)

  /** The local state of the main loop; invoked is the timestamp it was started with. */
  datatype Reader = Reader(invoked: nat, timestamp: nat, recordStart: nat, extension: nat, newFile: bool, spool: Spool)

  datatype Waldo = Waldo(timestamp: nat, recordIdx: nat)

  datatype Fired = Fired(ext: nat, output: Output)

  datatype System = System(files: seq<File>, reader: Reader, waldo: Waldo, emitted: seq<Fired>)

  /** Extensions are positive and grow: the writer finishes a file before it creates the next. */
  predicate Ordered(files: seq<File>) {
    && (forall i :: 0 <= i < |files| ==> files[i].ext > 0)
    && (forall i, j :: 0 <= i < j < |files| ==> files[i].ext < files[j].ext)
  }

  /** The first file from place i on whose extension is at least timestamp. */
  function FirstFrom(files: seq<File>, timestamp: nat, i: nat): (j: nat)
    requires i <= |files|
    ensures i <= j <= |files| && (j < |files| ==> files[j].ext >= timestamp)
    ensures forall k :: i <= k < j ==> files[k].ext < timestamp
    decreases |files| - i
  {
    if i == |files| || files[i].ext >= timestamp then i else FirstFrom(files, timestamp, i + 1)
  }

  function Start(w: Waldo): Reader { Reader(w.timestamp, w.timestamp, w.recordIdx, 0, false, Closed) }

  function Tagged(ext: nat, outs: seq<Output>): (r: seq<Fired>)
    ensures |r| == |outs|
  {
    seq(|outs|, i requires 0 <= i < |outs| => Fired(ext, outs[i]))
  }

  predicate Readable(f: File, o: Spool)
    requires o.Open?
  {
    o.recordIdx < |f.recs| || (f.headerOnly && o.phase != HeaderRead)
  }

  /** One pass of the main loop without an open file: look for the next one and open it. */
  function OpenNext(s: System): System {
    var r := s.reader;
    var j := FirstFrom(s.files, r.timestamp, 0);
    var extension := if j < |s.files| then s.files[j].ext else r.extension;
    var recordStart := if r.invoked != extension then 0 else r.recordStart;
    if j == |s.files| then s.(reader := r.(recordStart := recordStart))
    else s.(
      reader := r.(extension := extension, recordStart := recordStart, timestamp := extension + 1,
                   spool := Open(j, Opened, 0, EMPTY)),
      waldo := if r.invoked != extension then Waldo(extension, 0) else s.waldo)
  }

  /** One pass with an open file: read a header or a record, or find that there is none and look
      for a newer file, or rotate to it. */
  function ReadOn(s: System, cfg: Config): System
    requires s.reader.spool.Open? && s.reader.spool.file < |s.files|
  {
    var r, o := s.reader, s.reader.spool;
    var f := s.files[o.file];
    if Readable(f, o) then
      if o.phase != HeaderRead then s.(reader := r.(spool := o.(phase := HeaderRead)))
      else
        var e := Step(o.cache, f.recs[o.recordIdx], o.recordIdx, cfg);
        var read := o.(phase := RecordRead, recordIdx := o.recordIdx + 1, cache := e.cache);
        if r.recordStart > 0 then s.(reader := r.(spool := read, recordStart := r.recordStart - 1))
        else s.(
          reader := r.(spool := read),
          waldo := if e.bookmark then Waldo(f.ext, read.recordIdx) else s.waldo,
          emitted := s.emitted + Tagged(f.ext, e.outputs))
    else if r.newFile then s.(reader := r.(spool := Closed, recordStart := 0, newFile := false))
    else if FirstFrom(s.files, r.timestamp, 0) < |s.files| then s.(reader := r.(newFile := true))
    else s
  }

  predicate Sound(s: System) {
    Ordered(s.files) && (s.reader.spool.Open? ==> s.reader.spool.file < |s.files|)
  }

  function Iterate(s: System, cfg: Config): System
    requires Sound(s)
  {
    if s.reader.spool.Open? then ReadOn(s, cfg) else OpenNext(s)
  }

  /** The reader stops between two passes and is started again from the waldo. */
  function Restart(s: System): System { s.(reader := Start(s.waldo)) }

  /** The writer adds the header or the body of a record to the last file, or a new file. */
  ghost predicate Writes(a: seq<File>, b: seq<File>) {
    || (exists ext :: (forall i :: 0 <= i < |a| ==> a[i].ext < ext) && ext > 0 && b == a + [File(ext, [], false)])
    || (|a| > 0 && !a[|a| - 1].headerOnly && b == a[|a| - 1 := a[|a| - 1].(headerOnly := true)])
    || (|a| > 0 && a[|a| - 1].headerOnly
        && exists r :: b == a[|a| - 1 := a[|a| - 1].(headerOnly := false, recs := a[|a| - 1].recs + [r])])
  }

  ghost predicate Next(s: System, s': System, cfg: Config) {
    || (Writes(s.files, s'.files) && s' == s.(files := s'.files))
    || (Sound(s) && s' == Iterate(s, cfg))
    || s' == Restart(s)
  }

  /** A first start at timestamp t0, in a directory that may hold files already. */
  ghost predicate Init(s: System, t0: nat) {
    Ordered(s.files) && s.waldo == Waldo(t0, 0) && s.reader == Start(s.waldo) && s.emitted == []
  }

  ghost predicate IsRun(run: seq<System>, t0: nat, cfg: Config) {
    && 0 < |run| && Init(run[0], t0)
    && forall i :: 0 <= i < |run| - 1 ==> Next(run[i], run[i + 1], cfg)
  }

  // ---- The outputs that the files determine ----

  function FileLog(f: File, n: nat, cfg: Config): seq<Fired>
    requires n <= |f.recs|
  {
    Tagged(f.ext, OutputsAfter(f.recs, n, cfg))
  }

  /** The outputs of the files from place a up to, not including, place i, each from an empty cache. */
  function WholeLog(files: seq<File>, a: nat, i: nat, cfg: Config): seq<Fired>
    requires i <= |files|
    decreases i
  {
    if i <= a then [] else WholeLog(files, a, i - 1, cfg) + FileLog(files[i - 1], |files[i - 1].recs|, cfg)
  }

  /** ... and of the first n records of file i. */
  function LogTo(files: seq<File>, a: nat, i: nat, n: nat, cfg: Config): seq<Fired>
    requires i < |files| && n <= |files[i].recs|
  {
    WholeLog(files, a, i, cfg) + FileLog(files[i], n, cfg)
  }

  // ---- The invariant of every run ----

  /** What has been emitted is what the files determine up to the bookmark. */
  predicate Bookmarked(s: System, t0: nat, cfg: Config) {
    var a, b := FirstFrom(s.files, t0, 0), FirstFrom(s.files, s.waldo.timestamp, 0);
    || (s.waldo == Waldo(t0, 0) && s.emitted == [])
    || (&& a <= b < |s.files| && s.files[b].ext == s.waldo.timestamp && s.waldo.recordIdx <= |s.files[b].recs|
        && s.emitted == LogTo(s.files, a, b, s.waldo.recordIdx, cfg))
  }

  /** ... and, with a file open, up to the record being read; while records are skipped, up to
      the record where that ends. */
  predicate ReaderOpen(s: System, t0: nat, cfg: Config)
    requires s.reader.spool.Open?
  {
    var a, r, o := FirstFrom(s.files, t0, 0), s.reader, s.reader.spool;
    && a <= o.file < |s.files|
    && r.timestamp == s.files[o.file].ext + 1 && r.invoked <= s.files[o.file].ext
    && o.recordIdx + r.recordStart <= |s.files[o.file].recs|
    && s.emitted == LogTo(s.files, a, o.file, o.recordIdx + r.recordStart, cfg)
    && o.cache == CacheAfter(s.files[o.file].recs, o.recordIdx, cfg)
    && (r.newFile ==> o.file + 1 < |s.files|)
    && (o.phase == HeaderRead ==> o.recordIdx < |s.files[o.file].recs| || s.files[o.file].headerOnly)
  }

  /** Without a file open the reader has just started, or is between two files. */
  predicate ReaderClosed(s: System, t0: nat, cfg: Config) {
    var a, r, j := FirstFrom(s.files, t0, 0), s.reader, FirstFrom(s.files, s.reader.timestamp, 0);
    && !r.newFile
    && (|| (r.timestamp == r.invoked == s.waldo.timestamp && r.recordStart == s.waldo.recordIdx)
        || (&& a < j < |s.files| && r.timestamp == s.files[j - 1].ext + 1 && r.invoked <= s.files[j - 1].ext
            && r.recordStart == 0 && s.emitted == WholeLog(s.files, a, j, cfg)))
  }

  predicate Inv(s: System, t0: nat, cfg: Config) {
    && Ordered(s.files)
    && Bookmarked(s, t0, cfg)
    && (if s.reader.spool.Open? then ReaderOpen(s, t0, cfg) else ReaderClosed(s, t0, cfg))
  }

  lemma FirstIs(files: seq<File>, j: nat)
    requires Ordered(files) && j < |files|
    ensures FirstFrom(files, files[j].ext, 0) == j
    ensures FirstFrom(files, files[j].ext + 1, 0) == j + 1
  {
    assert j + 1 < |files| ==> files[j].ext < files[j + 1].ext;
    var k := FirstFrom(files, files[j].ext + 1, 0);
    assert k < |files| ==> files[k].ext > files[j].ext;
  }

  lemma InitInv(s: System, t0: nat, cfg: Config)
    requires Init(s, t0)
    ensures Inv(s, t0, cfg)
  {
  }

  lemma RestartInv(s: System, t0: nat, cfg: Config)
    requires Inv(s, t0, cfg)
    ensures Inv(Restart(s), t0, cfg)
  {
  }

  lemma OpenNextInv(s: System, t0: nat, cfg: Config)
    requires Inv(s, t0, cfg) && !s.reader.spool.Open?
    ensures Inv(OpenNext(s), t0, cfg)
  {
    hide LogTo, WholeLog, CacheAfter;
    var a, r, j := FirstFrom(s.files, t0, 0), s.reader, FirstFrom(s.files, s.reader.timestamp, 0);
    if j < |s.files| {
      FirstIs(s.files, j);
      LogStart(s.files, a, j, cfg);
      assert CacheAfter(s.files[j].recs, 0, cfg) == EMPTY by { CacheAtStart(s.files[j].recs, cfg); }
      if r.invoked == s.files[j].ext {
        assert r.timestamp == r.invoked;
      }
    }
  }

  lemma CacheAtStart(recs: seq<Record>, cfg: Config)
    ensures CacheAfter(recs, 0, cfg) == EMPTY
  {
  }

  lemma LogStart(files: seq<File>, a: nat, i: nat, cfg: Config)
    requires i < |files|
    ensures LogTo(files, a, i, 0, cfg) == WholeLog(files, a, i, cfg)
    ensures i >= a ==> LogTo(files, a, i, |files[i].recs|, cfg) == WholeLog(files, a, i + 1, cfg)
    ensures i <= a ==> WholeLog(files, a, i, cfg) == []
  {
  }

  lemma ReadOnInv(s: System, t0: nat, cfg: Config)
    requires Inv(s, t0, cfg) && s.reader.spool.Open?
    ensures Inv(ReadOn(s, cfg), t0, cfg)
  {
    hide LogTo, WholeLog, Step, CacheAfter, FirstFrom;
    var a, o := FirstFrom(s.files, t0, 0), s.reader.spool;
    if Readable(s.files[o.file], o) && o.phase == HeaderRead {
      RecordInv(s, t0, cfg);
    } else {
      FirstIs(s.files, o.file);
      LogStart(s.files, a, o.file, cfg);
    }
  }

  lemma RecordInv(s: System, t0: nat, cfg: Config)
    requires Inv(s, t0, cfg) && s.reader.spool.Open? && s.reader.spool.phase == HeaderRead
    requires s.reader.spool.recordIdx < |s.files[s.reader.spool.file].recs|
    ensures Inv(ReadOn(s, cfg), t0, cfg)
  {
    hide LogTo, WholeLog, Step, FirstFrom;
    var a, o := FirstFrom(s.files, t0, 0), s.reader.spool;
    if s.reader.recordStart == 0 {
      FirstIs(s.files, o.file);
      LogStep(s.files, a, o.file, o.recordIdx, cfg);
      SilentStep(o.cache, s.files[o.file].recs[o.recordIdx], o.recordIdx, cfg);
    }
  }

  lemma LogStep(files: seq<File>, a: nat, i: nat, n: nat, cfg: Config)
    requires i < |files| && n < |files[i].recs|
    ensures var f := files[i];
            LogTo(files, a, i, n + 1, cfg)
              == LogTo(files, a, i, n, cfg) + Tagged(f.ext, Step(CacheAfter(f.recs, n, cfg), f.recs[n], n, cfg).outputs)
  {
    hide Step, WholeLog;
    var f := files[i];
    var outs, more := OutputsAfter(f.recs, n, cfg), Step(CacheAfter(f.recs, n, cfg), f.recs[n], n, cfg).outputs;
    assert Tagged(f.ext, outs + more) == Tagged(f.ext, outs) + Tagged(f.ext, more);
  }

  // A record that does not move the bookmark fires nothing.
  lemma SilentStep(c: Cache, r: Record, k: nat, cfg: Config)
    ensures !Step(c, r, k, cfg).bookmark ==> Step(c, r, k, cfg).outputs == []
  {
  }

  /** What a writer may do to the files: finished files stay as they are, the last one grows. */
  predicate Grown(a: seq<File>, b: seq<File>) {
    && |a| <= |b|
    && (forall i :: 0 <= i < |a| - 1 ==> a[i] == b[i])
    && (|a| > 0 ==>
          var f, g := a[|a| - 1], b[|a| - 1];
          f.ext == g.ext && f.recs <= g.recs && (f.headerOnly ==> g.headerOnly || |g.recs| > |f.recs|))
  }

  lemma WritesGrow(a: seq<File>, b: seq<File>)
    requires Ordered(a) && Writes(a, b)
    ensures Ordered(b) && Grown(a, b)
  {
  }

  lemma {:induction false} PrefixCounts(recs: seq<Record>, more: seq<Record>, n: nat, cfg: Config)
    requires recs <= more && n <= |recs|
    ensures CacheAfter(recs, n, cfg) == CacheAfter(more, n, cfg)
    ensures OutputsAfter(recs, n, cfg) == OutputsAfter(more, n, cfg)
  {
    hide Step;
    if n > 0 {
      PrefixCounts(recs, more, n - 1, cfg);
    }
  }

  lemma {:induction false} WholeLogStays(a: seq<File>, b: seq<File>, from: nat, i: nat, cfg: Config)
    requires Grown(a, b) && i < |a|
    ensures WholeLog(a, from, i, cfg) == WholeLog(b, from, i, cfg)
  {
    hide FileLog;
    if i > from {
      WholeLogStays(a, b, from, i - 1, cfg);
    }
  }

  lemma LogStays(a: seq<File>, b: seq<File>, from: nat, i: nat, n: nat, cfg: Config)
    requires Grown(a, b) && i < |a| && n <= |a[i].recs|
    ensures |a| <= |b| && a[i].ext == b[i].ext
    ensures n <= |b[i].recs| && LogTo(a, from, i, n, cfg) == LogTo(b, from, i, n, cfg)
    ensures CacheAfter(a[i].recs, n, cfg) == CacheAfter(b[i].recs, n, cfg)
  {
    hide CacheAfter, OutputsAfter, WholeLog;
    WholeLogStays(a, b, from, i, cfg);
    PrefixCounts(a[i].recs, b[i].recs, n, cfg);
  }

  lemma FirstStays(a: seq<File>, b: seq<File>, timestamp: nat)
    requires Grown(a, b)
    ensures FirstFrom(a, timestamp, 0) < |a| ==> FirstFrom(b, timestamp, 0) == FirstFrom(a, timestamp, 0)
  {
    hide Grown;
    var i, j := FirstFrom(a, timestamp, 0), FirstFrom(b, timestamp, 0);
    if i < |a| {
      SameExtension(a, b, i);
      if j < |a| {
        SameExtension(a, b, j);
      }
    }
  }

  lemma SameExtension(a: seq<File>, b: seq<File>, i: nat)
    requires Grown(a, b) && i < |a|
    ensures |a| <= |b| && b[i].ext == a[i].ext
  {
  }

  lemma WriterInv(s: System, s': System, t0: nat, cfg: Config)
    requires Inv(s, t0, cfg) && Writes(s.files, s'.files) && s' == s.(files := s'.files)
    ensures Inv(s', t0, cfg)
  {
    WritesGrow(s.files, s'.files);
    GrownInv(s, s', t0, cfg);
  }

  lemma GrownInv(s: System, s': System, t0: nat, cfg: Config)
    requires Inv(s, t0, cfg) && Ordered(s'.files) && Grown(s.files, s'.files) && s' == s.(files := s'.files)
    ensures Inv(s', t0, cfg)
  {
    hide Bookmarked, ReaderOpen, ReaderClosed, Ordered, Grown;
    GrownBookmarked(s, s', t0, cfg);
    if s.reader.spool.Open? {
      GrownOpen(s, s', t0, cfg);
    } else {
      GrownClosed(s, s', t0, cfg);
    }
  }

  lemma GrownBookmarked(s: System, s': System, t0: nat, cfg: Config)
    requires Bookmarked(s, t0, cfg) && Grown(s.files, s'.files) && s' == s.(files := s'.files)
    ensures Bookmarked(s', t0, cfg)
  {
    hide LogTo, FirstFrom, Grown;
    FirstStays(s.files, s'.files, t0);
    FirstStays(s.files, s'.files, s.waldo.timestamp);
    if s.waldo != Waldo(t0, 0) || s.emitted != [] {
      var a, i := FirstFrom(s.files, t0, 0), FirstFrom(s.files, s.waldo.timestamp, 0);
      LogStays(s.files, s'.files, a, i, s.waldo.recordIdx, cfg);
    }
  }

  lemma GrownOpen(s: System, s': System, t0: nat, cfg: Config)
    requires s.reader.spool.Open? && ReaderOpen(s, t0, cfg) && Grown(s.files, s'.files) && s' == s.(files := s'.files)
    ensures ReaderOpen(s', t0, cfg)
  {
    hide LogTo, CacheAfter, FirstFrom;
    var a, r, o := FirstFrom(s.files, t0, 0), s.reader, s.reader.spool;
    FirstStays(s.files, s'.files, t0);
    LogStays(s.files, s'.files, a, o.file, o.recordIdx + r.recordStart, cfg);
    LogStays(s.files, s'.files, a, o.file, o.recordIdx, cfg);
  }

  lemma GrownClosed(s: System, s': System, t0: nat, cfg: Config)
    requires ReaderClosed(s, t0, cfg) && Grown(s.files, s'.files) && s' == s.(files := s'.files)
    ensures ReaderClosed(s', t0, cfg)
  {
    hide WholeLog, FirstFrom;
    var a, j := FirstFrom(s.files, t0, 0), FirstFrom(s.files, s.reader.timestamp, 0);
    FirstStays(s.files, s'.files, t0);
    FirstStays(s.files, s'.files, s.reader.timestamp);
    if j < |s.files| {
      WholeLogStays(s.files, s'.files, a, j, cfg);
    }
  }

  lemma {:induction false} RunInv(run: seq<System>, t0: nat, cfg: Config, n: nat)
    requires IsRun(run, t0, cfg) && n < |run|
    ensures Inv(run[n], t0, cfg)
  {
    hide Inv, Init, Iterate, Writes;
    if n == 0 {
      InitInv(run[0], t0, cfg);
    } else {
      RunInv(run, t0, cfg, n - 1);
      var s, s' := run[n - 1], run[n];
      assert Next(s, s', cfg);
      if s' == Restart(s) {
        RestartInv(s, t0, cfg);
      } else if Writes(s.files, s'.files) && s' == s.(files := s'.files) {
        WriterInv(s, s', t0, cfg);
      } else {
        IterateInv(s, t0, cfg);
      }
    }
  }

  lemma IterateInv(s: System, t0: nat, cfg: Config)
    requires Inv(s, t0, cfg) && Sound(s)
    ensures Inv(Iterate(s, cfg), t0, cfg)
  {
    hide Inv, ReadOn, OpenNext;
    if s.reader.spool.Open? {
      ReadOnInv(s, t0, cfg);
    } else {
      OpenNextInv(s, t0, cfg);
    }
  }

  lemma InvIsSound(s: System, t0: nat, cfg: Config)
    requires Inv(s, t0, cfg)
    ensures Sound(s)
  {
  }

  // ---- Safety of every run ----

  lemma {:induction false} WholeLogGrows(files: seq<File>, a: nat, i: nat, j: nat, cfg: Config)
    requires i <= j <= |files|
    ensures WholeLog(files, a, i, cfg) <= WholeLog(files, a, j, cfg)
    decreases j
  {
    hide FileLog;
    if i < j {
      WholeLogGrows(files, a, i, j - 1, cfg);
    }
  }

  lemma {:induction false} OutputsGrow(recs: seq<Record>, n: nat, m: nat, cfg: Config)
    requires n <= m <= |recs|
    ensures OutputsAfter(recs, n, cfg) <= OutputsAfter(recs, m, cfg)
    decreases m
  {
    hide Step;
    if n < m {
      OutputsGrow(recs, n, m - 1, cfg);
    }
  }

  lemma LogToInWhole(files: seq<File>, a: nat, i: nat, n: nat, cfg: Config)
    requires a <= i < |files| && n <= |files[i].recs|
    ensures LogTo(files, a, i, n, cfg) <= WholeLog(files, a, |files|, cfg)
  {
    hide WholeLog, OutputsAfter;
    OutputsGrow(files[i].recs, n, |files[i].recs|, cfg);
    LogStart(files, a, i, cfg);
    WholeLogGrows(files, a, i + 1, |files|, cfg);
  }

  /** At no point of any run, however writes, rotations and restarts interleave, has anything been
      emitted but the first outputs of the writer's whole log, in order and without repetition. */
  lemma EmittedIsPrefix(run: seq<System>, t0: nat, cfg: Config, n: nat)
    requires IsRun(run, t0, cfg) && n < |run|
    ensures var s := run[n];
            s.emitted <= WholeLog(s.files, FirstFrom(s.files, t0, 0), |s.files|, cfg)
  {
    hide IsRun, ReaderOpen, ReaderClosed, WholeLog, LogTo, FirstFrom;
    RunInv(run, t0, cfg, n);
    var s := run[n];
    var a, b := FirstFrom(s.files, t0, 0), FirstFrom(s.files, s.waldo.timestamp, 0);
    if s.waldo != Waldo(t0, 0) || s.emitted != [] {
      LogToInWhole(s.files, a, b, s.waldo.recordIdx, cfg);
    }
  }

  lemma ClosesBehind(s: System, cfg: Config)
    requires Sound(s) && s.reader.spool.Open? && Iterate(s, cfg).reader.spool.Closed?
    ensures !Readable(s.files[s.reader.spool.file], s.reader.spool) && s.reader.newFile
  {
    hide Step, Tagged, FirstFrom;
  }

  /** A file is closed only when a later one exists, every complete record of it has been read, no
      record is left to skip, and the outputs of all the files up to it have been emitted. */
  lemma ClosedOnlyWhenConsumed(run: seq<System>, t0: nat, cfg: Config, n: nat)
    requires IsRun(run, t0, cfg) && n < |run| && run[n].reader.spool.Open? && Sound(run[n])
    requires Iterate(run[n], cfg).reader.spool.Closed?
    ensures var s := run[n];
            var i := s.reader.spool.file;
            && i + 1 < |s.files|
            && s.reader.spool.recordIdx == |s.files[i].recs| && s.reader.recordStart == 0
            && s.emitted == WholeLog(s.files, FirstFrom(s.files, t0, 0), i + 1, cfg)
  {
    hide IsRun, Bookmarked, Iterate, WholeLog, LogTo, CacheAfter, FirstFrom;
    RunInv(run, t0, cfg, n);
    ClosesBehind(run[n], cfg);
    LogStart(run[n].files, FirstFrom(run[n].files, t0, 0), run[n].reader.spool.file, cfg);
  }

  lemma NextGrows(s: System, s': System, t0: nat, cfg: Config)
    requires Inv(s, t0, cfg) && Next(s, s', cfg)
    ensures Grown(s.files, s'.files)
  {
    hide Step, FirstFrom, Bookmarked, ReaderOpen, ReaderClosed;
    if Writes(s.files, s'.files) {
      WritesGrow(s.files, s'.files);
    }
  }

  /** A file that is finished in one state of a run is finished, and the same, in every later one. */
  lemma {:induction false} FinishedFilesStay(run: seq<System>, t0: nat, cfg: Config, n: nat, m: nat, i: nat)
    requires IsRun(run, t0, cfg) && n <= m < |run| && i + 1 < |run[n].files|
    ensures i + 1 < |run[m].files| && run[m].files[i] == run[n].files[i]
    decreases m
  {
    hide Init, Next, Inv;
    if n < m {
      FinishedFilesStay(run, t0, cfg, n, m - 1, i);
      RunInv(run, t0, cfg, m - 1);
      assert Next(run[m - 1], run[m], cfg);
      NextGrows(run[m - 1], run[m], t0, cfg);
    }
  }

  // ---- Catching up ----

  /** The reader has nothing left to do until the writer acts. */
  predicate Idle(s: System) {
    var o := s.reader.spool;
    && FirstFrom(s.files, s.reader.timestamp, 0) == |s.files|
    && (o.Open? ==> o.file < |s.files| && !Readable(s.files[o.file], o) && !s.reader.newFile)
  }

  function StageLeft(s: System): nat
    requires Sound(s)
  {
    var o, n := s.reader.spool, |s.files|;
    if o.Open? then 2 * (n - o.file) else 2 * (n - FirstFrom(s.files, s.reader.timestamp, 0)) + 1
  }

  function RecordsLeft(s: System): nat
    requires Sound(s)
  {
    var o := s.reader.spool;
    if o.Open? && o.recordIdx < |s.files[o.file].recs| then |s.files[o.file].recs| - o.recordIdx else 0
  }

  function PassesLeft(s: System): nat {
    var o := s.reader.spool;
    (if o.Open? && o.phase != HeaderRead then 2 else 0) + (if s.reader.newFile then 0 else 1)
  }

  /** Passes of the main loop, with the writer at rest, until the reader is idle. */
  function Drain(s: System, t0: nat, cfg: Config): (d: System)
    requires Inv(s, t0, cfg)
    ensures Inv(d, t0, cfg) && Idle(d) && d.files == s.files
    decreases StageLeft(s), RecordsLeft(s), PassesLeft(s)
  {
    if Idle(s) then s
    else
      IterateInv(s, t0, cfg);
      PassDecreases(s, t0, cfg);
      Drain(Iterate(s, cfg), t0, cfg)
  }

  lemma PassDecreases(s: System, t0: nat, cfg: Config)
    requires Inv(s, t0, cfg) && !Idle(s)
    ensures var s' := Iterate(s, cfg);
      && s'.files == s.files && Sound(s')
      && StageLeft(s') <= StageLeft(s)
      && (StageLeft(s') == StageLeft(s) ==> RecordsLeft(s') <= RecordsLeft(s))
      && (StageLeft(s') == StageLeft(s) && RecordsLeft(s') == RecordsLeft(s) ==> PassesLeft(s') < PassesLeft(s))
  {
    hide LogTo, WholeLog, CacheAfter, Step, Bookmarked;
    if s.reader.spool.Open? {
      FirstIs(s.files, s.reader.spool.file);
    }
  }

  /** No loss: a reader left alone with the files comes to rest having emitted the outputs of every
      complete record of every file, whatever had happened before. */
  lemma NoLoss(run: seq<System>, t0: nat, cfg: Config, n: nat)
    requires IsRun(run, t0, cfg) && n < |run|
    ensures Inv(run[n], t0, cfg)
    ensures var s := run[n];
            Drain(s, t0, cfg).emitted == WholeLog(s.files, FirstFrom(s.files, t0, 0), |s.files|, cfg)
  {
    hide IsRun, Inv, Drain;
    RunInv(run, t0, cfg, n);
    IdleEmitted(Drain(run[n], t0, cfg), t0, cfg);
  }

  lemma IdleEmitted(s: System, t0: nat, cfg: Config)
    requires Inv(s, t0, cfg) && Idle(s)
    ensures s.emitted == WholeLog(s.files, FirstFrom(s.files, t0, 0), |s.files|, cfg)
  {
    hide LogTo, WholeLog, CacheAfter;
    var a, o := FirstFrom(s.files, t0, 0), s.reader.spool;
    if o.Open? {
      FirstIs(s.files, o.file);
      LogStart(s.files, a, o.file, cfg);
    } else {
      NothingLogged(s.files, a, cfg);
    }
  }

  lemma NothingLogged(files: seq<File>, a: nat, cfg: Config)
    ensures a >= |files| ==> WholeLog(files, a, |files|, cfg) == []
  {
  }

  /** Resume equivalence: stopping the reader after any pass and restarting it from the waldo, once
      or with further restarts and writes in between, ends in the outputs of an uninterrupted run. */
  lemma ResumeEquivalence(run: seq<System>, other: seq<System>, t0: nat, cfg: Config)
    requires IsRun(run, t0, cfg) && IsRun(other, t0, cfg)
    requires run[|run| - 1].files == other[|other| - 1].files
    ensures Inv(run[|run| - 1], t0, cfg) && Inv(other[|other| - 1], t0, cfg)
    ensures Drain(run[|run| - 1], t0, cfg).emitted == Drain(other[|other| - 1], t0, cfg).emitted
  {
    hide Init, Next, Inv, Drain, WholeLog;
    NoLoss(run, t0, cfg, |run| - 1);
    NoLoss(other, t0, cfg, |other| - 1);
  }

  /** ... and already at every record boundary past the bookmark: two readers at the same record of
      the same files have emitted the same and cached the same, whatever restarts led there. */
  lemma SameRecordSameOutputs(run: seq<System>, other: seq<System>, t0: nat, cfg: Config)
    requires IsRun(run, t0, cfg) && IsRun(other, t0, cfg)
    requires var s, s' := run[|run| - 1], other[|other| - 1];
      && s.files == s'.files && s.reader.spool.Open? && s'.reader.spool.Open?
      && s.reader.spool.file == s'.reader.spool.file
      && s.reader.spool.recordIdx == s'.reader.spool.recordIdx
      && s.reader.recordStart == s'.reader.recordStart
    ensures run[|run| - 1].emitted == other[|other| - 1].emitted
    ensures run[|run| - 1].reader.spool.cache == other[|other| - 1].reader.spool.cache
  {
    hide Init, Next, Bookmarked, LogTo, CacheAfter, FirstFrom;
    RunInv(run, t0, cfg, |run| - 1);
    RunInv(other, t0, cfg, |other| - 1);
  }

  // ---- Single delivery over whole runs ----

  /** How often event e of the file with this extension has reached the output plugins. */
  function FiredFor(fs: seq<Fired>, ext: nat, e: nat): nat {
    if fs == [] then 0
    else
      var f := fs[|fs| - 1];
      FiredFor(fs[..|fs| - 1], ext, e) + if f.ext == ext && f.output.Carries(e) then 1 else 0
  }

  lemma {:induction false} FiredForConcat(a: seq<Fired>, b: seq<Fired>, ext: nat, e: nat)
    ensures FiredFor(a + b, ext, e) == FiredFor(a, ext, e) + FiredFor(b, ext, e)
  {
    if b == [] {
      assert a + b == a;
    } else {
      FiredForConcat(a, b[..|b| - 1], ext, e);
      assert (a + b)[..|a + b| - 1] == a + b[..|b| - 1];
    }
  }

  lemma {:induction false} FiredForTagged(tag: nat, outs: seq<Output>, ext: nat, e: nat)
    ensures FiredFor(Tagged(tag, outs), ext, e) == if tag == ext then Deliveries(outs, e) else 0
  {
    if outs != [] {
      var last := |outs| - 1;
      FiredForTagged(tag, outs[..last], ext, e);
      assert Tagged(tag, outs)[..last] == Tagged(tag, outs[..last]);
    }
  }

  lemma {:induction false} FiredForWhole(files: seq<File>, a: nat, i: nat, j: nat, e: nat, cfg: Config)
    requires Ordered(files) && i <= |files| && j < |files|
    ensures FiredFor(WholeLog(files, a, i, cfg), files[j].ext, e)
            == if a <= j < i then Deliveries(OutputsAfter(files[j].recs, |files[j].recs|, cfg), e) else 0
  {
    hide FiredFor, Deliveries, OutputsAfter, Tagged;
    if i > a {
      var f := files[i - 1];
      FiredForWhole(files, a, i - 1, j, e, cfg);
      FiredForConcat(WholeLog(files, a, i - 1, cfg), FileLog(f, |f.recs|, cfg), files[j].ext, e);
      FiredForTagged(f.ext, OutputsAfter(f.recs, |f.recs|, cfg), files[j].ext, e);
    } else {
      FiredForNone(files[j].ext, e);
    }
  }

  lemma FiredForNone(ext: nat, e: nat)
    ensures FiredFor([], ext, e) == 0
  {
  }

  /** With every record type recognised and one alert per stream, no event is ever delivered twice,
      in any run with any restarts; and once the reader has caught up every event from the first
      file it had to read on has been delivered exactly once, if and only if some record behind it
      in its file claims it. */
  lemma EventsDeliveredOnce(run: seq<System>, t0: nat, cfg: Config, n: nat, j: nat, e: nat)
    requires IsRun(run, t0, cfg) && n < |run| && !cfg.eachPacket && j < |run[n].files|
    requires var recs := run[n].files[j].recs;
      && (forall i :: 0 <= i < |recs| ==> recs[i].Kind() != Unrecognised)
      && e < |recs| && recs[e].Kind() == EventRecord
    ensures Inv(run[n], t0, cfg) && FiredFor(run[n].emitted, run[n].files[j].ext, e) <= 1
    ensures var f := run[n].files[j];
            FiredFor(Drain(run[n], t0, cfg).emitted, f.ext, e)
            == if j < FirstFrom(run[n].files, t0, 0) || Unclaimed(f.recs, e, |f.recs|, cfg) then 0 else 1
  {
    hide Init, Next, ReaderOpen, ReaderClosed, Bookmarked, Drain, WholeLog, FiredFor, Deliveries, Waiting,
         Unclaimed, OutputsAfter, CacheAfter, FirstFrom;
    var s := run[n];
    var f, a := s.files[j], FirstFrom(s.files, t0, 0);
    var log := WholeLog(s.files, a, |s.files|, cfg);
    NoLoss(run, t0, cfg, n);
    EmittedIsPrefix(run, t0, cfg, n);
    FiredForConcat(s.emitted, log[|s.emitted|..], f.ext, e);
    assert log == s.emitted + log[|s.emitted|..];
    FiredForWhole(s.files, a, |s.files|, j, e, cfg);
    SingleDelivery(f.recs, |f.recs|, cfg, e);
    WaitsWhileUnclaimed(f.recs, |f.recs|, cfg, e);
  }

  /** An event that nothing has claimed when its file is finished is never delivered, by whatever
      the writer and the reader do from then on. */
  lemma UnclaimedIsLost(run: seq<System>, t0: nat, cfg: Config, n: nat, m: nat, j: nat, e: nat)
    requires IsRun(run, t0, cfg) && n <= m < |run| && !cfg.eachPacket && j + 1 < |run[n].files|
    requires var recs := run[n].files[j].recs;
      && (forall i :: 0 <= i < |recs| ==> recs[i].Kind() != Unrecognised)
      && e < |recs| && recs[e].Kind() == EventRecord && Unclaimed(recs, e, |recs|, cfg)
    ensures FiredFor(run[m].emitted, run[n].files[j].ext, e) == 0
  {
    hide Init, Next, ReaderOpen, ReaderClosed, Bookmarked, Drain, WholeLog, FiredFor, Deliveries, Waiting,
         Unclaimed, OutputsAfter, CacheAfter, FirstFrom;
    FinishedFilesStay(run, t0, cfg, n, m, j);
    var s := run[m];
    var f, a := s.files[j], FirstFrom(s.files, t0, 0);
    var log := WholeLog(s.files, a, |s.files|, cfg);
    RunInv(run, t0, cfg, m);
    EmittedIsPrefix(run, t0, cfg, m);
    FiredForConcat(s.emitted, log[|s.emitted|..], f.ext, e);
    assert log == s.emitted + log[|s.emitted|..];
    FiredForWhole(s.files, a, |s.files|, j, e, cfg);
    SingleDelivery(f.recs, |f.recs|, cfg, e);
    WaitsWhileUnclaimed(f.recs, |f.recs|, cfg, e);
  }

  /** Any run can go on with the reader alone until it is idle. */
  lemma {:induction false} CatchesUp(run: seq<System>, t0: nat, cfg: Config) returns (longer: seq<System>)
    requires IsRun(run, t0, cfg)
    ensures IsRun(longer, t0, cfg) && run <= longer && Inv(run[|run| - 1], t0, cfg)
    ensures longer[|longer| - 1] == Drain(run[|run| - 1], t0, cfg)
    decreases (RunInv(run, t0, cfg, |run| - 1); InvIsSound(run[|run| - 1], t0, cfg); StageLeft(run[|run| - 1])),
              (RunInv(run, t0, cfg, |run| - 1); InvIsSound(run[|run| - 1], t0, cfg); RecordsLeft(run[|run| - 1])),
              PassesLeft(run[|run| - 1])
  {
    hide Init, Inv, Iterate, Writes, Idle, StageLeft, RecordsLeft, PassesLeft;
    var s := run[|run| - 1];
    RunInv(run, t0, cfg, |run| - 1);
    InvIsSound(s, t0, cfg);
    if Idle(s) {
      longer := run;
    } else {
      PassDecreases(s, t0, cfg);
      IterateInv(s, t0, cfg);
      var next := run + [Iterate(s, cfg)];
      assert Next(s, Iterate(s, cfg), cfg);
      assert forall i :: 0 <= i < |next| - 1 ==> Next(next[i], next[i + 1], cfg);
      longer := CatchesUp(next, t0, cfg);
    }
  }

  const LONE: Record := Record(7, 0, 0)

  /** Two files: one holds a single event, the other one is still empty. */
  const ROTATED: seq<File> := [File(1, [LONE], false), File(2, [], false)]

  /** A run that rotates an event away: the reader has gone on to the second file, for good, and the
      event of the first one has not been delivered. */
  lemma EventRotatedAway(cfg: Config) returns (run: seq<System>)
    requires !cfg.eachPacket
    ensures IsRun(run, 1, cfg)
    ensures var s := run[|run| - 1];
      s.files == ROTATED && s.reader.spool.Open? && s.reader.spool.file == 1 && FiredFor(s.emitted, 1, 0) == 0
  {
    hide FiredFor, CacheAfter, Step, WholeLog, LogTo, Drain, Next;
    var s := System(ROTATED, Start(Waldo(1, 0)), Waldo(1, 0), []);
    run := CatchesUp([s], 1, cfg);
    var d := run[|run| - 1];
    RunInv(run, 1, cfg, |run| - 1);
    UnclaimedIsLost(run, 1, cfg, 0, |run| - 1, 0, 0);
    assert d.files == ROTATED && Idle(d);
    FirstIs(ROTATED, 0);
    FirstIs(ROTATED, 1);
  }

  // ---- A stop in the middle of a record ----

  lemma IterateSound(s: System, cfg: Config)
    requires Sound(s)
    ensures Sound(Iterate(s, cfg)) && Iterate(s, cfg).files == s.files
  {
    hide Step, Tagged;
  }

  function Passes(s: System, cfg: Config, n: nat): (d: System)
    requires Sound(s)
    ensures Sound(d)
    decreases n
  {
    if n == 0 then s
    else
      IterateSound(s, cfg);
      Passes(Iterate(s, cfg), cfg, n - 1)
  }

  function Silent(s: System): System { s.(emitted := []) }

  // What a pass does, and what it adds to the outputs, do not depend on the outputs so far.
  lemma IterateAppends(s: System, cfg: Config)
    requires Sound(s)
    ensures var q := Iterate(Silent(s), cfg); Iterate(s, cfg) == q.(emitted := s.emitted + q.emitted)
  {
    hide Step, Tagged, FirstFrom;
  }

  lemma {:induction false} PassesAppend(s: System, cfg: Config, n: nat)
    requires Sound(s)
    ensures var q := Passes(Silent(s), cfg, n); Passes(s, cfg, n) == q.(emitted := s.emitted + q.emitted)
    decreases n
  {
    hide Iterate;
    if n > 0 {
      var x, y := Iterate(s, cfg), Iterate(Silent(s), cfg);
      IterateSound(s, cfg);
      IterateSound(Silent(s), cfg);
      IterateAppends(s, cfg);
      PassesAppend(x, cfg, n - 1);
      PassesAppend(y, cfg, n - 1);
      assert Silent(x) == Silent(y);
      var q := Passes(Silent(x), cfg, n - 1);
      assert (s.emitted + y.emitted) + q.emitted == s.emitted + (y.emitted + q.emitted);
    }
  }

  lemma {:induction false} DrainPasses(s: System, t0: nat, cfg: Config) returns (n: nat)
    requires Inv(s, t0, cfg) && Sound(s)
    ensures Passes(s, cfg, n) == Drain(s, t0, cfg)
    decreases StageLeft(s), RecordsLeft(s), PassesLeft(s)
  {
    hide Inv, Iterate, Idle, StageLeft, RecordsLeft, PassesLeft;
    if Idle(s) {
      n := 0;
    } else {
      PassDecreases(s, t0, cfg);
      IterateInv(s, t0, cfg);
      n := DrainPasses(Iterate(s, cfg), t0, cfg);
      n := n + 1;
    }
  }

  /** A record is about to be fired. */
  predicate Firing(s: System) {
    var o := s.reader.spool;
    && o.Open? && o.file < |s.files| && o.phase == HeaderRead && s.reader.recordStart == 0
    && o.recordIdx < |s.files[o.file].recs|
  }

  function OutputsDue(s: System, cfg: Config): (r: seq<Fired>)
    requires Firing(s)
  {
    var o := s.reader.spool;
    Tagged(s.files[o.file].ext, Step(o.cache, s.files[o.file].recs[o.recordIdx], o.recordIdx, cfg).outputs)
  }

  /** Stopped after j of its outputs, before the bookmark is written, and started again. */
  function Crashed(s: System, cfg: Config, j: nat): System
    requires Firing(s) && j <= |OutputsDue(s, cfg)|
  {
    Restart(s).(emitted := s.emitted + OutputsDue(s, cfg)[..j])
  }

  /** A stop between the calls of the output plugins and the write of the bookmark repeats those
      outputs of the one record, at most two, and does no other harm: left alone, the reader comes
      to rest having emitted the whole log with just them in it twice. */
  lemma CrashRepeatsOneRecord(run: seq<System>, t0: nat, cfg: Config, n: nat, j: nat) returns (k: nat)
    requires IsRun(run, t0, cfg) && n < |run| && Firing(run[n]) && j <= |OutputsDue(run[n], cfg)|
    ensures j <= 2 && Sound(Crashed(run[n], cfg, j))
    ensures var s, d := run[n], Passes(Crashed(run[n], cfg, j), cfg, k);
            var log := WholeLog(s.files, FirstFrom(s.files, t0, 0), |s.files|, cfg);
            && Idle(d) && s.emitted + OutputsDue(s, cfg) <= log
            && d.emitted == s.emitted + OutputsDue(s, cfg)[..j] + log[|s.emitted|..]
  {
    hide Init, Next, Inv, Idle, Drain, WholeLog, FirstFrom, Passes, Step;
    var s := run[n];
    var r, c := Restart(s), Crashed(s, cfg, j);
    RunInv(run, t0, cfg, n);
    DueIsNext(s, t0, cfg);
    AtMostTwo(s, cfg);
    RestartInv(s, t0, cfg);
    InvIsSound(r, t0, cfg);
    k := DrainPasses(r, t0, cfg);
    IdleEmitted(Drain(r, t0, cfg), t0, cfg);
    PassesAppend(r, cfg, k);
    PassesAppend(c, cfg, k);
    IdleSame(Passes(r, cfg, k), Passes(c, cfg, k));
    var q, log := Passes(Silent(r), cfg, k), WholeLog(s.files, FirstFrom(s.files, t0, 0), |s.files|, cfg);
    assert Silent(c) == Silent(r);
    assert log == s.emitted + q.emitted;
    assert log[|s.emitted|..] == q.emitted;
  }

  lemma DueIsNext(s: System, t0: nat, cfg: Config)
    requires Inv(s, t0, cfg) && Firing(s)
    ensures s.emitted + OutputsDue(s, cfg) <= WholeLog(s.files, FirstFrom(s.files, t0, 0), |s.files|, cfg)
  {
    hide Bookmarked, Step, WholeLog, OutputsAfter, FirstFrom, LogTo;
    var a, o := FirstFrom(s.files, t0, 0), s.reader.spool;
    var f := s.files[o.file];
    LogStep(s.files, a, o.file, o.recordIdx, cfg);
    LogToInWhole(s.files, a, o.file, o.recordIdx + 1, cfg);
  }

  lemma AtMostTwo(s: System, cfg: Config)
    requires Firing(s)
    ensures |OutputsDue(s, cfg)| <= 2
  {
    hide Clean;
  }

  lemma IdleSame(a: System, b: System)
    requires Silent(a) == Silent(b)
    ensures Idle(a) == Idle(b)
  {
    hide FirstFrom;
    assert a.files == Silent(a).files == Silent(b).files == b.files;
    assert a.reader == Silent(a).reader == Silent(b).reader == b.reader;
  }
}
