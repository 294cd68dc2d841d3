/** The TCP option walker: kind, length, data (section 3.1 of RFC 793). */
module TcpOptions {
  import opened Octets

  const OPTLENMAX := 40

  const EOL: Octet := 0
  const NOP: Octet := 1
  const SACK: Octet := 5
  const AUTH: Octet := 29

  /** The length, kind and length byte included, that a kind must have; -1 if it varies. */
  function ExpectedLen(code: Octet): int {
    if code == 2 then 4            // MAXSEG
    else if code == 3 then 3       // WSCALE
    else if code == 4 then 2       // SACKOK
    else if code in {6, 7} then 6  // ECHO, ECHOREPLY
    else if code == 8 then 10      // TIMESTAMP
    else if code in {11, 12, 13} then 6  // CC, CC_NEW, CC_ECHO
    else if code == 18 then 3      // TRAILER_CSUM
    else if code == 19 then 18     // MD5SIG
    else -1
  }

  // ---- What an option list is ----

  datatype Opt = Opt(code: Octet, data: seq<Octet>)

  predicate IsPad(code: Octet) { code == EOL || code == NOP }

  predicate WellFormed(o: Opt) {
    if IsPad(o.code) then o.data == []
    else if ExpectedLen(o.code) > 0 then |o.data| + 2 == ExpectedLen(o.code)
    else |o.data| + 2 < 256 && (o.code == AUTH ==> |o.data| >= 2) && (o.code == SACK ==> |o.data| >= 1)
  }

  /** Nothing follows an end-of-list option. */
  predicate WellFormedList(opts: seq<Opt>) {
    && (forall k :: 0 <= k < |opts| ==> WellFormed(opts[k]))
    && (forall k :: 0 <= k < |opts| - 1 ==> opts[k].code != EOL)
  }

  function Serialise(o: Opt): (s: seq<Octet>)
    requires WellFormed(o)
    ensures |s| == if IsPad(o.code) then 1 else |o.data| + 2
  {
    if IsPad(o.code) then [o.code] else [o.code, |o.data| + 2] + o.data
  }

  function SerialiseAll(opts: seq<Opt>): (s: seq<Octet>)
    requires forall k :: 0 <= k < |opts| ==> WellFormed(opts[k])
    ensures |s| >= |opts|
  {
    if opts == [] then [] else Serialise(opts[0]) + SerialiseAll(opts[1..])
  }

  /** The kinds of a fixed length, with that length: maximum segment size, window scale, selective
      acknowledgement permitted, echo and echo reply, timestamp, the three connection counts, trailer
      checksum and MD5 signature. */
  const LENGTHS: map<Octet, nat> :=
    map[2 := 4, 3 := 3, 4 := 2, 6 := 6, 7 := 6, 8 := 10, 11 := 6, 12 := 6, 13 := 6, 18 := 3, 19 := 18]

  /** What the bytes of one option must look like. */
  predicate OptionBytes(b: seq<Octet>) {
    && b != []
    && if b[0] <= 1 then |b| == 1
       else
         && |b| >= 2 && b[1] == |b|
         && (b[0] in LENGTHS ==> |b| == LENGTHS[b[0]])
         && (b[0] == 5 ==> |b| >= 3)
         && (b[0] == 29 ==> |b| >= 4)
  }

  /** The well-formed options are those whose bytes are in order. */
  lemma WellFormedIsBytes(code: Octet, data: seq<Octet>)
    ensures WellFormed(Opt(code, data))
            <==> if code <= 1 then data == []
                 else |data| < 254 && OptionBytes([code, |data| + 2] + data)
  {
    LengthsAre(code);
  }

  lemma LengthsAre(code: Octet)
    ensures ExpectedLen(code) == if code in LENGTHS then LENGTHS[code] else -1
  {
  }

  /** Any such bytes are those of an option. */
  lemma BytesAreOption(b: seq<Octet>) returns (o: Opt)
    requires OptionBytes(b)
    ensures WellFormed(o) && Serialise(o) == b
  {
    o := Opt(b[0], if b[0] <= 1 then [] else b[2..]);
    LengthsAre(b[0]);
    if b[0] > 1 {
      WellFormedIsBytes(b[0], b[2..]);
      assert b == [b[0], |b[2..]| + 2] + b[2..];
    }
  }

  // ---- The walker, as a function of the option area ----

  datatype Check = Good(len: nat) | Truncated | BadLength

  /** The length byte against the expected length and the bytes that are there. */
  function Validate(area: seq<Octet>, at: nat, expected: int): (c: Check)
    ensures c.Good? ==> 2 <= c.len < 256 && at + c.len <= |area|
  {
    if at + 1 >= |area| then Truncated
    else if area[at + 1] == 0 || expected == 0 || expected == 1 then BadLength
    else if expected > 1 then
      if at + expected > |area| then Truncated
      else if area[at + 1] != expected then BadLength
      else Good(area[at + 1])
    else if area[at + 1] < 2 then BadLength
    else if at + area[at + 1] > |area| then Truncated
    else Good(area[at + 1])
  }

  function CheckAt(area: seq<Octet>, at: nat): (c: Check)
    requires at < |area|
    ensures c.Good? ==> 0 < c.len && at + c.len <= |area|
  {
    var code := area[at];
    if IsPad(code) then Good(1)
    else if code == AUTH && at + 1 < |area| && area[at + 1] < 4 then BadLength
    else
      var c := Validate(area, at, ExpectedLen(code));
      if code == SACK && c == Good(2) then BadLength else c
  }

  function OptAt(area: seq<Octet>, at: nat, len: nat): Opt
    requires 0 < len && at + len <= |area|
  {
    Opt(area[at], if len <= 2 then [] else area[at + 2..at + len])
  }

  /** The options from place at on, where the walk ends, and why. */
  datatype Walked = Walked(opts: seq<Opt>, end: nat, stopped: Check)

  function Walk(area: seq<Octet>, at: nat): (w: Walked)
    requires at <= |area|
    ensures at <= w.end <= |area|
    decreases |area| - at
  {
    if at == |area| then Walked([], at, Good(0))
    else
      var c := CheckAt(area, at);
      if !c.Good? then Walked([], at, c)
      else
        var o := OptAt(area, at, c.len);
        if o.code == EOL then Walked([o], at + 1, Good(0))
        else
          var rest := Walk(area, at + c.len);
          rest.(opts := [o] + rest.opts)
  }

  // ---- The packet, and the code ----

  datatype Data = Null | At(offset: nat)

  datatype Entry = Entry(code: Octet, len: nat, data: Data)

  /** What an entry records: its data is a slice of the option area. */
  predicate InBounds(e: Entry, area: seq<Octet>) {
    match e.data
    case Null => e.len == 0
    case At(offset) => offset + e.len <= |area|
  }

  function Recorded(e: Entry, area: seq<Octet>): Opt
    requires InBounds(e, area)
  {
    Opt(e.code, if e.data.Null? then [] else area[e.data.offset..e.data.offset + e.len])
  }

  predicate Records(entries: seq<Entry>, opts: seq<Opt>, area: seq<Octet>) {
    && |entries| == |opts|
    && forall k :: 0 <= k < |opts| ==> InBounds(entries[k], area) && Recorded(entries[k], area) == opts[k]
  }

  lemma RecordsMore(entries: seq<Entry>, opts: seq<Opt>, area: seq<Octet>, e: Entry, o: Opt)
    requires Records(entries, opts, area) && InBounds(e, area) && Recorded(e, area) == o
    ensures Records(entries + [e], opts + [o], area)
  {
  }

  lemma WalkOne(area: seq<Octet>, at: nat)
    requires at < |area|
    ensures var c := CheckAt(area, at);
            && (!c.Good? ==> Walk(area, at).opts == [])
            && (c.Good? ==> var o := OptAt(area, at, c.len);
                            Walk(area, at).opts == [o] + if o.code == EOL then [] else Walk(area, at + c.len).opts)
  {
    hide CheckAt, OptAt;
  }

  // The whole walk, as the options done so far and those still to come.
  predicate Continues(area: seq<Octet>, done: seq<Opt>, stop: bool, at: nat)
    requires at <= |area|
  {
    Walk(area, 0).opts == done + if stop then [] else Walk(area, at).opts
  }

  lemma ContinuesFromStart(area: seq<Octet>)
    ensures Continues(area, [], false, 0)
  {
    assert [] + Walk(area, 0).opts == Walk(area, 0).opts;
  }

  lemma ContinuesStep(area: seq<Octet>, done: seq<Opt>, at: nat)
    requires at < |area| && Continues(area, done, false, at)
    ensures var c := CheckAt(area, at);
            && (!c.Good? ==> Walk(area, 0).opts == done)
            && (c.Good? ==> var o := OptAt(area, at, c.len);
                            Continues(area, done + [o], o.code == EOL, at + c.len))
  {
    hide CheckAt, OptAt, Walk;
    WalkOne(area, at);
    var c := CheckAt(area, at);
    if c.Good? {
      var o, rest := OptAt(area, at, c.len), Walk(area, at + c.len).opts;
      assert done + ([o] + rest) == (done + [o]) + rest;
    }
  }

  lemma ContinuesToEnd(area: seq<Octet>, done: seq<Opt>, stop: bool, at: nat)
    requires at <= |area| && Continues(area, done, stop, at) && (stop || at == |area|)
    ensures Walk(area, 0).opts == done
  {
    assert done + [] == done;
  }

  ghost predicate Holds(options: array<Entry>, n: nat, opts: seq<Opt>, area: seq<Octet>)
    reads options
  {
    n <= options.Length && Records(options[..n], opts, area)
  }

  lemma HoldsNone(options: array<Entry>, area: seq<Octet>)
    ensures Holds(options, 0, [], area)
  {
  }

  class Packet {
    var tcph: bool                 // whether there is a TCP header
    const options: array<Entry>
    var optionCount: nat

    ghost predicate Valid()
      reads this, options
    {
      options.Length == OPTLENMAX && optionCount <= OPTLENMAX
    }

    constructor ()
      ensures Valid() && tcph && optionCount == 0 && fresh(options)
    {
      tcph, optionCount := true, 0;
      options := new Entry[OPTLENMAX](_ => Entry(0, 0, Null));
    }

    method OptLenValidate(area: seq<Octet>, at: nat, expected: int, slot: nat) returns (c: Check)
      requires Valid() && at < |area| && slot < OPTLENMAX
      modifies options
      ensures c == Validate(area, at, expected)
      ensures forall k :: 0 <= k < OPTLENMAX && k != slot ==> options[k] == old(options[k])
      ensures options[slot].code == old(options[slot].code)
      ensures c.Good? ==>
                options[slot].len == c.len - 2 && options[slot].data == if c.len == 2 then Null else At(at + 2)
    {
      if at + 1 >= |area| {
        return Truncated;
      }
      var n := area[at + 1];
      if n == 0 || expected == 0 || expected == 1 {
        return BadLength;
      } else if expected > 1 {
        if at + expected > |area| {
          return Truncated;
        }
        if n != expected {
          return BadLength;
        }
      } else {
        if n < 2 {
          return BadLength;
        }
        if at + n > |area| {
          return Truncated;
        }
      }
      options[slot] := options[slot].(len := n - 2, data := if n == 2 then Null else At(at + 2));
      c := Good(n);
    }

    // One turn of the walk: the option at this place goes into the slot.
    method DecodeOption(area: seq<Octet>, at: nat, slot: nat) returns (c: Check)
      requires Valid() && at < |area| && slot < OPTLENMAX
      modifies options
      ensures c == CheckAt(area, at)
      ensures forall k :: 0 <= k < OPTLENMAX && k != slot ==> options[k] == old(options[k])
      ensures c.Good? ==> InBounds(options[slot], area) && Recorded(options[slot], area) == OptAt(area, at, c.len)
    {
      var code := area[at];
      options[slot] := options[slot].(code := code);
      if code == EOL || code == NOP {
        options[slot] := options[slot].(len := 0, data := Null);
        c := Good(1);
      } else if code == AUTH {
        if at + 1 < |area| && area[at + 1] < 4 {
          c := BadLength;
        } else {
          c := OptLenValidate(area, at, -1, slot);
        }
      } else if code == SACK {
        c := OptLenValidate(area, at, -1, slot);
        if c.Good? && options[slot].data == Null {
          c := BadLength;
        }
      } else {
        c := OptLenValidate(area, at, ExpectedLen(code), slot);
      }
    }

    // ... and adds to the options recorded so far.
    method RecordOption(area: seq<Octet>, at: nat, slot: nat, ghost done: seq<Opt>) returns (c: Check)
      requires Valid() && at < |area| && slot < OPTLENMAX && Holds(options, slot, done, area)
      modifies options
      ensures c == CheckAt(area, at)
      ensures c.Good? ==> var o := OptAt(area, at, c.len);
                          Holds(options, slot + 1, done + [o], area) && options[slot].code == o.code
      ensures !c.Good? ==> Holds(options, slot, done, area)
    {
      hide CheckAt, OptAt, InBounds, Records;
      ghost var before := options[..slot];
      c := DecodeOption(area, at, slot);
      assert options[..slot] == before;
      if c.Good? {
        assert options[..slot + 1] == before + [options[slot]];
        RecordsMore(before, done, area, options[slot], OptAt(area, at, c.len));
      }
    }

    /** The options of the area up to the first bad one are recorded, whatever the area holds. */
    method DecodeTCPOptions(area: seq<Octet>)
      requires Valid()
      modifies this, options
      ensures Valid()
      ensures |area| > OPTLENMAX ==> !tcph && optionCount == old(optionCount) && options[..] == old(options[..])
      ensures |area| <= OPTLENMAX ==> tcph == old(tcph) && Holds(options, optionCount, Walk(area, 0).opts, area)
    {
      hide Walk, OptAt, CheckAt, Holds, Continues;
      if |area| > OPTLENMAX {
        tcph := false;
        return;
      }
      HoldsNone(options, area);
      ContinuesFromStart(area);
      ghost var done: seq<Opt> := [];
      var optionPtr, count, stop := 0, 0, false;
      while optionPtr < |area| && count < OPTLENMAX && !stop
        invariant Valid() && optionPtr <= |area| && count <= optionPtr && tcph == old(tcph)
        invariant Holds(options, count, done, area)
        invariant Continues(area, done, stop, optionPtr)
      {
        ContinuesStep(area, done, optionPtr);
        var c := RecordOption(area, optionPtr, count, done);
        if !c.Good? {
          optionCount := count;
          return;
        }
        done := done + [OptAt(area, optionPtr, c.len)];
        stop := options[count].code == EOL;
        count := count + 1;
        optionPtr := optionPtr + c.len;
      }
      ContinuesToEnd(area, done, stop, optionPtr);
      optionCount := count;
    }
  }

  // ---- What the walk means ----

  // Exactly the serialisations of well-formed options pass the check.
  lemma CheckMeansWellFormed(area: seq<Octet>, at: nat)
    requires at < |area| && CheckAt(area, at).Good?
    ensures var o := OptAt(area, at, CheckAt(area, at).len);
            WellFormed(o) && Serialise(o) == area[at..at + CheckAt(area, at).len]
  {
    var n := CheckAt(area, at).len;
    if !IsPad(area[at]) {
      assert area[at..at + n] == [area[at], area[at + 1]] + area[at + 2..at + n];
    }
  }

  lemma WellFormedPassesCheck(area: seq<Octet>, at: nat, o: Opt)
    requires at <= |area| && WellFormed(o) && Serialise(o) <= area[at..]
    ensures at < |area| && CheckAt(area, at) == Good(|Serialise(o)|) && OptAt(area, at, |Serialise(o)|) == o
  {
    var s, rest := Serialise(o), area[at..];
    assert area[at] == rest[0] == s[0];
    if !IsPad(o.code) {
      assert area[at + 1] == rest[1] == s[1];
      assert area[at + 2..at + |s|] == rest[2..|s|] == s[2..] == o.data;
    }
  }

  lemma {:induction false} SerialiseCons(o: Opt, opts: seq<Opt>)
    requires WellFormed(o) && forall k :: 0 <= k < |opts| ==> WellFormed(opts[k])
    ensures SerialiseAll([o] + opts) == Serialise(o) + SerialiseAll(opts)
  {
    assert ([o] + opts)[1..] == opts;
  }

  /** The recorded options re-serialise to exactly the bytes that were walked over, and form a list
      that is well formed in every kind and length. */
  lemma {:induction false} WalkReserialises(area: seq<Octet>, at: nat)
    requires at <= |area|
    ensures var w := Walk(area, at);
            WellFormedList(w.opts) && SerialiseAll(w.opts) == area[at..w.end]
    decreases |area| - at
  {
    hide CheckAt, OptAt, WellFormed, Serialise, SerialiseAll;
    if at < |area| && CheckAt(area, at).Good? {
      var n := CheckAt(area, at).len;
      var o := OptAt(area, at, n);
      CheckMeansWellFormed(area, at);
      if o.code == EOL {
        SerialiseOne(o);
        EolIsOne(area, at);
      } else {
        var rest := Walk(area, at + n);
        WalkReserialises(area, at + n);
        SerialiseCons(o, rest.opts);
        assert area[at..rest.end] == area[at..at + n] + area[at + n..rest.end];
      }
    } else {
      SerialiseNone();
    }
  }

  lemma SerialiseNone()
    ensures SerialiseAll([]) == []
  {
  }

  lemma SerialiseOne(o: Opt)
    requires WellFormed(o)
    ensures SerialiseAll([o]) == Serialise(o)
  {
    assert [o][1..] == [];
  }

  lemma EolIsOne(area: seq<Octet>, at: nat)
    requires at < |area|
    ensures CheckAt(area, at).Good? && OptAt(area, at, CheckAt(area, at).len).code == EOL ==> CheckAt(area, at).len == 1
  {
  }

  /** The walk stops only at the end of the area, after an end-of-list option, or where no
      well-formed option starts that fits the bytes that are left. */
  lemma {:induction false} WalkIsMaximal(area: seq<Octet>, at: nat, o: Opt)
    requires at <= |area| && WellFormed(o)
    ensures var w := Walk(area, at);
      && (w.stopped.Good? <==> w.end == |area| || (w.opts != [] && w.opts[|w.opts| - 1].code == EOL))
      && (!w.stopped.Good? ==> !(Serialise(o) <= area[w.end..]))
    decreases |area| - at
  {
    hide CheckAt, OptAt, WellFormed, Serialise;
    if at < |area| {
      if !CheckAt(area, at).Good? {
        if Serialise(o) <= area[at..] {
          WellFormedPassesCheck(area, at, o);
        }
      } else if OptAt(area, at, CheckAt(area, at).len).code != EOL {
        WalkIsMaximal(area, at + CheckAt(area, at).len, o);
      }
    }
  }

  // What a walk finds after a list: nothing, if the list ended it.
  function After(area: seq<Octet>, opts: seq<Opt>, at: nat): seq<Opt>
    requires at <= |area|
  {
    if opts != [] && opts[|opts| - 1].code == EOL then [] else Walk(area, at).opts
  }

  lemma Uncons(opts: seq<Opt>)
    requires WellFormedList(opts) && opts != []
    ensures WellFormedList(opts[1..]) && opts == [opts[0]] + opts[1..]
    ensures SerialiseAll(opts) == Serialise(opts[0]) + SerialiseAll(opts[1..])
    ensures opts[0].code == EOL ==> opts[1..] == [] && SerialiseAll(opts) == Serialise(opts[0])
  {
    hide WellFormed, Serialise;
  }

  lemma AfterCons(area: seq<Octet>, opts: seq<Opt>, at: nat)
    requires at <= |area| && opts != [] && opts[0].code != EOL
    ensures After(area, opts, at) == After(area, opts[1..], at)
  {
    hide Walk;
  }

  lemma Regroup(o: Opt, more: seq<Opt>, rest: seq<Opt>)
    ensures [o] + (more + rest) == ([o] + more) + rest
  {
  }

  /** Decoding the serialisation of any well-formed list gives the list back, whatever follows an
      end-of-list option; without one, the walk goes on with what follows. */
  lemma {:induction false} SerialiseWalk(area: seq<Octet>, at: nat, opts: seq<Opt>)
    requires WellFormedList(opts) && at <= |area| && SerialiseAll(opts) <= area[at..]
    ensures at + |SerialiseAll(opts)| <= |area|
    ensures Walk(area, at).opts == opts + After(area, opts, at + |SerialiseAll(opts)|)
    decreases |opts|
  {
    hide CheckAt, OptAt, WellFormed, Serialise, Walk;
    if opts == [] {
      assert opts + Walk(area, at).opts == Walk(area, at).opts;
    } else {
      SerialiseWalkCons(area, at, opts);
    }
  }

  lemma {:induction false} SerialiseWalkCons(area: seq<Octet>, at: nat, opts: seq<Opt>)
    requires WellFormedList(opts) && opts != [] && at <= |area| && SerialiseAll(opts) <= area[at..]
    ensures at + |SerialiseAll(opts)| <= |area|
    ensures Walk(area, at).opts == opts + After(area, opts, at + |SerialiseAll(opts)|)
    decreases |opts|, 0
  {
    hide CheckAt, OptAt, WellFormed, Serialise, Walk, SerialiseAll;
    var o, s, more := opts[0], Serialise(opts[0]), opts[1..];
    Uncons(opts);
    PrefixParts(s, SerialiseAll(more), area, at);
    WellFormedPassesCheck(area, at, o);
    WalkOne(area, at);
    if o.code != EOL {
      hide After;
      var end := at + |SerialiseAll(opts)|;
      SerialiseWalk(area, at + |s|, more);
      AfterCons(area, opts, end);
      Regroup(o, more, After(area, opts, end));
    }
  }

  lemma PrefixParts(s: seq<Octet>, t: seq<Octet>, area: seq<Octet>, at: nat)
    requires at <= |area| && s + t <= area[at..]
    ensures s <= area[at..] && at + |s| <= |area| && t <= area[at + |s|..]
  {
    var rest := area[at..];
    assert s == (s + t)[..|s|] == rest[..|s|];
    assert t == (s + t)[|s|..] == rest[|s|..|s| + |t|];
    assert rest[|s|..] == area[at + |s|..];
  }

  /** The round trip: an area that holds the serialisation of a well-formed list and nothing else
      decodes to that list. */
  lemma OptionsRoundTrip(opts: seq<Opt>)
    requires WellFormedList(opts)
    ensures Walk(SerialiseAll(opts), 0).opts == opts
  {
    hide WellFormed, Serialise, CheckAt, OptAt;
    var all := SerialiseAll(opts);
    assert all[0..] == all;
    SerialiseWalk(all, 0, opts);
    assert After(all, opts, |all|) == [];
  }

  /** The other way: two areas that are walked to the same options agree on every byte walked over. */
  lemma WalkDetermines(a: seq<Octet>, b: seq<Octet>)
    requires Walk(a, 0).opts == Walk(b, 0).opts
    ensures a[..Walk(a, 0).end] == b[..Walk(b, 0).end]
  {
    WalkReserialises(a, 0);
    WalkReserialises(b, 0);
  }

  /** The cap on the number of options never cuts a walk short: every option takes a byte. */
  lemma CapNeverCuts(area: seq<Octet>)
    requires |area| <= OPTLENMAX
    ensures |Walk(area, 0).opts| <= Walk(area, 0).end <= OPTLENMAX
  {
    WalkReserialises(area, 0);
  }
}
