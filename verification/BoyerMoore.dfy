/** Substring search: the naive scan, and the Boyer-Moore search with its two tables. */
module BoyerMoore {

  import opened Octets

  ghost predicate Occurs(buf: seq<Octet>, pat: seq<Octet>, i: int) {
    0 <= i && i + |pat| <= |buf| && buf[i..i + |pat|] == pat
  }

  /** The specification of every search: pat occurs somewhere in buf. */
  ghost predicate Contains(buf: seq<Octet>, pat: seq<Octet>) {
    exists i :: Occurs(buf, pat, i)
  }

  // ---- The tables ----

  /** The last index of c in pat, or -1. */
  function LastIndex(pat: seq<Octet>, c: Octet): (k: int)
    ensures -1 <= k < |pat|
    ensures k >= 0 ==> pat[k] == c
    ensures forall j :: k < j < |pat| ==> pat[j] != c
  {
    if pat == [] then -1
    else if pat[|pat| - 1] == c then |pat| - 1
    else LastIndex(pat[..|pat| - 1], c)
  }

  ghost predicate SkipTable(pat: seq<Octet>, skip: seq<int>) {
    |skip| == 256 && forall c: Octet :: skip[c] == |pat| - LastIndex(pat, c)
  }

  method MakeSkip(ptrn: seq<Octet>) returns (skip: array<int>)
    ensures fresh(skip) && SkipTable(ptrn, skip[..])
  {
    var plen := |ptrn|;
    skip := new int[256];
    var i := 0;
    while i < 256
      invariant 0 <= i <= 256 && forall c :: 0 <= c < i ==> skip[c] == plen + 1
    {
      skip[i] := plen + 1;
      i := i + 1;
    }
    var k := 0;
    while plen != 0
      invariant 0 <= k <= |ptrn| && plen == |ptrn| - k
      invariant forall c: Octet :: skip[c] == |ptrn| - LastIndex(ptrn[..k], c)
    {
      assert ptrn[..k + 1][..k] == ptrn[..k];
      skip[ptrn[k]] := plen;
      k, plen := k + 1, plen - 1;
    }
    assert ptrn[..k] == ptrn;
  }

  /** Moved by d, the pattern would put a different byte under some matched byte: after a
      mismatch at m the text agrees with pat past m, so no occurrence starts at displacement d. */
  ghost predicate Contradicts(pat: seq<Octet>, m: int, d: int) {
    exists i :: 0 <= m < i < |pat| && 0 <= i - d < |pat| && pat[i - d] != pat[i]
  }

  /** A safe displacement after a mismatch at m: every smaller one is contradicted. */
  ghost predicate Safe(pat: seq<Octet>, m: int, d: int) {
    forall e :: 1 <= e < d ==> Contradicts(pat, m, e)
  }

  // Entries hold the stride of the buffer index, which has moved back by |pat| - m.
  ghost predicate ShiftEntry(pat: seq<Octet>, m: int, stride: int)
    requires 0 <= m < |pat|
  {
    if m == |pat| - 1 then stride == 1
    else var d := stride - (|pat| - m); 1 <= d <= |pat| - 1 && Safe(pat, m, d)
  }

  ghost predicate ShiftTable(pat: seq<Octet>, shift: seq<int>) {
    |shift| == |pat| && forall m :: 0 <= m < |pat| ==> ShiftEntry(pat, m, shift[m])
  }

  method MakeShift(ptrn: seq<Octet>) returns (shift: array<int>)
    requires 0 < |ptrn|
    ensures fresh(shift) && ShiftTable(ptrn, shift[..])
  {
    var plen := |ptrn|;
    shift := new int[plen];
    var sptr, pptr := plen - 1, plen - 1;
    var c := ptrn[plen - 1];
    shift[sptr] := 1;
    while sptr != 0
      invariant 0 <= sptr < plen && pptr == sptr
      invariant forall m :: sptr <= m < plen ==> ShiftEntry(ptrn, m, shift[m])
    {
      sptr := sptr - 1;
      var p2, p3 := Candidate(ptrn, c, pptr);
      shift[sptr] := plen - sptr + p2 - p3;
      pptr := pptr - 1;
    }
  }

  // The do-while loop: candidate positions of the last byte, from the right, until the matched
  // suffix (from pptr) is not seen to differ. It also stops when the difference is found at
  // pptr itself or at the first byte of the pattern, so it may accept too early.
  method Candidate(ptrn: seq<Octet>, c: Octet, pptr: int) returns (p2: int, p3: int)
    requires 0 < pptr < |ptrn| && c == ptrn[|ptrn| - 1]
    ensures 1 <= p2 - p3 <= |ptrn| - 1 && Safe(ptrn, pptr - 1, p2 - p3)
  {
    var plen := |ptrn|;
    var p1 := plen - 2;
    while true
      invariant 0 <= p1 <= plen - 2
      invariant Safe(ptrn, pptr - 1, plen - 1 - p1)
      decreases p1
    {
      p1 := NextCandidate(ptrn, c, pptr, p1);
      p2 := plen - 2;
      p3 := p1;
      while p3 >= 0
        invariant -1 <= p3 <= p1 && p2 - p3 == plen - 2 - p1 && pptr - 1 <= p2
        decreases p3
      {
        var differ := ptrn[p3] != ptrn[p2];
        p3 := p3 - 1;
        p2 := p2 - 1;
        if differ || p2 < pptr {
          assert differ && p2 >= pptr ==> Contradicts(ptrn, pptr - 1, p2 - p3) by {
            assert differ ==> ptrn[p2 + 1 - (p2 - p3)] != ptrn[p2 + 1];
          }
          break;
        }
      }
      if p3 < 0 || p2 < pptr {
        break;
      }
    }
  }

  method NextCandidate(ptrn: seq<Octet>, c: Octet, pptr: int, start: int) returns (p1: int)
    requires 0 < pptr < |ptrn| && c == ptrn[|ptrn| - 1] && 0 <= start <= |ptrn| - 2
    requires Safe(ptrn, pptr - 1, |ptrn| - 1 - start)
    ensures -1 <= p1 < start && Safe(ptrn, pptr - 1, |ptrn| - 2 - p1)
  {
    p1 := start;
    var found := false;
    while p1 >= 0 && !found
      invariant -1 <= p1 <= start && (found ==> p1 < start)
      invariant Safe(ptrn, pptr - 1, if found then |ptrn| - 2 - p1 else |ptrn| - 1 - p1)
      decreases p1, !found
    {
      found := ptrn[p1] == c;
      assert !found ==> Contradicts(ptrn, pptr - 1, |ptrn| - 1 - p1) by {
        var i := |ptrn| - 1;
        assert !found ==> ptrn[i - (|ptrn| - 1 - p1)] != ptrn[i];
      }
      p1 := p1 - 1;
    }
  }

  // ---- The searches ----

  ghost predicate NoneBefore(buf: seq<Octet>, pat: seq<Octet>, s: int) {
    forall i :: 0 <= i < s ==> !Occurs(buf, pat, i)
  }

  /** The window at s agrees with pat past m and differs from it at m. */
  ghost predicate MismatchAt(buf: seq<Octet>, pat: seq<Octet>, s: int, m: int) {
    && 0 <= s && 0 <= m < |pat| && s + |pat| <= |buf|
    && (forall i :: m < i < |pat| ==> buf[s + i] == pat[i])
    && buf[s + m] != pat[m]
  }

  lemma OccursAt(buf: seq<Octet>, pat: seq<Octet>, i: int, j: int)
    requires Occurs(buf, pat, i) && 0 <= j < |pat|
    ensures buf[i + j] == pat[j]
  {
    assert buf[i..i + |pat|][j] == pat[j];
  }

  /** One step of the search: the larger of the two strides moves the window forward by at
      least one and past no occurrence. */
  lemma StepSafe(buf: seq<Octet>, pat: seq<Octet>, skip: seq<int>, shift: seq<int>, s: int, m: int)
    requires MismatchAt(buf, pat, s, m) && SkipTable(pat, skip) && ShiftTable(pat, shift)
    ensures var stride := if skip[buf[s + m]] > shift[m] then skip[buf[s + m]] else shift[m];
            var next := s + m + stride - |pat|;
            s < next && forall i :: s <= i < next ==> !Occurs(buf, pat, i)
  {
    var c := buf[s + m];
    var stride := if skip[c] > shift[m] then skip[c] else shift[m];
    var next := s + m + stride - |pat|;
    assert LastIndex(pat, c) != m;
    assert ShiftEntry(pat, m, shift[m]);
    forall i | s <= i < next
      ensures !Occurs(buf, pat, i)
    {
      var d := i - s;
      if 1 <= d && m - LastIndex(pat, c) <= d {
        assert Safe(pat, m, shift[m] - (|pat| - m));
        Excluded(buf, pat, s, m, d);
      } else if Occurs(buf, pat, i) {
        OccursAt(buf, pat, i, m - d);
      }
    }
  }

  lemma Excluded(buf: seq<Octet>, pat: seq<Octet>, s: int, m: int, d: int)
    requires MismatchAt(buf, pat, s, m) && Contradicts(pat, m, d)
    ensures !Occurs(buf, pat, s + d)
  {
    var k :| 0 <= m < k < |pat| && 0 <= k - d < |pat| && pat[k - d] != pat[k];
    if Occurs(buf, pat, s + d) {
      OccursAt(buf, pat, s + d, k - d);
    }
  }

  lemma TableSizes(pat: seq<Octet>, skip: seq<int>, shift: seq<int>)
    requires SkipTable(pat, skip) && ShiftTable(pat, shift)
    ensures |skip| == 256 && |shift| == |pat|
  {
  }

  method Search(buf: seq<Octet>, ptrn: seq<Octet>, skip: array<int>, shift: array<int>) returns (r: bool)
    requires ptrn != [] ==> SkipTable(ptrn, skip[..]) && ShiftTable(ptrn, shift[..])
    ensures r <==> Contains(buf, ptrn)
  {
    hide SkipTable, ShiftTable;
    var blen, plen := |buf|, |ptrn|;
    var bIdx := plen;
    if plen == 0 {
      assert Occurs(buf, ptrn, 0);
      return true;
    }
    TableSizes(ptrn, skip[..], shift[..]);
    while bIdx <= blen
      invariant plen <= bIdx && NoneBefore(buf, ptrn, bIdx - plen)
      decreases blen + plen - bIdx
    {
      ghost var s := bIdx - plen;
      var pIdx := plen - 1;
      bIdx := bIdx - 1;
      while buf[bIdx] == ptrn[pIdx]
        invariant 0 <= pIdx < plen && bIdx == s + pIdx
        invariant forall i :: pIdx < i < plen ==> buf[s + i] == ptrn[i]
        decreases pIdx
      {
        if bIdx < 0 {
          return false;
        }
        if pIdx == 0 {
          assert Occurs(buf, ptrn, s);
          return true;
        }
        pIdx := pIdx - 1;
        bIdx := bIdx - 1;
      }
      StepSafe(buf, ptrn, skip[..], shift[..], s, pIdx);
      var skipStride := skip[buf[bIdx]];
      var shiftStride := shift[pIdx];
      bIdx := bIdx + if skipStride > shiftStride then skipStride else shiftStride;
    }
    return false;
  }

  function ToUpper(c: Octet): Octet { if 97 <= c <= 122 then c - 32 else c }

  function Upper(buf: seq<Octet>): (r: seq<Octet>)
    ensures |r| == |buf|
  {
    seq(|buf|, i requires 0 <= i < |buf| => ToUpper(buf[i]))
  }

  const LOWER_CASE: string := "abcdefghijklmnopqrstuvwxyz"
  const UPPER_CASE: string := "ABCDEFGHIJKLMNOPQRSTUVWXYZ"

  /** Only the letters of the alphabet are changed, each to its capital. */
  lemma ToUpperIsText(c: Octet)
    ensures forall i :: 0 <= i < 26 ==> LOWER_CASE[i] as int == c ==> ToUpper(c) == UPPER_CASE[i] as int
    ensures (forall i :: 0 <= i < 26 ==> LOWER_CASE[i] as int != c) ==> ToUpper(c) == c
  {
    LettersInOrder();
    if 97 <= c <= 122 {
      assert LOWER_CASE[c - 97] as int == c;
    }
  }

  lemma LettersInOrder()
    ensures forall i :: 0 <= i < 26 ==> LOWER_CASE[i] as int == 97 + i && UPPER_CASE[i] as int == 65 + i
  {
  }

  lemma UpperBytes(buf: seq<Octet>)
    ensures forall i :: 0 <= i < |buf| ==> Upper(buf)[i] == ToUpper(buf[i])
  {
  }

  /** The case-insensitive search is the search of the upper-cased buffer. */
  method SearchCI(buf: seq<Octet>, ptrn: seq<Octet>, skip: array<int>, shift: array<int>) returns (r: bool)
    requires ptrn != [] ==> SkipTable(ptrn, skip[..]) && ShiftTable(ptrn, shift[..])
    ensures r <==> Contains(Upper(buf), ptrn)
  {
    hide SkipTable, ShiftTable, Upper, ToUpper;
    ghost var upper := Upper(buf);
    UpperBytes(buf);
    var blen, plen := |buf|, |ptrn|;
    var bIdx := plen;
    if plen == 0 {
      assert Occurs(upper, ptrn, 0);
      return true;
    }
    TableSizes(ptrn, skip[..], shift[..]);
    while bIdx <= blen
      invariant plen <= bIdx && NoneBefore(upper, ptrn, bIdx - plen)
      decreases blen + plen - bIdx
    {
      ghost var s := bIdx - plen;
      var pIdx := plen - 1;
      bIdx := bIdx - 1;
      while ptrn[pIdx] == ToUpper(buf[bIdx])
        invariant 0 <= pIdx < plen && bIdx == s + pIdx
        invariant forall i :: pIdx < i < plen ==> upper[s + i] == ptrn[i]
        decreases pIdx
      {
        if pIdx == 0 {
          assert Occurs(upper, ptrn, s);
          return true;
        }
        pIdx := pIdx - 1;
        bIdx := bIdx - 1;
      }
      StepSafe(upper, ptrn, skip[..], shift[..], s, pIdx);
      var skipStride := skip[ToUpper(buf[bIdx])];
      var shiftStride := shift[pIdx];
      bIdx := bIdx + if skipStride > shiftStride then skipStride else shiftStride;
    }
    return false;
  }

  lemma WindowGrows(buf: seq<Octet>, pat: seq<Octet>, s: nat, n: nat)
    requires n < |pat| && s + n < |buf| && buf[s..s + n] == pat[..n] && buf[s + n] == pat[n]
    ensures buf[s..s + n + 1] == pat[..n + 1]
    ensures n + 1 == |pat| ==> Occurs(buf, pat, s)
  {
    assert buf[s..s + n + 1] == buf[s..s + n] + [buf[s + n]] == pat[..n] + [pat[n]] == pat[..n + 1];
    assert n + 1 == |pat| ==> pat[..n + 1] == pat;
  }

  lemma NoneBeforeNext(buf: seq<Octet>, pat: seq<Octet>, s: nat, n: nat)
    requires NoneBefore(buf, pat, s) && n < |pat| && s + n < |buf| && buf[s + n] != pat[n]
    ensures NoneBefore(buf, pat, s + 1)
  {
    hide Occurs;
    if Occurs(buf, pat, s) {
      OccursAt(buf, pat, s, n);
    }
  }

  lemma NoneAtAll(buf: seq<Octet>, pat: seq<Octet>, s: nat, n: nat)
    requires NoneBefore(buf, pat, s) && n < |pat| && s + n >= |buf|
    ensures !Contains(buf, pat)
  {
  }

  /** The naive scan; it reads a byte of each argument before it looks at any length. */
  method ContainsSubstr(buf: seq<Octet>, pat: seq<Octet>) returns (r: bool)
    requires 0 < |buf| && 0 < |pat|
    ensures r <==> Contains(buf, pat)
  {
    hide Occurs, NoneBefore;
    var bIdx, pIdx, mCnt := 0, 0, 0;
    ghost var start := 0;
    NothingBefore(buf, pat);
    while true
      invariant 0 <= start <= bIdx < |buf| && pIdx == mCnt == bIdx - start && mCnt < |pat|
      invariant buf[start..bIdx] == pat[..mCnt]
      invariant NoneBefore(buf, pat, start)
      decreases |buf| - start, |buf| - bIdx
    {
      if pat[pIdx] == buf[bIdx] {
        WindowGrows(buf, pat, start, mCnt);
        if mCnt == |pat| - 1 {
          assert Occurs(buf, pat, start);
          return true;
        }
        mCnt := mCnt + 1;
        bIdx := bIdx + 1;
        pIdx := pIdx + 1;
      } else {
        NoneBeforeNext(buf, pat, start, mCnt);
        if mCnt == 0 {
          bIdx := bIdx + 1;
        } else {
          bIdx := bIdx - (mCnt - 1);
        }
        pIdx := 0;
        mCnt := 0;
        start := start + 1;
      }
      if bIdx >= |buf| {
        break;
      }
    }
    NoneAtAll(buf, pat, start, mCnt);
    return false;
  }

  lemma NothingBefore(buf: seq<Octet>, pat: seq<Octet>)
    ensures NoneBefore(buf, pat, 0)
  {
  }
}
