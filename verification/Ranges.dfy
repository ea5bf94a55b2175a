// Rune ranges of character classes: internal/coordination/glob.go.
//
// A list of ranges stands for the set of code points it covers. Each operation
// of the source is proved to be the exact set operation it is named after.
module Ranges {
  const MAX_RUNE: int := 0x10FFFF
  const SEPARATOR: int := 0x2F // '/'

  type Rune = r: int | 0 <= r <= MAX_RUNE

  // A bound may step one past the rune domain while ranges are being merged.
  datatype RuneRange = RuneRange(lo: int, hi: int)

  const NON_SEPARATOR: seq<RuneRange> :=
    [RuneRange(0, SEPARATOR - 1), RuneRange(SEPARATOR + 1, MAX_RUNE)]

  ghost predicate In(x: int, rs: seq<RuneRange>) {
    exists r :: r in rs && r.lo <= x <= r.hi
  }

  predicate WellFormed(rs: seq<RuneRange>) {
    forall r :: r in rs ==> r.lo <= r.hi
  }

  // Non-empty ranges in increasing order without a common point.
  predicate Ascending(rs: seq<RuneRange>) {
    && (forall i :: 0 <= i < |rs| ==> rs[i].lo <= rs[i].hi)
    && (forall i, j :: 0 <= i < j < |rs| ==> rs[i].hi < rs[j].lo)
  }

  // Ascending, and neighbours do not even touch: the unique shortest form of a set.
  predicate Canonical(rs: seq<RuneRange>) {
    && (forall i :: 0 <= i < |rs| ==> rs[i].lo <= rs[i].hi)
    && (forall i, j :: 0 <= i < j < |rs| ==> rs[i].hi + 1 < rs[j].lo)
  }

  lemma InSnoc(x: int, rs: seq<RuneRange>, r: RuneRange)
    ensures In(x, rs + [r]) <==> In(x, rs) || r.lo <= x <= r.hi
  {
    assert r in rs + [r];
  }

  lemma InConcat(x: int, a: seq<RuneRange>, b: seq<RuneRange>)
    ensures In(x, a + b) <==> In(x, a) || In(x, b)
  {
    if r :| r in a + b && r.lo <= x <= r.hi {
      assert r in a || r in b;
    }
    assert forall r :: r in a || r in b ==> r in a + b;
  }

  lemma InTake(x: int, rs: seq<RuneRange>, k: nat)
    requires k < |rs|
    ensures In(x, rs[..k + 1]) <==> In(x, rs[..k]) || rs[k].lo <= x <= rs[k].hi
  {
    assert rs[..k + 1] == rs[..k] + [rs[k]];
    InSnoc(x, rs[..k], rs[k]);
  }

  lemma NonSeparatorExact(x: int)
    ensures In(x, NON_SEPARATOR) <==> 0 <= x <= MAX_RUNE && x != SEPARATOR
  {
    assert NON_SEPARATOR[0] in NON_SEPARATOR && NON_SEPARATOR[1] in NON_SEPARATOR;
  }

  // ---- sort.Slice with the comparison normalizeRanges passes to it ----

  predicate Before(a: RuneRange, b: RuneRange) {
    a.lo < b.lo || (a.lo == b.lo && a.hi <= b.hi)
  }

  predicate Sorted(rs: seq<RuneRange>) {
    forall i, j :: 0 <= i < j < |rs| ==> Before(rs[i], rs[j])
  }

  method SortRanges(rs: seq<RuneRange>) returns (out: seq<RuneRange>)
    ensures Sorted(out)
    ensures multiset(out) == multiset(rs)
  {
    out := [];
    for k := 0 to |rs|
      invariant Sorted(out)
      invariant multiset(out) == multiset(rs[..k])
    {
      assert rs[..k + 1] == rs[..k] + [rs[k]];
      out := InsertRange(out, rs[k]);
    }
    assert rs[..|rs|] == rs;
  }

  method InsertRange(s: seq<RuneRange>, r: RuneRange) returns (out: seq<RuneRange>)
    requires Sorted(s)
    ensures Sorted(out) && multiset(out) == multiset(s) + multiset{r}
  {
    var p := 0;
    while p < |s| && Before(s[p], r)
      invariant 0 <= p <= |s|
      invariant AllBefore(s[..p], r)
    {
      p := p + 1;
    }
    assert s == s[..p] + s[p..];
    assert BeforeAll(r, s[p..]);
    SplicedSorted(s[..p], r, s[p..]);
    out := s[..p] + [r] + s[p..];
  }

  predicate AllBefore(s: seq<RuneRange>, r: RuneRange) {
    forall i :: 0 <= i < |s| ==> Before(s[i], r)
  }

  predicate BeforeAll(r: RuneRange, s: seq<RuneRange>) {
    forall i :: 0 <= i < |s| ==> Before(r, s[i])
  }

  lemma SplicedSorted(a: seq<RuneRange>, r: RuneRange, b: seq<RuneRange>)
    requires Sorted(a) && Sorted(b) && AllBefore(a, r) && BeforeAll(r, b)
    ensures Sorted(a + [r] + b)
  {
  }

  // ---- normalizeRanges ----

  method NormalizeRanges(ranges: seq<RuneRange>) returns (out: seq<RuneRange>)
    requires WellFormed(ranges)
    ensures Canonical(out)
    ensures forall x :: In(x, out) <==> In(x, ranges)
  {
    if |ranges| <= 1 {
      return ranges;
    }
    var cp := SortRanges(ranges);
    SameElements(ranges, cp);
    out := [];
    var current := cp[0];
    assert cp[..1] == [] + [current];
    for k := 1 to |cp|
      invariant Canonical(out + [current])
      invariant current.lo <= cp[k - 1].lo
      invariant forall x :: In(x, out + [current]) <==> In(x, cp[..k])
    {
      var rr := cp[k];
      assert Before(cp[k - 1], rr);
      ghost var before := out + [current];
      assert forall i :: 0 <= i < |out| ==> before[i] == out[i];
      assert before[|out|] == current;
      forall x
        ensures In(x, cp[..k + 1]) <==> In(x, out) || current.lo <= x <= current.hi || rr.lo <= x <= rr.hi
      {
        InTake(x, cp, k);
        InSnoc(x, out, current);
      }
      if rr.lo <= current.hi + 1 {
        if rr.hi > current.hi {
          current := RuneRange(current.lo, rr.hi);
        }
      } else {
        out := out + [current];
        current := rr;
      }
      forall x
        ensures In(x, out + [current]) <==> In(x, cp[..k + 1])
      {
        InSnoc(x, out, current);
        InSnoc(x, before[..|before| - 1], before[|before| - 1]);
      }
    }
    assert cp[..|cp|] == cp;
    out := out + [current];
  }

  lemma SameElements(a: seq<RuneRange>, b: seq<RuneRange>)
    requires multiset(a) == multiset(b)
    ensures |a| == |b|
    ensures forall x :: In(x, a) <==> In(x, b)
    ensures WellFormed(a) <==> WellFormed(b)
  {
    assert |a| == |multiset(a)| == |multiset(b)| == |b|;
    forall r
      ensures r in a <==> r in b
    {
      assert r in a <==> r in multiset(a);
      assert r in b <==> r in multiset(b);
    }
  }

  // ---- rangesOverlap ----

  // Two-pointer test of ascending lists: true exactly when they share a point.
  method RangesOverlap(a: seq<RuneRange>, b: seq<RuneRange>) returns (overlap: bool)
    requires Ascending(a) && Ascending(b)
    ensures overlap <==> exists x :: In(x, a) && In(x, b)
  {
    var i, j := 0, 0;
    while i < |a| && j < |b|
      invariant 0 <= i <= |a| && 0 <= j <= |b|
      invariant forall p, q :: 0 <= p < i && 0 <= q < |b| ==> Apart(a[p], b[q])
      invariant forall p, q :: 0 <= p < |a| && 0 <= q < j ==> Apart(a[p], b[q])
      decreases |a| - i + |b| - j
    {
      if a[i].hi < b[j].lo {
        i := i + 1;
        continue;
      }
      if b[j].hi < a[i].lo {
        j := j + 1;
        continue;
      }
      ghost var x := if a[i].lo <= b[j].lo then b[j].lo else a[i].lo;
      assert a[i] in a && b[j] in b;
      assert In(x, a) && In(x, b);
      return true;
    }
    assert forall p, q :: 0 <= p < |a| && 0 <= q < |b| ==> Apart(a[p], b[q]);
    return false;
  }

  ghost predicate Apart(r: RuneRange, s: RuneRange) {
    r.hi < s.lo || s.hi < r.lo
  }

  // ---- intersectRanges ----

  method IntersectRanges(a0: seq<RuneRange>, b0: seq<RuneRange>) returns (out: seq<RuneRange>)
    requires WellFormed(a0) && WellFormed(b0)
    ensures Ascending(out)
    ensures forall x :: In(x, out) <==> In(x, a0) && In(x, b0)
  {
    var a := NormalizeRanges(a0);
    var b := NormalizeRanges(b0);
    out := [];
    var i, j := 0, 0;
    while i < |a| && j < |b|
      invariant 0 <= i <= |a| && 0 <= j <= |b|
      invariant Ascending(out)
      invariant out != [] && i < |a| && j < |b| ==> out[|out| - 1].hi < Max(a[i].lo, b[j].lo)
      invariant Shared(out, a, b)
      invariant ReportedTo(a, i, b, out)
      invariant ReportedTo(b, j, a, out)
      decreases |a| - i + |b| - j
    {
      var lo := Max(a[i].lo, b[j].lo);
      var hi := Min(a[i].hi, b[j].hi);
      ghost var was := out;
      if lo <= hi {
        out := out + [RuneRange(lo, hi)];
      }
      IntersectStep(a, b, i, j, was, out);
      if a[i].hi < b[j].hi {
        i := i + 1;
      } else {
        j := j + 1;
      }
    }
    AllReported(a, b, i, j, out);
  }

  function Max(a: int, b: int): int { if a > b then a else b }

  function Min(a: int, b: int): int { if a < b then a else b }

  ghost predicate Shared(out: seq<RuneRange>, a: seq<RuneRange>, b: seq<RuneRange>) {
    forall x :: In(x, out) ==> In(x, a) && In(x, b)
  }

  // Every point r has in common with the other list is in out.
  ghost predicate Reported(r: RuneRange, other: seq<RuneRange>, out: seq<RuneRange>) {
    forall x :: r.lo <= x <= r.hi && In(x, other) ==> In(x, out)
  }

  ghost predicate ReportedTo(rs: seq<RuneRange>, n: nat, other: seq<RuneRange>, out: seq<RuneRange>)
    requires n <= |rs|
  {
    forall k :: 0 <= k < n ==> Reported(rs[k], other, out)
  }

  // Whichever range ends first has no unreported point left.
  lemma IntersectStep(a: seq<RuneRange>, b: seq<RuneRange>, i: nat, j: nat,
                      was: seq<RuneRange>, out: seq<RuneRange>)
    requires Canonical(a) && Canonical(b) && i < |a| && j < |b|
    requires Shared(was, a, b)
    requires ReportedTo(a, i, b, was)
    requires ReportedTo(b, j, a, was)
    requires var lo, hi := Max(a[i].lo, b[j].lo), Min(a[i].hi, b[j].hi);
             out == if lo <= hi then was + [RuneRange(lo, hi)] else was
    requires Ascending(was) && (was != [] ==> was[|was| - 1].hi < Max(a[i].lo, b[j].lo))
    ensures Ascending(out) && (out != [] ==> out[|out| - 1].hi <= Min(a[i].hi, b[j].hi) || out == was)
    ensures Shared(out, a, b)
    ensures ReportedTo(a, i, b, out)
    ensures ReportedTo(b, j, a, out)
    ensures a[i].hi < b[j].hi ==> Reported(a[i], b, out)
    ensures a[i].hi >= b[j].hi ==> Reported(b[j], a, out)
  {
    var lo, hi := Max(a[i].lo, b[j].lo), Min(a[i].hi, b[j].hi);
    assert a[i] in a && b[j] in b;
    forall x
      ensures In(x, out) <==> In(x, was) || lo <= x <= hi
    {
      InSnoc(x, was, RuneRange(lo, hi));
    }
    if a[i].hi < b[j].hi {
      ReportedStep(a, b, i, j, out);
    } else {
      ReportedStep(b, a, j, i, out);
    }
  }

  lemma ReportedStep(a: seq<RuneRange>, b: seq<RuneRange>, i: nat, j: nat, out: seq<RuneRange>)
    requires Canonical(a) && Canonical(b) && i < |a| && j < |b| && a[i].hi <= b[j].hi
    requires ReportedTo(b, j, a, out)
    requires forall x :: Max(a[i].lo, b[j].lo) <= x <= a[i].hi ==> In(x, out)
    ensures Reported(a[i], b, out)
  {
    forall x | a[i].lo <= x <= a[i].hi && In(x, b)
      ensures In(x, out)
    {
      assert a[i] in a && In(x, a);
      var q :| 0 <= q < |b| && b[q].lo <= x <= b[q].hi;
      assert q <= j;
    }
  }

  lemma AllReported(a: seq<RuneRange>, b: seq<RuneRange>, i: nat, j: nat, out: seq<RuneRange>)
    requires i <= |a| && j <= |b| && (i == |a| || j == |b|)
    requires ReportedTo(a, i, b, out)
    requires ReportedTo(b, j, a, out)
    ensures forall x :: In(x, a) && In(x, b) ==> In(x, out)
  {
    forall x | In(x, a) && In(x, b)
      ensures In(x, out)
    {
      var p :| 0 <= p < |a| && a[p].lo <= x <= a[p].hi;
      var q :| 0 <= q < |b| && b[q].lo <= x <= b[q].hi;
      assert p < i || q < j;
    }
  }

  // ---- subtractRanges ----

  method SubtractRanges(base0: seq<RuneRange>, subtract0: seq<RuneRange>) returns (out: seq<RuneRange>)
    requires WellFormed(base0) && WellFormed(subtract0)
    ensures Ascending(out)
    ensures forall x :: In(x, out) <==> In(x, base0) && !In(x, subtract0)
  {
    var base := NormalizeRanges(base0);
    var subtract := NormalizeRanges(subtract0);
    out := [];
    for k := 0 to |base|
      invariant Ascending(out)
      invariant out != [] ==> k > 0 && out[|out| - 1].hi <= base[k - 1].hi
      invariant forall x :: In(x, out) <==> In(x, base[..k]) && !In(x, subtract)
    {
      var current := CutAll(base[k], subtract);
      AppendPieces(base, subtract, k, out, current);
      out := out + current;
    }
    assert base[..|base|] == base;
  }

  lemma AppendPieces(base: seq<RuneRange>, subtract: seq<RuneRange>, k: nat,
                     out: seq<RuneRange>, current: seq<RuneRange>)
    requires k < |base| && Ascending(out) && Ascending(current)
    requires out != [] ==> out[|out| - 1].hi < base[k].lo
    requires forall i :: 0 <= i < |current| ==> base[k].lo <= current[i].lo && current[i].hi <= base[k].hi
    requires forall x :: In(x, out) <==> In(x, base[..k]) && !In(x, subtract)
    requires forall x :: In(x, current) <==> base[k].lo <= x <= base[k].hi && !In(x, subtract)
    ensures Ascending(out + current)
    ensures forall x :: In(x, out + current) <==> In(x, base[..k + 1]) && !In(x, subtract)
  {
    var sum := out + current;
    forall i | 0 <= i < |out|
      ensures sum[i] == out[i] && sum[i].hi < base[k].lo
    {
      assert i < |out| - 1 ==> out[i].hi < out[|out| - 1].lo;
    }
    assert forall i :: |out| <= i < |sum| ==> sum[i] == current[i - |out|];
    forall x
      ensures In(x, sum) <==> In(x, base[..k + 1]) && !In(x, subtract)
    {
      InConcat(x, out, current);
      InTake(x, base, k);
    }
  }

  lemma LastIn(rs: seq<RuneRange>)
    requires Ascending(rs)
    ensures forall i :: 0 <= i < |rs| ==> In(rs[i].lo, rs) && In(rs[i].hi, rs)
  {
    forall i | 0 <= i < |rs|
      ensures In(rs[i].lo, rs) && In(rs[i].hi, rs)
    {
      assert rs[i] in rs;
    }
  }

  // The middle loop of subtractRanges: one base range, every subtracted range.
  method CutAll(b: RuneRange, subtract: seq<RuneRange>) returns (current: seq<RuneRange>)
    requires b.lo <= b.hi && Canonical(subtract)
    ensures Ascending(current)
    ensures forall x :: In(x, current) <==> b.lo <= x <= b.hi && !In(x, subtract)
    ensures forall i :: 0 <= i < |current| ==> b.lo <= current[i].lo && current[i].hi <= b.hi
  {
    current := [b];
    assert subtract[..0] == [];
    for k := 0 to |subtract|
      invariant Ascending(current)
      invariant forall x :: In(x, current) <==> b.lo <= x <= b.hi && !In(x, subtract[..k])
      invariant forall i :: 0 <= i < |current| ==> b.lo <= current[i].lo && current[i].hi <= b.hi
    {
      ghost var was := current;
      current := CutOne(current, subtract[k]);
      forall x
        ensures In(x, current) <==> b.lo <= x <= b.hi && !In(x, subtract[..k + 1])
      {
        InTake(x, subtract, k);
      }
      LastIn(current);
      forall i | 0 <= i < |current|
        ensures b.lo <= current[i].lo && current[i].hi <= b.hi
      {
        assert In(current[i].lo, current) && In(current[i].hi, current);
      }
      if |current| == 0 {
        forall x
          ensures In(x, current) <==> b.lo <= x <= b.hi && !In(x, subtract)
        {
          InConcat(x, subtract[..k + 1], subtract[k + 1..]);
          assert subtract == subtract[..k + 1] + subtract[k + 1..];
        }
        return;
      }
    }
    assert subtract[..|subtract|] == subtract;
  }

  // The inner loop of subtractRanges: cut s out of every piece.
  method CutOne(current: seq<RuneRange>, s: RuneRange) returns (next: seq<RuneRange>)
    requires Ascending(current) && s.lo <= s.hi
    ensures Ascending(next)
    ensures forall x :: In(x, next) <==> In(x, current) && !(s.lo <= x <= s.hi)
  {
    next := [];
    for m := 0 to |current|
      invariant Ascending(next)
      invariant next != [] ==> m > 0 && next[|next| - 1].hi <= current[m - 1].hi
      invariant forall x :: In(x, next) <==> In(x, current[..m]) && !(s.lo <= x <= s.hi)
    {
      ghost var was := next;
      next := CutPiece(next, current[m], s);
      forall x
        ensures In(x, next) <==> In(x, current[..m + 1]) && !(s.lo <= x <= s.hi)
      {
        InTake(x, current, m);
      }
    }
    assert current[..|current|] == current;
  }

  // What is left of one piece, appended: all of it, or up to two pieces.
  method CutPiece(next: seq<RuneRange>, c: RuneRange, s: RuneRange) returns (out: seq<RuneRange>)
    requires Ascending(next) && c.lo <= c.hi && s.lo <= s.hi && (next != [] ==> next[|next| - 1].hi < c.lo)
    ensures Ascending(out) && (out != [] ==> out[|out| - 1].hi <= c.hi)
    ensures forall x :: In(x, out) <==> In(x, next) || (c.lo <= x <= c.hi && !(s.lo <= x <= s.hi))
  {
    out := next;
    if s.hi < c.lo || s.lo > c.hi {
      AppendAscending(out, c);
      return out + [c];
    }
    if s.lo > c.lo {
      AppendAscending(out, RuneRange(c.lo, s.lo - 1));
      out := out + [RuneRange(c.lo, s.lo - 1)];
    }
    if s.hi < c.hi {
      AppendAscending(out, RuneRange(s.hi + 1, c.hi));
      out := out + [RuneRange(s.hi + 1, c.hi)];
    }
  }

  lemma AppendAscending(rs: seq<RuneRange>, r: RuneRange)
    requires Ascending(rs) && r.lo <= r.hi && (rs != [] ==> rs[|rs| - 1].hi < r.lo)
    ensures Ascending(rs + [r])
    ensures forall x :: In(x, rs + [r]) <==> In(x, rs) || r.lo <= x <= r.hi
  {
    forall x
      ensures In(x, rs + [r]) <==> In(x, rs) || r.lo <= x <= r.hi
    {
      InSnoc(x, rs, r);
    }
    forall i | 0 <= i < |rs|
      ensures rs[i].hi < r.lo
    {
      assert i < |rs| - 1 ==> rs[i].hi < rs[|rs| - 1].lo;
    }
  }
}
