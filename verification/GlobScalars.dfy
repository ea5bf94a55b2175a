// Paths a program can name. A decoded string holds no surrogate code points, while the
// engine's classes range over them; this module says when that makes no difference.
module GlobScalars {
  import opened Basics
  import opened Ranges
  import opened Glob

  const LAST_BEFORE: Rune := 0xD7FF

  predicate Surrogate(c: int) {
    0xD800 <= c <= 0xDFFF
  }

  predicate Scalars(t: Text) {
    forall c :: c in t ==> !Surrogate(c)
  }

  // Some path without surrogates is matched by both patterns.
  ghost predicate ScalarOverlap(a: Text, b: Text) {
    exists path :: Scalars(path) && PatternMatches(a, path) && PatternMatches(b, path)
  }

  // ---- When a common path needs no surrogate ----

  // What one element reads of a text; a star reads any number of these.
  ghost predicate Consumes(e: Elem, c: Rune) {
    if e.Star? then c != SLASH else Accepts(e, c)
  }

  // If the two elements can read a surrogate together, they can read something else too.
  ghost predicate SharesScalar(e: Elem, f: Elem) {
    (exists c: Rune :: Surrogate(c) && Consumes(e, c) && Consumes(f, c)) ==>
      exists c: Rune :: !Surrogate(c) && Consumes(e, c) && Consumes(f, c)
  }

  ghost predicate ElemsShare(es: seq<Elem>, fs: seq<Elem>) {
    forall e, f :: e in es && f in fs ==> SharesScalar(e, f)
  }

  // In no segment does an element of the one pattern share only surrogates with one of
  // the other.
  ghost predicate PatternsShare(a: Text, b: Text) {
    |Split(a)| == |Split(b)| ==>
      forall k :: 0 <= k < |Split(a)| && Parse(Split(a)[k]).Some? && Parse(Split(b)[k]).Some? ==>
        ElemsShare(Parse(Split(a)[k]).value, Parse(Split(b)[k]).value)
  }

  lemma ScalarInstead(e: Elem, f: Elem, c: Rune) returns (d: Rune)
    requires SharesScalar(e, f) && Consumes(e, c) && Consumes(f, c)
    ensures !Surrogate(d) && Consumes(e, d) && Consumes(f, d)
  {
    if Surrogate(c) {
      d :| !Surrogate(d) && Consumes(e, d) && Consumes(f, d);
    } else {
      d := c;
    }
  }

  // What is left of the elements when the first one has read a rune.
  function AfterRead(es: seq<Elem>): seq<Elem>
    requires es != []
  {
    if es[0].Star? then es else es[1..]
  }

  lemma MeaningsTail(es: seq<Elem>)
    requires es != []
    ensures Meanings(es)[1..] == Meanings(es[1..]) && Meanings(es)[0] == Meaning(es[0])
  {
  }

  lemma NoSlashTail(t: Text)
    requires t != [] && NoSlash(t)
    ensures NoSlash(t[1..])
  {
  }

  // A match reads nothing with its first star, or reads the first rune.
  lemma FirstMove(es: seq<Elem>, t: Text)
    requires t != [] && Matches(Meanings(es), t)
    ensures es != []
    ensures (es[0].Star? && Matches(Meanings(es[1..]), t)) ||
            (Consumes(es[0], t[0]) && Matches(Meanings(AfterRead(es)), t[1..]))
  {
    MeaningsTail(es);
    if es[0].Star? {
      var k :| 0 <= k <= |t| && NoSlash(t[..k]) && Matches(Meanings(es)[1..], t[k..]);
      if k == 0 {
        assert t[0..] == t;
      } else {
        assert t[1..][..k - 1] == t[..k][1..] && t[1..][k - 1..] == t[k..];
        NoSlashTail(t[..k]);
        assert t[..k][0] == t[0];
      }
    }
  }

  lemma SkipStar(es: seq<Elem>, t: Text)
    requires es != [] && es[0].Star? && Matches(Meanings(es[1..]), t)
    ensures Matches(Meanings(es), t)
  {
    MeaningsTail(es);
    assert t[..0] == [] && t[0..] == t;
    assert NoSlash(t[..0]);
  }

  lemma ReadFirst(es: seq<Elem>, c: Rune, t: Text)
    requires es != [] && Consumes(es[0], c) && Matches(Meanings(AfterRead(es)), t)
    ensures Matches(Meanings(es), [c] + t)
  {
    MeaningsTail(es);
    var u := [c] + t;
    assert u[1..] == t;
    if es[0].Star? {
      var k :| 0 <= k <= |t| && NoSlash(t[..k]) && Matches(Meanings(es)[1..], t[k..]);
      assert u[..k + 1] == [c] + t[..k] && u[k + 1..] == t[k..];
      assert NoSlash(u[..k + 1]);
    }
  }

  // Two element lists that match one text match one without surrogates.
  lemma {:induction false} CommonScalars(es: seq<Elem>, fs: seq<Elem>, t: Text) returns (u: Text)
    requires ElemsShare(es, fs) && Matches(Meanings(es), t) && Matches(Meanings(fs), t)
    ensures Scalars(u) && Matches(Meanings(es), u) && Matches(Meanings(fs), u)
    decreases |t|, |es| + |fs|
  {
    if t == [] {
      u := [];
    } else {
      FirstMove(es, t);
      FirstMove(fs, t);
      if es[0].Star? && Matches(Meanings(es[1..]), t) {
        u := CommonScalars(es[1..], fs, t);
        SkipStar(es, u);
      } else if fs[0].Star? && Matches(Meanings(fs[1..]), t) {
        u := CommonScalars(es, fs[1..], t);
        SkipStar(fs, u);
      } else {
        assert es[0] in es && fs[0] in fs;
        var d := ScalarInstead(es[0], fs[0], t[0]);
        var v := CommonScalars(AfterRead(es), AfterRead(fs), t[1..]);
        ReadFirst(es, d, v);
        ReadFirst(fs, d, v);
        u := [d] + v;
      }
    }
  }

  ghost predicate CommonScalarSegment(a: Text, b: Text, u: Text) {
    Scalars(u) && NoSlash(u) && SegmentMatches(a, u) && SegmentMatches(b, u)
  }

  ghost predicate ScalarSegments(a: Text, b: Text) {
    exists u :: CommonScalarSegment(a, b, u)
  }

  lemma SegmentWithoutSurrogates(a: Text, b: Text, t: Text)
    requires NoSlash(a) && SegmentMatches(a, t) && SegmentMatches(b, t)
    requires ElemsShare(Parse(a).value, Parse(b).value)
    ensures ScalarSegments(a, b)
  {
    var u := CommonScalars(Parse(a).value, Parse(b).value, t);
    ParsedAtomsAvoidSlash(a);
    MatchedTextHasNoSlash(Meanings(Parse(a).value), u);
    assert CommonScalarSegment(a, b, u);
  }

  ghost function ScalarSegment(a: Text, b: Text): (u: Text)
    requires ScalarSegments(a, b)
    ensures CommonScalarSegment(a, b, u)
  {
    var u :| CommonScalarSegment(a, b, u);
    u
  }

  // Texts for the segments make up a path.
  lemma SegmentsGivePath(a: Text, b: Text)
    requires |Split(a)| == |Split(b)| && forall k :: 0 <= k < |Split(a)| ==> ScalarSegments(Split(a)[k], Split(b)[k])
    ensures ScalarOverlap(a, b)
  {
    var sa, sb := Split(a), Split(b);
    var segments := seq(|sa|, k requires 0 <= k < |sa| => ScalarSegment(sa[k], sb[k]));
    forall k | 0 <= k < |segments|
      ensures CommonScalarSegment(sa[k], sb[k], segments[k])
    {
    }
    SplitJoin(segments);
    JoinScalar(segments);
    assert PatternMatches(a, Join(segments)) && PatternMatches(b, Join(segments));
  }

  // For such patterns the engine's answer is about paths that can exist.
  lemma OverlapWithoutSurrogates(a: Text, b: Text)
    requires PatternsShare(a, b)
    ensures Overlap(a, b) <==> ScalarOverlap(a, b)
  {
    if Overlap(a, b) {
      var path :| PatternMatches(a, path) && PatternMatches(b, path);
      var sa, sb := Split(a), Split(b);
      SplitNoSlash(a);
      forall k | 0 <= k < |sa|
        ensures ScalarSegments(sa[k], sb[k])
      {
        assert SegmentMatches(sa[k], Split(path)[k]) && SegmentMatches(sb[k], Split(path)[k]);
        SegmentWithoutSurrogates(sa[k], sb[k], Split(path)[k]);
      }
      SegmentsGivePath(a, b);
    }
  }

  lemma {:induction false} JoinScalar(segments: seq<Text>)
    requires segments != [] && forall k :: 0 <= k < |segments| ==> Scalars(segments[k])
    ensures Scalars(Join(segments))
  {
    if |segments| > 1 {
      JoinScalar(segments[1..]);
    }
  }

  // ---- Exactly when a common path needs no surrogate ----

  ghost predicate ReadTogether(e: Elem, f: Elem) {
    exists c: Rune :: !Surrogate(c) && Consumes(e, c) && Consumes(f, c)
  }

  // The end of the two automata can be reached side by side, skipping stars and reading
  // where the two elements share more than surrogates. Two stars need not read together.
  ghost predicate Walks(es: seq<Elem>, fs: seq<Elem>)
    decreases |es| + |fs|
  {
    || (es == [] && fs == [])
    || (es != [] && es[0].Star? && Walks(es[1..], fs))
    || (fs != [] && fs[0].Star? && Walks(es, fs[1..]))
    || (es != [] && fs != [] && !(es[0].Star? && fs[0].Star?) && ReadTogether(es[0], fs[0]) && Walks(AfterRead(es), AfterRead(fs)))
  }

  lemma {:induction false} WalkGivesText(es: seq<Elem>, fs: seq<Elem>) returns (u: Text)
    requires Walks(es, fs)
    ensures Scalars(u) && Matches(Meanings(es), u) && Matches(Meanings(fs), u)
    decreases |es| + |fs|
  {
    if es == [] && fs == [] {
      u := [];
    } else if es != [] && es[0].Star? && Walks(es[1..], fs) {
      u := WalkGivesText(es[1..], fs);
      SkipStar(es, u);
    } else if fs != [] && fs[0].Star? && Walks(es, fs[1..]) {
      u := WalkGivesText(es, fs[1..]);
      SkipStar(fs, u);
    } else {
      var c: Rune :| !Surrogate(c) && Consumes(es[0], c) && Consumes(fs[0], c);
      var v := WalkGivesText(AfterRead(es), AfterRead(fs));
      ReadFirst(es, c, v);
      ReadFirst(fs, c, v);
      u := [c] + v;
    }
  }

  // Only stars match nothing.
  lemma EmptyMatch(es: seq<Elem>)
    requires es != [] && Matches(Meanings(es), [])
    ensures es[0].Star? && Matches(Meanings(es[1..]), [])
  {
    MeaningsTail(es);
  }

  lemma {:induction false} TextGivesWalk(es: seq<Elem>, fs: seq<Elem>, t: Text)
    requires Scalars(t) && Matches(Meanings(es), t) && Matches(Meanings(fs), t)
    ensures Walks(es, fs)
    decreases |t|, |es| + |fs|
  {
    if t == [] {
      if es != [] {
        EmptyMatch(es);
        TextGivesWalk(es[1..], fs, t);
      } else if fs != [] {
        EmptyMatch(fs);
        TextGivesWalk(es, fs[1..], t);
      }
    } else {
      FirstMove(es, t);
      FirstMove(fs, t);
      if es[0].Star? && Matches(Meanings(es[1..]), t) {
        TextGivesWalk(es[1..], fs, t);
      } else if fs[0].Star? && Matches(Meanings(fs[1..]), t) {
        TextGivesWalk(es, fs[1..], t);
      } else {
        assert t[0] in t && ReadTogether(es[0], fs[0]);
        TextGivesWalk(AfterRead(es), AfterRead(fs), t[1..]);
      }
    }
  }

  ghost predicate SegmentsWalk(a: Text, b: Text) {
    Parse(a).Some? && Parse(b).Some? && Walks(Parse(a).value, Parse(b).value)
  }

  lemma WalkGivesSegment(a: Text, b: Text)
    requires NoSlash(a) && SegmentsWalk(a, b)
    ensures ScalarSegments(a, b)
  {
    var u := WalkGivesText(Parse(a).value, Parse(b).value);
    ParsedAtomsAvoidSlash(a);
    MatchedTextHasNoSlash(Meanings(Parse(a).value), u);
    assert CommonScalarSegment(a, b, u);
  }

  ghost predicate PatternsWalk(a: Text, b: Text) {
    |Split(a)| == |Split(b)| && forall k :: 0 <= k < |Split(a)| ==> SegmentsWalk(Split(a)[k], Split(b)[k])
  }

  lemma PathGivesWalks(a: Text, b: Text, path: Text)
    requires Scalars(path) && PatternMatches(a, path) && PatternMatches(b, path)
    ensures PatternsWalk(a, b)
  {
    SplitScalar(path);
    forall k | 0 <= k < |Split(a)|
      ensures SegmentsWalk(Split(a)[k], Split(b)[k])
    {
      assert SegmentMatches(Split(a)[k], Split(path)[k]) && SegmentMatches(Split(b)[k], Split(path)[k]);
      TextGivesWalk(Parse(Split(a)[k]).value, Parse(Split(b)[k]).value, Split(path)[k]);
    }
  }

  // A string can spell a common path exactly when every pair of segments has such a walk.
  lemma ScalarOverlapExact(a: Text, b: Text)
    ensures ScalarOverlap(a, b) <==> PatternsWalk(a, b)
  {
    if path :| Scalars(path) && PatternMatches(a, path) && PatternMatches(b, path) {
      PathGivesWalks(a, b, path);
    }
    if PatternsWalk(a, b) {
      SplitNoSlash(a);
      forall k | 0 <= k < |Split(a)|
        ensures ScalarSegments(Split(a)[k], Split(b)[k])
      {
        WalkGivesSegment(Split(a)[k], Split(b)[k]);
      }
      SegmentsGivePath(a, b);
    }
  }

  // ---- Patterns that decode from strings ----

  // No complement leaves out the last code point before the surrogates.
  ghost predicate KeepsLast(e: Elem) {
    e.Class? && e.negated ==> !In(LAST_BEFORE, e.items)
  }

  ghost predicate SegmentKeepsLast(segment: Text) {
    Parse(segment).Some? ==> forall e :: e in Parse(segment).value ==> KeepsLast(e)
  }

  ghost predicate PatternKeepsLast(pattern: Text) {
    forall k :: 0 <= k < |Split(pattern)| ==> SegmentKeepsLast(Split(pattern)[k])
  }

  // ---- What a pattern without surrogates can say about them ----

  predicate ScalarItems(items: seq<RuneRange>) {
    forall r :: r in items ==> !Surrogate(r.lo) && !Surrogate(r.hi)
  }

  predicate ScalarElem(e: Elem) {
    match e
    case Lit(c) => !Surrogate(c)
    case Class(_, items) => ScalarItems(items)
    case _ => true
  }

  lemma ClassItemScalar(t: Text)
    requires Scalars(t) && ClassItem(t).Some?
    ensures var (item, rest) := ClassItem(t).value;
      !Surrogate(item.lo) && !Surrogate(item.hi) && Scalars(rest)
  {
    var (lo, rest) := ClassRune(t).value;
    assert lo in t && Scalars(rest);
    if |rest| >= 2 && rest[0] == DASH && rest[1] != CLOSE {
      assert Scalars(rest[1..]);
      assert ClassRune(rest[1..]).value.0 in rest[1..] && Scalars(ClassRune(rest[1..]).value.1);
    }
  }

  lemma {:induction false} ClassItemsScalar(t: Text, hadItem: bool)
    requires Scalars(t) && ClassItems(t, hadItem).Some?
    ensures ScalarItems(ClassItems(t, hadItem).value.0) && Scalars(ClassItems(t, hadItem).value.1)
    decreases |t|
  {
    if !(t[0] == CLOSE && hadItem) {
      ClassItemScalar(t);
      ClassItemsScalar(ClassItem(t).value.1, true);
    }
  }

  lemma FirstElemScalar(t: Text)
    requires Scalars(t) && t != [] && FirstElem(t).Some?
    ensures ScalarElem(FirstElem(t).value.0) && Scalars(FirstElem(t).value.1)
  {
    if t[0] == OPEN {
      var u := t[1..];
      ClassItemsScalar(if u[0] == CARET then u[1..] else u, false);
    }
  }

  lemma {:induction false} ParseScalar(t: Text)
    requires Scalars(t) && Parse(t).Some?
    ensures forall e :: e in Parse(t).value ==> ScalarElem(e)
    decreases |t|
  {
    if t != [] {
      FirstElemScalar(t);
      ParseScalar(FirstElem(t).value.1);
    }
  }

  // A written range that covers a surrogate covers the code point before them all.
  lemma ConsumesLast(e: Elem, c: Rune)
    requires ScalarElem(e) && KeepsLast(e) && Consumes(e, c) && Surrogate(c)
    ensures Consumes(e, LAST_BEFORE)
  {
    if e.Class? && !e.negated {
      var r :| r in e.items && r.lo <= c <= r.hi;
      assert r.lo <= LAST_BEFORE <= r.hi;
    }
  }

  lemma {:induction false} SplitScalar(t: Text)
    requires Scalars(t)
    ensures forall k :: 0 <= k < |Split(t)| ==> Scalars(Split(t)[k])
  {
    if t != [] {
      SplitScalar(t[1..]);
    }
  }

  // Only complements that leave out U+D7FF can make two such patterns share nothing else.
  lemma KeepingLastShares(a: Text, b: Text)
    requires Scalars(a) && Scalars(b) && PatternKeepsLast(a) && PatternKeepsLast(b)
    ensures PatternsShare(a, b)
  {
    SplitScalar(a);
    SplitScalar(b);
    if |Split(a)| == |Split(b)| {
      forall k | 0 <= k < |Split(a)| && Parse(Split(a)[k]).Some? && Parse(Split(b)[k]).Some?
        ensures ElemsShare(Parse(Split(a)[k]).value, Parse(Split(b)[k]).value)
      {
        ParseScalar(Split(a)[k]);
        ParseScalar(Split(b)[k]);
        assert SegmentKeepsLast(Split(a)[k]) && SegmentKeepsLast(Split(b)[k]);
        ElemsKeepingLastShare(Parse(Split(a)[k]).value, Parse(Split(b)[k]).value);
      }
    }
  }

  lemma ElemsKeepingLastShare(es: seq<Elem>, fs: seq<Elem>)
    requires forall e :: e in es ==> ScalarElem(e) && KeepsLast(e)
    requires forall f :: f in fs ==> ScalarElem(f) && KeepsLast(f)
    ensures ElemsShare(es, fs)
  {
    forall e, f | e in es && f in fs
      ensures SharesScalar(e, f)
    {
      if c: Rune :| Surrogate(c) && Consumes(e, c) && Consumes(f, c) {
        ConsumesLast(e, c);
        ConsumesLast(f, c);
        assert !Surrogate(LAST_BEFORE);
      }
    }
  }

  // For others it may not be: this pattern overlaps itself, and matches no such path.
  lemma OnlySurrogatesLeft(pattern: Text)
    requires pattern == Render([Class(true, [RuneRange(0, LAST_BEFORE), RuneRange(0xE000, MAX_RUNE)])])
    ensures Scalars(pattern) && Overlap(pattern, pattern) && !ScalarOverlap(pattern, pattern)
  {
    var items := [RuneRange(0, LAST_BEFORE), RuneRange(0xE000, MAX_RUNE)];
    var es := [Class(true, items)];
    OneSegment(items, pattern);
    ParseRender(es);
    forall t: Text
      ensures PatternMatches(pattern, t) <==> |t| == 1 && Surrogate(t[0])
    {
      MatchesOneSurrogate(items, pattern, t);
    }
    assert PatternMatches(pattern, [0xD800]);
  }

  lemma RenderTwo(r: RuneRange, s: RuneRange)
    requires 0 <= r.lo <= r.hi <= MAX_RUNE && 0 <= s.lo <= s.hi <= MAX_RUNE
    ensures RenderItems([r, s]) == [ESCAPE, r.lo, DASH, ESCAPE, r.hi, ESCAPE, s.lo, DASH, ESCAPE, s.hi]
  {
    assert [r, s][1..] == [s] && [s][1..] == [];
    assert RenderItems([s]) == [ESCAPE, s.lo, DASH, ESCAPE, s.hi] + RenderItems([]);
  }

  lemma OneSegment(items: seq<RuneRange>, pattern: Text)
    requires items == [RuneRange(0, LAST_BEFORE), RuneRange(0xE000, MAX_RUNE)]
    requires pattern == Render([Class(true, items)])
    ensures Scalars(pattern) && Split(pattern) == [pattern]
  {
    var es := [Class(true, items)];
    assert items[1..] == [items[1]] && items[1..][1..] == [] && es[1..] == [];
    RenderTwo(items[0], items[1]);
    assert RenderElem(es[0]) == [OPEN] + [CARET] + RenderItems(items) + [CLOSE];
    assert pattern == RenderElem(es[0]) + [];
    SplitFirst(pattern, []);
  }

  lemma MatchesOneSurrogate(items: seq<RuneRange>, pattern: Text, t: Text)
    requires items == [RuneRange(0, LAST_BEFORE), RuneRange(0xE000, MAX_RUNE)]
    requires Split(pattern) == [pattern] && Parse(pattern) == Some([Class(true, items)])
    ensures PatternMatches(pattern, t) <==> |t| == 1 && Surrogate(t[0])
  {
    LeavesSurrogates(items);
    OneSegmentMatches(pattern, t);
    MatchesOneRune(Class(true, items), t);
    assert |t| == 1 && Surrogate(t[0]) ==> NoSlash(t);
  }

  lemma OneSegmentMatches(pattern: Text, t: Text)
    requires Split(pattern) == [pattern]
    ensures PatternMatches(pattern, t) <==> NoSlash(t) && SegmentMatches(pattern, t)
  {
    if NoSlash(t) {
      SplitWhole(t);
      SinglesMatch(pattern, t, Split(pattern), Split(t));
    } else {
      SlashSplits(t);
    }
  }

  lemma SplitWhole(t: Text)
    requires NoSlash(t)
    ensures Split(t) == [t]
  {
    SplitFirst(t, []);
  }

  lemma SinglesMatch(pattern: Text, t: Text, ps: seq<Text>, ts: seq<Text>)
    requires ps == [pattern] && ts == [t]
    ensures (forall k :: 0 <= k < |ps| ==> SegmentMatches(ps[k], ts[k])) <==> SegmentMatches(pattern, t)
  {
    assert ps[0] == pattern && ts[0] == t;
  }

  lemma LeavesSurrogates(items: seq<RuneRange>)
    requires items == [RuneRange(0, LAST_BEFORE), RuneRange(0xE000, MAX_RUNE)]
    ensures forall c: Rune :: Accepts(Class(true, items), c) <==> Surrogate(c)
  {
    assert items[0] in items && items[1] in items;
  }

  lemma MatchesOneRune(e: Elem, t: Text)
    requires !e.Star?
    ensures Matches(Meanings([e]), t) <==> |t| == 1 && Accepts(e, t[0])
  {
    var ps := Meanings([e]);
    assert ps[0] == Meaning(e) && ps[1..] == [];
  }

  lemma {:induction false} SlashSplits(t: Text)
    requires !NoSlash(t)
    ensures |Split(t)| > 1
  {
    if t[0] != SLASH {
      var i :| 0 <= i < |t| && t[i] == SLASH;
      assert t[1..][i - 1] == SLASH;
      SlashSplits(t[1..]);
    }
  }
}
