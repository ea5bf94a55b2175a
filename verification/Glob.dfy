// What a glob pattern is and what it matches, stated without tokens, indices or
// automata: internal/coordination/glob.go is proved against these definitions.
module Glob {
  import opened Basics
  import opened Ranges

  const STAR: Rune := 0x2A      // '*'
  const QUESTION: Rune := 0x3F  // '?'
  const OPEN: Rune := 0x5B      // '['
  const CLOSE: Rune := 0x5D     // ']'
  const ESCAPE: Rune := 0x5C    // '\'
  const CARET: Rune := 0x5E     // '^'
  const DASH: Rune := 0x2D      // '-'
  const SLASH: Rune := 0x2F     // '/'

  type Text = seq<Rune>

  // ---- Syntax ----

  datatype Elem =
    | Star
    | Any
    | Lit(c: Rune)
    | Class(negated: bool, items: seq<RuneRange>)
  {
    // What the grammar yields: a class has an item, and no item is reversed.
    predicate Valid() {
      Class? ==> items != [] && WellFormed(items) && forall r :: r in items ==> 0 <= r.lo && r.hi <= MAX_RUNE
    }
  }

  // ---- Grammar: readClassRune, parseClass and parseSegment on the remaining text ----

  function ClassRune(t: Text): (r: Option<(Rune, Text)>)
    ensures r.Some? ==> |r.value.1| < |t|
  {
    if t == [] then None
    else if t[0] != ESCAPE then Some((t[0], t[1..]))
    else if |t| == 1 then None
    else Some((t[1], t[2..]))
  }

  // One class item: a rune, or two runes joined by a dash that is not the last
  // character before the closing bracket.
  function ClassItem(t: Text): (r: Option<(RuneRange, Text)>)
    ensures r.Some? ==> |r.value.1| < |t| && 0 <= r.value.0.lo <= r.value.0.hi <= MAX_RUNE
  {
    match ClassRune(t)
    case None => None
    case Some((lo, rest)) =>
      if |rest| >= 2 && rest[0] == DASH && rest[1] != CLOSE then
        match ClassRune(rest[1..])
        case None => None
        case Some((hi, rest')) => if hi < lo then None else Some((RuneRange(lo, hi), rest'))
      else
        Some((RuneRange(lo, lo), rest))
  }

  // The items up to the closing bracket; a bracket in first place is an item.
  function ClassItems(t: Text, hadItem: bool): (r: Option<(seq<RuneRange>, Text)>)
    ensures r.Some? ==> |r.value.1| < |t| && WellFormed(r.value.0) && (hadItem || r.value.0 != [])
    ensures r.Some? ==> forall x :: x in r.value.0 ==> 0 <= x.lo && x.hi <= MAX_RUNE
    decreases |t|
  {
    if t == [] then None
    else if t[0] == CLOSE && hadItem then Some(([], t[1..]))
    else
      match ClassItem(t)
      case None => None
      case Some((item, rest)) =>
        match ClassItems(rest, true)
        case None => None
        case Some((items, rest')) => Some(([item] + items, rest'))
  }

  // The class that starts after an opening bracket.
  function ClassElem(t: Text): (r: Option<(Elem, Text)>)
    ensures r.Some? ==> |r.value.1| < |t| && r.value.0.Valid() && r.value.0.Class?
  {
    if t == [] then None
    else
      var negated := t[0] == CARET;
      match ClassItems(if negated then t[1..] else t, false)
      case None => None
      case Some((items, rest)) => Some((Class(negated, items), rest))
  }

  // The first element of a non-empty segment and the text after it.
  function FirstElem(t: Text): (r: Option<(Elem, Text)>)
    requires t != []
    ensures r.Some? ==> |r.value.1| < |t| && r.value.0.Valid()
  {
    if t[0] == STAR then Some((Star, t[1..]))
    else if t[0] == QUESTION then Some((Any, t[1..]))
    else if t[0] == OPEN then ClassElem(t[1..])
    else if t[0] == ESCAPE then
      if |t| == 1 then None else Some((Lit(t[1]), t[2..]))
    else Some((Lit(t[0]), t[1..]))
  }

  function Parse(t: Text): (r: Option<seq<Elem>>)
    ensures r.Some? ==> forall e :: e in r.value ==> e.Valid()
    decreases |t|
  {
    if t == [] then Some([])
    else
      match FirstElem(t)
      case None => None
      case Some((e, rest)) =>
        match Parse(rest)
        case None => None
        case Some(es) => Some([e] + es)
  }

  // ---- A printer, and the round trip that ties the grammar to it ----

  function RenderItems(items: seq<RuneRange>): Text
    requires forall r :: r in items ==> 0 <= r.lo <= r.hi <= MAX_RUNE
  {
    if items == [] then []
    else [ESCAPE, items[0].lo, DASH, ESCAPE, items[0].hi] + RenderItems(items[1..])
  }

  function RenderElem(e: Elem): Text
    requires e.Valid()
  {
    match e
    case Star => [STAR]
    case Any => [QUESTION]
    case Lit(c) => [ESCAPE, c]
    case Class(negated, items) =>
      [OPEN] + (if negated then [CARET] else []) + RenderItems(items) + [CLOSE]
  }

  function Render(es: seq<Elem>): Text
    requires forall e :: e in es ==> e.Valid()
  {
    if es == [] then [] else RenderElem(es[0]) + Render(es[1..])
  }

  lemma {:induction false} ClassItemsRender(items: seq<RuneRange>, hadItem: bool, rest: Text)
    requires forall r :: r in items ==> 0 <= r.lo <= r.hi <= MAX_RUNE
    requires hadItem || items != []
    ensures ClassItems(RenderItems(items) + [CLOSE] + rest, hadItem) == Some((items, rest))
  {
    var t := RenderItems(items) + [CLOSE] + rest;
    if items == [] {
      assert t == [CLOSE] + rest;
    } else {
      var item := items[0];
      var tail := RenderItems(items[1..]) + [CLOSE] + rest;
      assert t == [ESCAPE, item.lo, DASH, ESCAPE, item.hi] + tail;
      assert t[2..] == [DASH, ESCAPE, item.hi] + tail;
      assert t[2..][1..] == [ESCAPE, item.hi] + tail;
      assert t[2..][1..][2..] == tail;
      assert ClassItem(t) == Some((item, tail));
      ClassItemsRender(items[1..], true, rest);
      assert items == [item] + items[1..];
    }
  }

  lemma FirstElemRender(e: Elem, rest: Text)
    requires e.Valid()
    ensures RenderElem(e) + rest != []
    ensures FirstElem(RenderElem(e) + rest) == Some((e, rest))
  {
    var t := RenderElem(e) + rest;
    match e
    case Star => assert t[1..] == rest;
    case Any => assert t[1..] == rest;
    case Lit(c) => assert t[2..] == rest;
    case Class(negated, items) => ClassRender(negated, items, rest);
  }

  lemma ClassRender(negated: bool, items: seq<RuneRange>, rest: Text)
    requires Class(negated, items).Valid()
    ensures var t := RenderElem(Class(negated, items)) + rest;
            t != [] && t[0] == OPEN && ClassElem(t[1..]) == Some((Class(negated, items), rest))
  {
    var t := RenderElem(Class(negated, items)) + rest;
    ClassElemRender(negated, items, rest);
    assert t[1..] == (if negated then [CARET] else []) + (RenderItems(items) + [CLOSE] + rest);
  }

  lemma ClassElemRender(negated: bool, items: seq<RuneRange>, rest: Text)
    requires Class(negated, items).Valid()
    ensures var body := RenderItems(items) + [CLOSE] + rest;
            ClassElem((if negated then [CARET] else []) + body) == Some((Class(negated, items), rest))
  {
    var body := RenderItems(items) + [CLOSE] + rest;
    ClassItemsRender(items, false, rest);
    assert body[0] == ESCAPE;
    if negated {
      assert ([CARET] + body)[1..] == body;
    } else {
      assert [] + body == body;
    }
  }

  // Every list of elements has a text, and that text parses back to it.
  lemma {:induction false} ParseRender(es: seq<Elem>)
    requires forall e :: e in es ==> e.Valid()
    ensures Parse(Render(es)) == Some(es)
  {
    if es != [] {
      FirstElemRender(es[0], Render(es[1..]));
      ParseRender(es[1..]);
      assert es == [es[0]] + es[1..];
    }
  }

  // ---- Meaning ----

  // An element reads one rune from a set, or any run of non-separators.
  datatype Atom = Run | One(accept: iset<Rune>)

  ghost predicate Accepts(e: Elem, c: Rune) {
    match e
    case Star => false
    case Any => c != SLASH
    case Lit(l) => c == l
    case Class(negated, items) => c != SLASH && In(c, items) != negated
  }

  ghost function Meaning(e: Elem): Atom {
    if e.Star? then Run else One(iset c: Rune | Accepts(e, c))
  }

  ghost function Meanings(es: seq<Elem>): seq<Atom> {
    seq(|es|, i requires 0 <= i < |es| => Meaning(es[i]))
  }

  ghost predicate NoSlash(t: Text) {
    forall i :: 0 <= i < |t| ==> t[i] != SLASH
  }

  ghost predicate Matches(ps: seq<Atom>, t: Text)
    decreases |ps|
  {
    if ps == [] then t == []
    else if ps[0].Run? then exists k :: 0 <= k <= |t| && NoSlash(t[..k]) && Matches(ps[1..], t[k..])
    else t != [] && t[0] in ps[0].accept && Matches(ps[1..], t[1..])
  }

  // ---- Paths: segments joined by slashes ----

  function Split(t: Text): (r: seq<Text>)
    ensures |r| >= 1
  {
    if t == [] then [[]]
    else
      var r := Split(t[1..]);
      if t[0] == SLASH then [[]] + r else [[t[0]] + r[0]] + r[1..]
  }

  function Join(segments: seq<Text>): Text
    requires segments != []
  {
    if |segments| == 1 then segments[0]
    else segments[0] + [SLASH] + Join(segments[1..])
  }

  lemma {:induction false} SplitNoSlash(t: Text)
    ensures forall k :: 0 <= k < |Split(t)| ==> NoSlash(Split(t)[k])
  {
    if t != [] {
      SplitNoSlash(t[1..]);
      var r := Split(t[1..]);
      var s := Split(t);
      forall k | 0 <= k < |s|
        ensures NoSlash(s[k])
      {
        if t[0] == SLASH {
          assert k > 0 ==> s[k] == r[k - 1];
        } else {
          assert k > 0 ==> s[k] == r[k];
          assert NoSlash(r[0]);
        }
      }
    }
  }

  lemma {:induction false} SplitFirst(first: Text, rest: Text)
    requires NoSlash(first)
    ensures Split(first + [SLASH] + rest) == [first] + Split(rest)
    ensures Split(first) == [first]
    decreases |first|
  {
    if first == [] {
      assert first + [SLASH] + rest == [SLASH] + rest;
    } else {
      var t := first + [SLASH] + rest;
      assert first[0] != SLASH;
      assert t[1..] == first[1..] + [SLASH] + rest;
      SplitFirst(first[1..], rest);
      assert first == [first[0]] + first[1..];
    }
  }

  lemma {:induction false} SplitJoin(segments: seq<Text>)
    requires segments != []
    requires forall k :: 0 <= k < |segments| ==> NoSlash(segments[k])
    ensures Split(Join(segments)) == segments
  {
    if |segments| == 1 {
      SplitFirst(segments[0], []);
    } else {
      SplitFirst(segments[0], Join(segments[1..]));
      SplitJoin(segments[1..]);
      assert segments == [segments[0]] + segments[1..];
    }
  }

  // ---- Patterns ----

  ghost predicate SegmentMatches(segment: Text, t: Text) {
    Parse(segment).Some? && Matches(Meanings(Parse(segment).value), t)
  }

  ghost predicate PatternMatches(pattern: Text, path: Text) {
    var ps, ts := Split(pattern), Split(path);
    |ps| == |ts| && forall k :: 0 <= k < |ps| ==> SegmentMatches(ps[k], ts[k])
  }

  // Some path is matched by both patterns.
  ghost predicate Overlap(a: Text, b: Text) {
    exists path :: PatternMatches(a, path) && PatternMatches(b, path)
  }

  ghost predicate SegmentsOverlap(a: Text, b: Text) {
    exists t :: SegmentMatches(a, t) && SegmentMatches(b, t)
  }

  predicate Parses(pattern: Text) {
    forall k :: 0 <= k < |Split(pattern)| ==> Parse(Split(pattern)[k]).Some?
  }

  lemma OverlapSymmetric(a: Text, b: Text)
    ensures Overlap(a, b) <==> Overlap(b, a)
  {
  }

  // ---- A literal of a parsed segment is one of its characters ----

  ghost predicate NoSlashAtom(p: Atom) {
    p.One? ==> SLASH !in p.accept
  }

  lemma {:induction false} ParsedAtomsAvoidSlash(t: Text)
    requires NoSlash(t) && Parse(t).Some?
    ensures forall k :: 0 <= k < |Parse(t).value| ==> NoSlashAtom(Meaning(Parse(t).value[k]))
    decreases |t|
  {
    if t != [] {
      var (e, rest) := FirstElem(t).value;
      FirstElemSuffix(t);
      assert NoSlash(rest) by {
        assert forall i :: 0 <= i < |rest| ==> rest[i] == t[|t| - |rest| + i];
      }
      ParsedAtomsAvoidSlash(rest);
      assert Parse(t).value == [e] + Parse(rest).value;
    }
  }

  lemma {:induction false} ClassItemsSuffix(t: Text, hadItem: bool)
    requires ClassItems(t, hadItem).Some?
    ensures var rest := ClassItems(t, hadItem).value.1; rest == t[|t| - |rest|..]
    decreases |t|
  {
    if !(t[0] == CLOSE && hadItem) {
      var (item, rest) := ClassItem(t).value;
      var r1 := ClassRune(t).value.1;
      assert r1 == t[|t| - |r1|..];
      if |r1| >= 2 && r1[0] == DASH && r1[1] != CLOSE {
        assert rest == r1[1..][|r1| - 1 - |rest|..];
      }
      assert rest == t[|t| - |rest|..];
      ClassItemsSuffix(rest, true);
    }
  }

  lemma FirstElemSuffix(t: Text)
    requires t != [] && FirstElem(t).Some?
    ensures var rest := FirstElem(t).value.1; rest == t[|t| - |rest|..]
  {
    if t[0] == OPEN {
      var u := t[1..];
      var v := if u[0] == CARET then u[1..] else u;
      ClassItemsSuffix(v, false);
    }
  }

  // ---- Overlap is decided segment by segment ----

  lemma {:induction false} MatchedTextHasNoSlash(ps: seq<Atom>, t: Text)
    requires Matches(ps, t)
    requires forall k :: 0 <= k < |ps| ==> NoSlashAtom(ps[k])
    ensures NoSlash(t)
    decreases |ps|
  {
    if ps != [] {
      if ps[0].Run? {
        var k :| 0 <= k <= |t| && NoSlash(t[..k]) && Matches(ps[1..], t[k..]);
        MatchedTextHasNoSlash(ps[1..], t[k..]);
        assert t == t[..k] + t[k..];
      } else {
        MatchedTextHasNoSlash(ps[1..], t[1..]);
        assert NoSlashAtom(ps[0]);
        assert t == [t[0]] + t[1..];
      }
    }
  }

  ghost function CommonSegment(a: Text, b: Text): (t: Text)
    requires SegmentsOverlap(a, b)
    ensures SegmentMatches(a, t) && SegmentMatches(b, t)
  {
    var t :| SegmentMatches(a, t) && SegmentMatches(b, t);
    t
  }

  lemma OverlapBySegment(a: Text, b: Text)
    ensures Overlap(a, b) <==>
      |Split(a)| == |Split(b)| &&
      forall k :: 0 <= k < |Split(a)| ==> SegmentsOverlap(Split(a)[k], Split(b)[k])
  {
    var sa, sb := Split(a), Split(b);
    if path :| PatternMatches(a, path) && PatternMatches(b, path) {
      forall k | 0 <= k < |sa|
        ensures SegmentsOverlap(sa[k], sb[k])
      {
        assert SegmentMatches(sa[k], Split(path)[k]) && SegmentMatches(sb[k], Split(path)[k]);
      }
    }
    if |sa| == |sb| && forall k :: 0 <= k < |sa| ==> SegmentsOverlap(sa[k], sb[k]) {
      var segments := seq(|sa|, k requires 0 <= k < |sa| => CommonSegment(sa[k], sb[k]));
      forall k | 0 <= k < |segments|
        ensures NoSlash(segments[k])
      {
        SplitNoSlash(a);
        ParsedAtomsAvoidSlash(sa[k]);
        MatchedTextHasNoSlash(Meanings(Parse(sa[k]).value), segments[k]);
      }
      SplitJoin(segments);
      assert PatternMatches(a, Join(segments)) && PatternMatches(b, Join(segments));
    }
  }
}
