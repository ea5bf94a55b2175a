// The engine of internal/coordination/glob.go: parser, complexity gate and the
// worklist over the product of two segment automata.
module GlobEngine {
  import opened Ranges
  import opened Basics
  import opened Glob

  datatype GlobError = BadPattern | TooManyTokens | TooManyWildcards

  datatype Result<+T> = Ok(value: T) | Err(error: GlobError)

  const MAX_TOKENS := 50
  const MAX_WILDCARDS := 10

  datatype Token =
    | TokenLiteral(lit: Rune)
    | TokenAny(ranges: seq<RuneRange>)
    | TokenStar
    | TokenClass(ranges: seq<RuneRange>)

  // tokenConsume: the index after reading one rune at idx, and the readable runes.
  function TokenConsume(tokens: seq<Token>, idx: nat): (nat, seq<RuneRange>)
    requires idx < |tokens|
  {
    match tokens[idx]
    case TokenStar => (idx, NON_SEPARATOR)
    case TokenLiteral(lit) => (idx + 1, [RuneRange(lit, lit)])
    case TokenAny(ranges) => (idx + 1, ranges)
    case TokenClass(ranges) => (idx + 1, ranges)
  }

  // The token reads exactly what the element means, from well-kept ranges.
  ghost predicate Denotes(tok: Token, e: Elem) {
    match tok
    case TokenStar => e.Star?
    case TokenLiteral(lit) => e == Lit(lit)
    case TokenAny(ranges) => e.Any? && Exactly(ranges, e)
    case TokenClass(ranges) => e.Class? && Exactly(ranges, e)
  }

  ghost predicate Exactly(ranges: seq<RuneRange>, e: Elem) {
    Ascending(ranges) && forall x :: In(x, ranges) <==> 0 <= x <= MAX_RUNE && Accepts(e, x)
  }

  ghost predicate AllDenote(tokens: seq<Token>, es: seq<Elem>) {
    |tokens| == |es| && forall k :: 0 <= k < |es| ==> Denotes(tokens[k], es[k])
  }

  // ---- parseClass ----

  method ReadClassRune(runes: Text, idx: nat) returns (r: Result<(Rune, nat)>)
    requires idx <= |runes|
    ensures r.Ok? <==> ClassRune(runes[idx..]).Some?
    ensures r.Ok? ==>
      idx < r.value.1 <= |runes| && ClassRune(runes[idx..]) == Some((r.value.0, runes[r.value.1..]))
  {
    if idx >= |runes| {
      return Err(BadPattern);
    }
    if runes[idx] != ESCAPE {
      return Ok((runes[idx], idx + 1));
    }
    if idx + 1 >= |runes| {
      return Err(BadPattern);
    }
    return Ok((runes[idx + 1], idx + 2));
  }

  ghost function WithItems(items: seq<RuneRange>, r: Option<(seq<RuneRange>, Text)>): Option<(seq<RuneRange>, Text)> {
    match r
    case None => None
    case Some((more, rest)) => Some((items + more, rest))
  }

  lemma WithNothing(r: Option<(seq<RuneRange>, Text)>)
    ensures WithItems([], r) == r
  {
    match r
    case None =>
    case Some((more, rest)) => assert [] + more == more;
  }

  lemma ClassItemsUnfold(t: Text, hadItem: bool, items: seq<RuneRange>)
    requires t != [] && !(t[0] == CLOSE && hadItem) && ClassItem(t).Some?
    ensures WithItems(items, ClassItems(t, hadItem)) ==
            WithItems(items + [ClassItem(t).value.0], ClassItems(ClassItem(t).value.1, true))
  {
    var (item, rest) := ClassItem(t).value;
    match ClassItems(rest, true)
    case None =>
    case Some((more, _)) => assert items + ([item] + more) == items + [item] + more;
  }

  // One item of a class: a rune or a dashed pair.
  method ParseClassItem(runes: Text, i: nat) returns (r: Result<(RuneRange, nat)>)
    requires i < |runes|
    ensures r.Ok? <==> ClassItem(runes[i..]).Some?
    ensures r.Ok? ==>
      i < r.value.1 <= |runes| && ClassItem(runes[i..]) == Some((r.value.0, runes[r.value.1..]))
  {
    var lo := ReadClassRune(runes, i);
    if lo.Err? {
      return Err(BadPattern);
    }
    var next := lo.value.1;
    if next + 1 < |runes| && runes[next] == DASH && runes[next + 1] != CLOSE {
      assert runes[next..][1..] == runes[next + 1..];
      var hi := ReadClassRune(runes, next + 1);
      if hi.Err? {
        return Err(BadPattern);
      }
      if hi.value.0 < lo.value.0 {
        return Err(BadPattern);
      }
      return Ok((RuneRange(lo.value.0, hi.value.0), hi.value.1));
    }
    return Ok((RuneRange(lo.value.0, lo.value.0), next));
  }

  // The item loop of parseClass.
  method ParseClassItems(runes: Text, first: nat) returns (r: Result<(seq<RuneRange>, nat)>)
    requires first <= |runes|
    ensures r.Ok? <==> ClassItems(runes[first..], false).Some?
    ensures r.Ok? ==>
      first < r.value.1 <= |runes| && ClassItems(runes[first..], false) == Some((r.value.0, runes[r.value.1..]))
  {
    var i := first;
    var ranges: seq<RuneRange> := [];
    var hadItem := false;
    ghost var spec := ClassItems(runes[first..], false);
    WithNothing(spec);
    while i < |runes|
      invariant first <= i <= |runes|
      invariant spec == WithItems(ranges, ClassItems(runes[i..], hadItem))
      decreases |runes| - i
    {
      ghost var t := runes[i..];
      if runes[i] == CLOSE && hadItem {
        assert t[1..] == runes[i + 1..];
        assert ranges + [] == ranges;
        return Ok((ranges, i + 1));
      }
      var item := ParseClassItem(runes, i);
      if item.Err? {
        return Err(BadPattern);
      }
      ClassItemsUnfold(t, hadItem, ranges);
      ranges := ranges + [item.value.0];
      i := item.value.1;
      hadItem := true;
    }
    return Err(BadPattern);
  }

  method ParseClass(runes: Text, start: nat) returns (r: Result<(Token, nat)>)
    requires start < |runes|
    ensures r.Ok? <==> ClassElem(runes[start + 1..]).Some?
    ensures r.Ok? ==>
      var (e, rest) := ClassElem(runes[start + 1..]).value;
      start < r.value.1 <= |runes| && rest == runes[r.value.1..] && r.value.0.TokenClass? && Denotes(r.value.0, e)
  {
    var i := start + 1;
    if i >= |runes| {
      return Err(BadPattern);
    }
    var negated := false;
    if runes[i] == CARET {
      assert runes[i..][1..] == runes[i + 1..];
      negated := true;
      i := i + 1;
    }
    var items := ParseClassItems(runes, i);
    if items.Err? {
      return Err(BadPattern);
    }
    var ranges := ClassRanges(negated, items.value.0);
    return Ok((TokenClass(ranges), items.value.1));
  }

  // The last lines of parseClass: the written items, or all the rest, less '/'.
  method ClassRanges(negated: bool, items: seq<RuneRange>) returns (ranges: seq<RuneRange>)
    requires Class(negated, items).Valid()
    ensures Exactly(ranges, Class(negated, items))
  {
    ranges := NormalizeRanges(items);
    ghost var merged := ranges;
    if negated {
      ranges := SubtractRanges(NON_SEPARATOR, ranges);
    } else {
      ranges := IntersectRanges(ranges, NON_SEPARATOR);
    }
    forall x
      ensures In(x, ranges) <==> 0 <= x <= MAX_RUNE && Accepts(Class(negated, items), x)
    {
      NonSeparatorExact(x);
      assert In(x, merged) <==> In(x, items);
    }
  }

  // ---- parseSegment ----

  ghost function WithElems(es: seq<Elem>, r: Option<seq<Elem>>): Option<seq<Elem>> {
    match r
    case None => None
    case Some(more) => Some(es + more)
  }

  lemma ParseUnfold(t: Text, es: seq<Elem>)
    requires t != []
    ensures FirstElem(t).None? ==> Parse(t).None?
    ensures FirstElem(t).Some? ==>
      WithElems(es, Parse(t)) == WithElems(es + [FirstElem(t).value.0], Parse(FirstElem(t).value.1))
  {
    if FirstElem(t).Some? {
      var (e, rest) := FirstElem(t).value;
      match Parse(rest)
      case None =>
      case Some(more) => assert es + ([e] + more) == es + [e] + more;
    }
  }

  lemma AnyDenotes()
    ensures Denotes(TokenAny(NON_SEPARATOR), Any)
  {
    forall x { NonSeparatorExact(x); }
  }

  method ParseSegment(runes: Text) returns (r: Result<seq<Token>>)
    ensures r.Ok? <==> Parse(runes).Some?
    ensures r.Ok? ==> AllDenote(r.value, Parse(runes).value)
  {
    var tokens: seq<Token> := [];
    var i := 0;
    ghost var es: seq<Elem> := [];
    assert runes[0..] == runes;
    assert Parse(runes).Some? ==> [] + Parse(runes).value == Parse(runes).value;
    while i < |runes|
      invariant 0 <= i <= |runes|
      invariant AllDenote(tokens, es)
      invariant Parse(runes) == WithElems(es, Parse(runes[i..]))
      decreases |runes| - i
    {
      ghost var t := runes[i..];
      ParseUnfold(t, es);
      var ch := runes[i];
      if ch == STAR {
        tokens, es := tokens + [TokenStar], es + [Star];
        i := i + 1;
      } else if ch == QUESTION {
        AnyDenotes();
        tokens, es := tokens + [TokenAny(NON_SEPARATOR)], es + [Any];
        i := i + 1;
      } else if ch == OPEN {
        assert t[1..] == runes[i + 1..];
        var tok := ParseClass(runes, i);
        if tok.Err? {
          return Err(BadPattern);
        }
        tokens, es := tokens + [tok.value.0], es + [FirstElem(t).value.0];
        i := tok.value.1;
      } else if ch == ESCAPE {
        if i + 1 >= |runes| {
          return Err(BadPattern);
        }
        tokens, es := tokens + [TokenLiteral(runes[i + 1])], es + [Lit(runes[i + 1])];
        i := i + 2;
      } else {
        tokens, es := tokens + [TokenLiteral(ch)], es + [Lit(ch)];
        i := i + 1;
      }
    }
    assert runes[|runes|..] == [];
    assert es + [] == es;
    return Ok(tokens);
  }

  // ---- ValidateComplexity ----

  function SegmentTokens(segment: Text): nat {
    if Parse(segment).Some? then |Parse(segment).value| else 0
  }

  function TokenCount(segments: seq<Text>): nat {
    if segments == [] then 0
    else TokenCount(segments[..|segments| - 1]) + SegmentTokens(segments[|segments| - 1])
  }

  function Wildcards(es: seq<Elem>): nat {
    if es == [] then 0
    else Wildcards(es[..|es| - 1]) + if es[|es| - 1].Star? || es[|es| - 1].Any? then 1 else 0
  }

  function SegmentWildcards(segment: Text): nat {
    if Parse(segment).Some? then Wildcards(Parse(segment).value) else 0
  }

  function WildcardCount(segments: seq<Text>): nat {
    if segments == [] then 0
    else WildcardCount(segments[..|segments| - 1]) + SegmentWildcards(segments[|segments| - 1])
  }

  // What the gate lets through.
  predicate Admissible(pattern: Text) {
    Parses(pattern) && TokenCount(Split(pattern)) <= MAX_TOKENS && WildcardCount(Split(pattern)) <= MAX_WILDCARDS
  }

  method ValidateComplexity(pattern: Text) returns (r: Result<()>)
    ensures r.Ok? <==> Admissible(pattern)
    ensures r == Err(BadPattern) <==> !Parses(pattern)
    ensures r == Err(TooManyTokens) <==> Parses(pattern) && TokenCount(Split(pattern)) > MAX_TOKENS
  {
    var counts := CountSegments(Split(pattern));
    if counts.Err? {
      return Err(BadPattern);
    }
    var (totalTokens, totalWildcards) := counts.value;
    if totalTokens > MAX_TOKENS {
      return Err(TooManyTokens);
    }
    if totalWildcards > MAX_WILDCARDS {
      return Err(TooManyWildcards);
    }
    return Ok(());
  }

  lemma CountsSnoc(segments: seq<Text>, k: nat)
    requires k < |segments|
    ensures TokenCount(segments[..k + 1]) == TokenCount(segments[..k]) + SegmentTokens(segments[k])
    ensures WildcardCount(segments[..k + 1]) == WildcardCount(segments[..k]) + SegmentWildcards(segments[k])
  {
    assert segments[..k + 1][..k] == segments[..k];
  }

  predicate AllParse(segments: seq<Text>, n: nat)
    requires n <= |segments|
  {
    forall i :: 0 <= i < n ==> Parse(segments[i]).Some?
  }

  // The outer loop of ValidateComplexity.
  method CountSegments(segments: seq<Text>) returns (r: Result<(nat, nat)>)
    ensures r.Ok? <==> AllParse(segments, |segments|)
    ensures r.Ok? ==> r.value == (TokenCount(segments), WildcardCount(segments))
  {
    var totalTokens, totalWildcards := 0, 0;
    for k := 0 to |segments|
      invariant AllParse(segments, k)
      invariant totalTokens == TokenCount(segments[..k])
      invariant totalWildcards == WildcardCount(segments[..k])
    {
      var counts := CountSegment(segments[k]);
      if counts.Err? {
        return Err(BadPattern);
      }
      CountsSnoc(segments, k);
      totalTokens := totalTokens + counts.value.0;
      totalWildcards := totalWildcards + counts.value.1;
    }
    assert segments[..|segments|] == segments;
    return Ok((totalTokens, totalWildcards));
  }

  method CountSegment(segment: Text) returns (r: Result<(nat, nat)>)
    ensures r.Ok? <==> Parse(segment).Some?
    ensures r.Ok? ==> r.value == (SegmentTokens(segment), SegmentWildcards(segment))
  {
    var tokens := ParseSegment(segment);
    if tokens.Err? {
      return Err(BadPattern);
    }
    var wildcards := CountWildcards(tokens.value, Parse(segment).value);
    return Ok((|tokens.value|, wildcards));
  }

  // The inner loop of ValidateComplexity.
  method CountWildcards(tokens: seq<Token>, ghost es: seq<Elem>) returns (n: nat)
    requires AllDenote(tokens, es)
    ensures n == Wildcards(es)
  {
    n := 0;
    for m := 0 to |tokens|
      invariant n == Wildcards(es[..m])
    {
      assert es[..m + 1][..m] == es[..m];
      assert Denotes(tokens[m], es[m]);
      if tokens[m].TokenStar? || tokens[m].TokenAny? {
        n := n + 1;
      }
    }
    assert es[..|es|] == es;
  }

  // ---- The automaton of one segment ----

  ghost predicate Reads(p: Atom, c: Rune) {
    if p.Run? then c != SLASH else c in p.accept
  }

  // After reading w the automaton may stand in front of atom i: it skips a run
  // without reading, stays on a run while reading, or reads past any other atom.
  ghost predicate Reaches(ps: seq<Atom>, i: nat, w: Text)
    requires i <= |ps|
    decreases |w|, i
  {
    || (i == 0 && w == [])
    || (i > 0 && ps[i - 1].Run? && Reaches(ps, i - 1, w))
    || (w != [] && i < |ps| && ps[i].Run? && w[|w| - 1] != SLASH && Reaches(ps, i, w[..|w| - 1]))
    || (w != [] && i > 0 && ps[i - 1].One? && w[|w| - 1] in ps[i - 1].accept && Reaches(ps, i - 1, w[..|w| - 1]))
  }

  lemma {:induction false} ReachThenMatch(ps: seq<Atom>, i: nat, u: Text, v: Text)
    requires i <= |ps| && Reaches(ps, i, u) && Matches(ps[i..], v)
    ensures Matches(ps, u + v)
    decreases |u|, i
  {
    if i == 0 && u == [] {
      assert ps[0..] == ps && u + v == v;
    } else if i > 0 && ps[i - 1].Run? && Reaches(ps, i - 1, u) {
      assert ps[i - 1..][1..] == ps[i..];
      assert NoSlash(v[..0]) && v[0..] == v;
      ReachThenMatch(ps, i - 1, u, v);
    } else {
      var c, u' := u[|u| - 1], u[..|u| - 1];
      assert u + v == u' + ([c] + v);
      assert ([c] + v)[1..] == v;
      if i < |ps| && ps[i].Run? && c != SLASH && Reaches(ps, i, u') {
        var k :| 0 <= k <= |v| && NoSlash(v[..k]) && Matches(ps[i..][1..], v[k..]);
        assert ([c] + v)[..k + 1] == [c] + v[..k];
        assert ([c] + v)[k + 1..] == v[k..];
        assert NoSlash(([c] + v)[..k + 1]);
        ReachThenMatch(ps, i, u', [c] + v);
      } else {
        assert ps[i - 1..][1..] == ps[i..];
        ReachThenMatch(ps, i - 1, u', [c] + v);
      }
    }
  }

  lemma ReachMore(ps: seq<Atom>, i: nat, u: Text)
    requires i < |ps| && Reaches(ps, i, u)
    ensures ps[i].Run? ==> Reaches(ps, i + 1, u)
    ensures forall c: Rune :: ps[i].Run? && c != SLASH ==> Reaches(ps, i, u + [c])
    ensures forall c: Rune :: ps[i].One? && c in ps[i].accept ==> Reaches(ps, i + 1, u + [c])
  {
    forall c: Rune
      ensures (u + [c])[..|u|] == u && (u + [c])[|u|] == c
    {
    }
  }

  // A run matches nothing here, or its first rune.
  lemma RunMatches(ps: seq<Atom>, i: nat, v: Text)
    requires i < |ps| && ps[i].Run? && Matches(ps[i..], v)
    ensures Matches(ps[i + 1..], v) || (v != [] && v[0] != SLASH && Matches(ps[i..], v[1..]))
  {
    assert ps[i..][1..] == ps[i + 1..];
    var k :| 0 <= k <= |v| && NoSlash(v[..k]) && Matches(ps[i + 1..], v[k..]);
    if k == 0 {
      assert v[0..] == v;
    } else {
      assert v[..k][0] == v[0];
      assert v[1..][..k - 1] == v[..k][1..] && v[1..][k - 1..] == v[k..];
    }
  }

  lemma Shift(u: Text, v: Text)
    requires v != []
    ensures u + v == (u + [v[0]]) + v[1..]
  {
  }

  lemma {:induction false} ReachThroughMatch(ps: seq<Atom>, i: nat, u: Text, v: Text)
    requires i <= |ps| && Reaches(ps, i, u) && Matches(ps[i..], v)
    ensures Reaches(ps, |ps|, u + v)
    decreases |ps| - i, |v|
  {
    if i == |ps| {
      assert u + v == u;
    } else {
      ReachMore(ps, i, u);
      assert ps[i..][0] == ps[i] && ps[i..][1..] == ps[i + 1..];
      if ps[i].Run? {
        RunMatches(ps, i, v);
        if Matches(ps[i + 1..], v) {
          ReachThroughMatch(ps, i + 1, u, v);
        } else {
          Shift(u, v);
          ReachThroughMatch(ps, i, u + [v[0]], v[1..]);
        }
      } else {
        Shift(u, v);
        ReachThroughMatch(ps, i + 1, u + [v[0]], v[1..]);
      }
    }
  }

  // The automaton accepts exactly the matched texts.
  lemma AutomatonExact(ps: seq<Atom>, w: Text)
    ensures Reaches(ps, |ps|, w) <==> Matches(ps, w)
  {
    if Reaches(ps, |ps|, w) {
      assert ps[|ps|..] == [];
      ReachThenMatch(ps, |ps|, w, []);
      assert w + [] == w;
    }
    if Matches(ps, w) {
      assert ps[0..] == ps;
      ReachThroughMatch(ps, 0, [], w);
      assert [] + w == w;
    }
  }

  // ---- The product of two automata ----

  datatype State = State(i: nat, j: nat)

  ghost predicate Reachable(pa: seq<Atom>, pb: seq<Atom>, s: State) {
    s.i <= |pa| && s.j <= |pb| && exists w :: Reaches(pa, s.i, w) && Reaches(pb, s.j, w)
  }

  ghost function States(n: nat, m: nat): set<State> {
    set i, j | 0 <= i <= n && 0 <= j <= m :: State(i, j)
  }

  ghost function Row(i: nat, m: nat): set<State> {
    set j | 0 <= j <= m :: State(i, j)
  }

  lemma {:induction false} RowSize(i: nat, m: nat)
    ensures |Row(i, m)| == m + 1
  {
    if m == 0 {
      assert Row(i, 0) == {State(i, 0)};
    } else {
      RowSize(i, m - 1);
      assert Row(i, m) == Row(i, m - 1) + {State(i, m)};
    }
  }

  lemma StatesByRow(n: nat, m: nat)
    requires n > 0
    ensures |States(n, m)| == |States(n - 1, m)| + |Row(n, m)|
  {
    assert States(n, m) == States(n - 1, m) + Row(n, m);
    assert States(n - 1, m) !! Row(n, m);
  }

  lemma {:induction false} StatesSize(n: nat, m: nat)
    ensures |States(n, m)| == (n + 1) * (m + 1)
    decreases n
  {
    RowSize(n, m);
    if n == 0 {
      assert States(0, m) == Row(0, m);
    } else {
      StatesSize(n - 1, m);
      StatesByRow(n, m);
      assert n * (m + 1) + (m + 1) == (n + 1) * (m + 1);
    }
  }

  // Skipping a star on either side stays inside the set.
  ghost predicate SkipClosed(pa: seq<Atom>, pb: seq<Atom>, from: set<State>, to: set<State>) {
    forall s {:trigger SkipsInto(pa, pb, s, to)} :: s in from ==> SkipsInto(pa, pb, s, to)
  }

  ghost predicate SkipsInto(pa: seq<Atom>, pb: seq<Atom>, s: State, to: set<State>) {
    && (s.i < |pa| && pa[s.i].Run? ==> State(s.i + 1, s.j) in to)
    && (s.j < |pb| && pb[s.j].Run? ==> State(s.i, s.j + 1) in to)
  }

  // Reading one common rune from s stays inside the set.
  ghost predicate ReadClosed(pa: seq<Atom>, pb: seq<Atom>, s: State, to: set<State>) {
    s.i < |pa| && s.j < |pb| && (exists c: Rune :: Reads(pa[s.i], c) && Reads(pb[s.j], c)) ==>
      After(pa, pb, s) in to
  }

  ghost function After(pa: seq<Atom>, pb: seq<Atom>, s: State): State
    requires s.i < |pa| && s.j < |pb|
  {
    State(if pa[s.i].Run? then s.i else s.i + 1, if pb[s.j].Run? then s.j else s.j + 1)
  }

  // A closed set that holds the start holds every reachable state.
  lemma {:induction false} ClosedIsComplete(pa: seq<Atom>, pb: seq<Atom>, seen: set<State>, s: State, w: Text)
    requires State(0, 0) in seen
    requires SkipClosed(pa, pb, seen, seen)
    requires forall x {:trigger ReadClosed(pa, pb, x, seen)} :: x in seen ==> ReadClosed(pa, pb, x, seen)
    requires s.i <= |pa| && s.j <= |pb| && Reaches(pa, s.i, w) && Reaches(pb, s.j, w)
    ensures s in seen
    decreases |w|, s.i + s.j
  {
    if s.i > 0 && pa[s.i - 1].Run? && Reaches(pa, s.i - 1, w) {
      ClosedIsComplete(pa, pb, seen, State(s.i - 1, s.j), w);
      assert SkipsInto(pa, pb, State(s.i - 1, s.j), seen);
    } else if s.j > 0 && pb[s.j - 1].Run? && Reaches(pb, s.j - 1, w) {
      ClosedIsComplete(pa, pb, seen, State(s.i, s.j - 1), w);
      assert SkipsInto(pa, pb, State(s.i, s.j - 1), seen);
    } else if w != [] {
      var i := LastRead(pa, s.i, w);
      var j := LastRead(pb, s.j, w);
      var x := State(i, j);
      ClosedIsComplete(pa, pb, seen, x, w[..|w| - 1]);
      assert ReadClosed(pa, pb, x, seen);
    }
  }

  // A position not reached by skipping was reached by reading the last rune.
  lemma LastRead(ps: seq<Atom>, i: nat, w: Text) returns (from: nat)
    requires i <= |ps| && w != [] && Reaches(ps, i, w)
    requires !(i > 0 && ps[i - 1].Run? && Reaches(ps, i - 1, w))
    ensures from < |ps| && Reaches(ps, from, w[..|w| - 1]) && Reads(ps[from], w[|w| - 1])
    ensures i == if ps[from].Run? then from else from + 1
  {
    if i < |ps| && ps[i].Run? && w[|w| - 1] != SLASH && Reaches(ps, i, w[..|w| - 1]) {
      from := i;
    } else {
      from := i - 1;
    }
  }

  lemma ReachableSkip(pa: seq<Atom>, pb: seq<Atom>, s: State)
    requires Reachable(pa, pb, s)
    ensures s.i < |pa| && pa[s.i].Run? ==> Reachable(pa, pb, State(s.i + 1, s.j))
    ensures s.j < |pb| && pb[s.j].Run? ==> Reachable(pa, pb, State(s.i, s.j + 1))
  {
    var w :| Reaches(pa, s.i, w) && Reaches(pb, s.j, w);
    assert s.i < |pa| && pa[s.i].Run? ==> Reaches(pa, s.i + 1, w);
    assert s.j < |pb| && pb[s.j].Run? ==> Reaches(pb, s.j + 1, w);
  }

  lemma ReachableRead(pa: seq<Atom>, pb: seq<Atom>, s: State, c: Rune)
    requires Reachable(pa, pb, s) && s.i < |pa| && s.j < |pb| && Reads(pa[s.i], c) && Reads(pb[s.j], c)
    ensures Reachable(pa, pb, After(pa, pb, s))
  {
    var w :| Reaches(pa, s.i, w) && Reaches(pb, s.j, w);
    assert (w + [c])[..|w|] == w;
    var t := After(pa, pb, s);
    assert Reaches(pa, t.i, w + [c]) && Reaches(pb, t.j, w + [c]);
  }

  // ---- segmentPatternsOverlap ----

  ghost predicate SameStars(tokens: seq<Token>, ps: seq<Atom>) {
    |tokens| == |ps| && forall k :: 0 <= k < |ps| ==> (tokens[k].TokenStar? <==> ps[k].Run?)
  }

  ghost function ReachableStates(pa: seq<Atom>, pb: seq<Atom>): set<State> {
    set s | s in States(|pa|, |pb|) && Reachable(pa, pb, s)
  }

  lemma ReachableStatesSkipClosed(pa: seq<Atom>, pb: seq<Atom>)
    ensures var all := ReachableStates(pa, pb); State(0, 0) in all && SkipClosed(pa, pb, all, all)
  {
    var all := ReachableStates(pa, pb);
    assert Reaches(pa, 0, []) && Reaches(pb, 0, []);
    forall s | s in all
      ensures SkipsInto(pa, pb, s, all)
    {
      ReachableSkip(pa, pb, s);
    }
  }

  // addClosure: visit the initial state and everything reached by skipping stars.
  // `within` is any set closed under skipping; the closure does not leave it.
  method AddClosure(tokensA: seq<Token>, tokensB: seq<Token>, ghost pa: seq<Atom>, ghost pb: seq<Atom>,
                    ghost within: set<State>, initial: State, seen0: set<State>, queue0: seq<State>)
    returns (seen: set<State>, queue: seq<State>)
    requires SameStars(tokensA, pa) && SameStars(tokensB, pb)
    requires SkipClosed(pa, pb, within, within) && initial in within
    requires seen0 <= within && SkipClosed(pa, pb, seen0, seen0)
    requires NoRepeats(queue0) && seen0 == Elements(queue0)
    ensures initial in seen && seen0 <= seen <= within
    ensures SkipClosed(pa, pb, seen, seen)
    ensures queue0 <= queue && NoRepeats(queue) && seen == Elements(queue)
  {
    seen, queue := seen0, queue0;
    var stack := [initial];
    SkipClosedMonotone(pa, pb, seen, seen, seen + Elements(stack));
    while |stack| > 0
      invariant queue0 <= queue && seen0 <= seen <= within
      invariant Elements(stack) <= within
      invariant initial in seen + Elements(stack)
      invariant SkipClosed(pa, pb, seen, seen + Elements(stack))
      invariant NoRepeats(queue) && seen == Elements(queue)
      decreases within - seen, |stack|
    {
      var curr := stack[|stack| - 1];
      ghost var pending := seen + Elements(stack);
      assert stack == stack[..|stack| - 1] + [curr];
      stack := stack[..|stack| - 1];
      ElementsSnoc(stack, curr);
      if curr in seen {
        assert pending == seen + Elements(stack);
        continue;
      }
      ElementsSnoc(queue, curr);
      ghost var was := seen;
      seen := seen + {curr};
      queue := queue + [curr];
      assert SkipsInto(pa, pb, curr, within);
      if curr.i < |tokensA| && tokensA[curr.i].TokenStar? {
        ElementsSnoc(stack, State(curr.i + 1, curr.j));
        stack := stack + [State(curr.i + 1, curr.j)];
      }
      if curr.j < |tokensB| && tokensB[curr.j].TokenStar? {
        ElementsSnoc(stack, State(curr.i, curr.j + 1));
        stack := stack + [State(curr.i, curr.j + 1)];
      }
      SkipClosedGrows(pa, pb, was, pending, curr, seen + Elements(stack));
    }
    assert seen + Elements(stack) == seen;
  }

  lemma SkipClosedMonotone(pa: seq<Atom>, pb: seq<Atom>, from: set<State>, to: set<State>, more: set<State>)
    requires SkipClosed(pa, pb, from, to) && to <= more
    ensures SkipClosed(pa, pb, from, more)
  {
    forall x | x in from
      ensures SkipsInto(pa, pb, x, more)
    {
      assert SkipsInto(pa, pb, x, to);
    }
  }

  lemma SkipClosedGrows(pa: seq<Atom>, pb: seq<Atom>, from: set<State>, to: set<State>, s: State, more: set<State>)
    requires SkipClosed(pa, pb, from, to) && to <= more && SkipsInto(pa, pb, s, more)
    ensures SkipClosed(pa, pb, from + {s}, more)
  {
    forall x | x in from + {s}
      ensures SkipsInto(pa, pb, x, more)
    {
      assert x in from ==> SkipsInto(pa, pb, x, to);
    }
  }

  // The worklist. `queue` lists every visited state once.
  method Explore(tokensA: seq<Token>, tokensB: seq<Token>, ghost ea: seq<Elem>, ghost eb: seq<Elem>)
    returns (overlap: bool, queue: seq<State>)
    requires AllDenote(tokensA, ea) && AllDenote(tokensB, eb)
    ensures overlap <==> exists w :: Matches(Meanings(ea), w) && Matches(Meanings(eb), w)
    ensures NoRepeats(queue) && |queue| <= (|tokensA| + 1) * (|tokensB| + 1)
    ensures Elements(queue) <= ReachableStates(Meanings(ea), Meanings(eb))
    ensures !overlap ==> Elements(queue) == ReachableStates(Meanings(ea), Meanings(eb))
  {
    ghost var pa, pb := Meanings(ea), Meanings(eb);
    ghost var all := ReachableStates(pa, pb);
    ReachableStatesSkipClosed(pa, pb);
    var seen: set<State> := {};
    queue := [];
    seen, queue := AddClosure(tokensA, tokensB, pa, pb, all, State(0, 0), seen, queue);
    var idx := 0;
    while idx < |queue|
      invariant 0 <= idx <= |queue|
      invariant State(0, 0) in seen && seen <= all
      invariant SkipClosed(pa, pb, seen, seen)
      invariant NoRepeats(queue) && seen == Elements(queue)
      invariant AllReadClosed(pa, pb, queue[..idx], seen)
      invariant State(|pa|, |pb|) !in queue[..idx]
      decreases (|pa| + 1) * (|pb| + 1) - idx
    {
      WorklistSize(pa, pb, queue);
      var curr := queue[idx];
      assert curr in seen;
      ghost var done := queue[..idx];
      assert queue[..idx + 1] == done + [curr];
      if curr.i == |tokensA| && curr.j == |tokensB| {
        CommonWord(pa, pb);
        return true, queue;
      }
      if curr.i == |tokensA| || curr.j == |tokensB| {
        ReadClosedGrows(pa, pb, done, seen, curr, seen);
        idx := idx + 1;
        continue;
      }
      ghost var before := seen;
      seen, queue := Visit(tokensA, tokensB, ea, eb, curr, seen, queue);
      assert queue[..idx + 1] == done + [curr];
      AllReadClosedGrows(pa, pb, done, before, seen);
      ReadClosedGrows(pa, pb, done, seen, curr, seen);
      idx := idx + 1;
    }
    overlap := false;
    assert queue[..idx] == queue;
    WorklistSize(pa, pb, queue);
    WorklistComplete(pa, pb, queue);
    NoCommonWord(pa, pb, queue);
  }

  // One turn of the worklist: what the two automata read together leads on.
  method Visit(tokensA: seq<Token>, tokensB: seq<Token>, ghost ea: seq<Elem>, ghost eb: seq<Elem>,
               curr: State, seen0: set<State>, queue0: seq<State>)
    returns (seen: set<State>, queue: seq<State>)
    requires AllDenote(tokensA, ea) && AllDenote(tokensB, eb) && curr.i < |tokensA| && curr.j < |tokensB|
    requires curr in seen0 && seen0 <= ReachableStates(Meanings(ea), Meanings(eb))
    requires SkipClosed(Meanings(ea), Meanings(eb), seen0, seen0) && NoRepeats(queue0) && seen0 == Elements(queue0)
    ensures seen0 <= seen <= ReachableStates(Meanings(ea), Meanings(eb))
    ensures SkipClosed(Meanings(ea), Meanings(eb), seen, seen)
    ensures queue0 <= queue && NoRepeats(queue) && seen == Elements(queue)
    ensures ReadClosed(Meanings(ea), Meanings(eb), curr, seen)
  {
    ghost var pa, pb := Meanings(ea), Meanings(eb);
    seen, queue := seen0, queue0;
    var (aNext, aRanges) := TokenConsume(tokensA, curr.i);
    var (bNext, bRanges) := TokenConsume(tokensB, curr.j);
    ConsumeReads(tokensA, ea, curr.i);
    ConsumeReads(tokensB, eb, curr.j);
    var common := RangesOverlap(aRanges, bRanges);
    ReadStep(pa, pb, curr, aRanges, bRanges, common);
    if common {
      ReachableStatesSkipClosed(pa, pb);
      seen, queue := AddClosure(tokensA, tokensB, pa, pb, ReachableStates(pa, pb), State(aNext, bNext), seen, queue);
    }
  }

  lemma AllReadClosedGrows(pa: seq<Atom>, pb: seq<Atom>, done: seq<State>, to: set<State>, more: set<State>)
    requires AllReadClosed(pa, pb, done, to) && to <= more
    ensures AllReadClosed(pa, pb, done, more)
  {
    forall x | x in done
      ensures ReadClosed(pa, pb, x, more)
    {
      assert ReadClosed(pa, pb, x, to);
    }
  }

  ghost predicate AllReadClosed(pa: seq<Atom>, pb: seq<Atom>, done: seq<State>, to: set<State>) {
    forall s {:trigger ReadClosed(pa, pb, s, to)} :: s in done ==> ReadClosed(pa, pb, s, to)
  }

  lemma ReadClosedGrows(pa: seq<Atom>, pb: seq<Atom>, done: seq<State>, to: set<State>, s: State, more: set<State>)
    requires AllReadClosed(pa, pb, done, to) && to <= more && ReadClosed(pa, pb, s, more)
    ensures AllReadClosed(pa, pb, done + [s], more)
  {
    forall x | x in done + [s]
      ensures ReadClosed(pa, pb, x, more)
    {
      assert x in done ==> ReadClosed(pa, pb, x, to);
    }
  }

  lemma ReadStep(pa: seq<Atom>, pb: seq<Atom>, s: State, aRanges: seq<RuneRange>, bRanges: seq<RuneRange>, common: bool)
    requires s in ReachableStates(pa, pb) && s.i < |pa| && s.j < |pb|
    requires forall x :: In(x, aRanges) <==> 0 <= x <= MAX_RUNE && Reads(pa[s.i], x)
    requires forall x :: In(x, bRanges) <==> 0 <= x <= MAX_RUNE && Reads(pb[s.j], x)
    requires common <==> exists x :: In(x, aRanges) && In(x, bRanges)
    ensures common ==> After(pa, pb, s) in ReachableStates(pa, pb)
    ensures !common ==> forall to {:trigger ReadClosed(pa, pb, s, to)} :: ReadClosed(pa, pb, s, to)
  {
    if common {
      var x :| In(x, aRanges) && In(x, bRanges);
      ReachableRead(pa, pb, s, x);
    } else {
      assert forall c: Rune :: Reads(pa[s.i], c) && Reads(pb[s.j], c) ==> In(c, aRanges) && In(c, bRanges);
    }
  }

  lemma WorklistComplete(pa: seq<Atom>, pb: seq<Atom>, queue: seq<State>)
    requires State(0, 0) in queue
    requires SkipClosed(pa, pb, Elements(queue), Elements(queue))
    requires AllReadClosed(pa, pb, queue, Elements(queue))
    ensures ReachableStates(pa, pb) <= Elements(queue)
  {
    forall s | s in ReachableStates(pa, pb)
      ensures s in Elements(queue)
    {
      var w :| Reaches(pa, s.i, w) && Reaches(pb, s.j, w);
      ClosedIsComplete(pa, pb, Elements(queue), s, w);
    }
  }

  // What tokenConsume returns is what the atom reads.
  lemma ConsumeReads(tokens: seq<Token>, es: seq<Elem>, k: nat)
    requires AllDenote(tokens, es) && k < |es|
    ensures var (next, ranges) := TokenConsume(tokens, k);
      && next == (if Meaning(es[k]).Run? then k else k + 1)
      && Ascending(ranges)
      && forall x :: In(x, ranges) <==> 0 <= x <= MAX_RUNE && Reads(Meaning(es[k]), x)
  {
    var (next, ranges) := TokenConsume(tokens, k);
    assert Denotes(tokens[k], es[k]);
    forall x
      ensures In(x, ranges) <==> 0 <= x <= MAX_RUNE && Reads(Meaning(es[k]), x)
    {
      NonSeparatorExact(x);
      if tokens[k].TokenLiteral? {
        assert ranges[0] in ranges;
      }
    }
  }

  lemma WorklistSize(pa: seq<Atom>, pb: seq<Atom>, queue: seq<State>)
    requires NoRepeats(queue)
    requires Elements(queue) <= ReachableStates(pa, pb)
    ensures |queue| <= (|pa| + 1) * (|pb| + 1)
  {
    NoRepeatsSize(queue);
    StatesSize(|pa|, |pb|);
    assert Elements(queue) <= States(|pa|, |pb|);
    SubsetSize(Elements(queue), States(|pa|, |pb|));
  }

  lemma CommonWord(pa: seq<Atom>, pb: seq<Atom>)
    requires Reachable(pa, pb, State(|pa|, |pb|))
    ensures exists w :: Matches(pa, w) && Matches(pb, w)
  {
    var w :| Reaches(pa, |pa|, w) && Reaches(pb, |pb|, w);
    AutomatonExact(pa, w);
    AutomatonExact(pb, w);
  }

  lemma FinalReachable(pa: seq<Atom>, pb: seq<Atom>, w: Text)
    ensures Reaches(pa, |pa|, w) && Reaches(pb, |pb|, w) ==>
      State(|pa|, |pb|) in ReachableStates(pa, pb)
  {
  }

  lemma NoCommonWord(pa: seq<Atom>, pb: seq<Atom>, queue: seq<State>)
    requires ReachableStates(pa, pb) <= Elements(queue)
    requires State(|pa|, |pb|) !in queue
    ensures forall w :: !(Matches(pa, w) && Matches(pb, w))
  {
    forall w
      ensures !(Matches(pa, w) && Matches(pb, w))
    {
      AutomatonExact(pa, w);
      AutomatonExact(pb, w);
      FinalReachable(pa, pb, w);
    }
  }

  lemma CommonSegmentIff(a: Text, b: Text)
    requires Parse(a).Some? && Parse(b).Some?
    ensures SegmentsOverlap(a, b) <==>
      exists w :: Matches(Meanings(Parse(a).value), w) && Matches(Meanings(Parse(b).value), w)
  {
    if t :| SegmentMatches(a, t) && SegmentMatches(b, t) {
      assert Matches(Meanings(Parse(a).value), t) && Matches(Meanings(Parse(b).value), t);
    }
    if w :| Matches(Meanings(Parse(a).value), w) && Matches(Meanings(Parse(b).value), w) {
      assert SegmentMatches(a, w) && SegmentMatches(b, w);
    }
  }

  method SegmentPatternsOverlap(a: Text, b: Text) returns (r: Result<bool>)
    ensures r.Ok? <==> Parse(a).Some? && Parse(b).Some?
    ensures r.Ok? ==> (r.value <==> SegmentsOverlap(a, b))
  {
    var tokensA := ParseSegment(a);
    if tokensA.Err? {
      return Err(BadPattern);
    }
    var tokensB := ParseSegment(b);
    if tokensB.Err? {
      return Err(BadPattern);
    }
    var overlap, _ := Explore(tokensA.value, tokensB.value, Parse(a).value, Parse(b).value);
    CommonSegmentIff(a, b);
    return Ok(overlap);
  }

  // ---- PatternsOverlap ----

  // Whatever is answered is exact. An error needs a segment that does not parse
  // and that is compared: the counts agree and all earlier segments overlap.
  method PatternsOverlap(a: Text, b: Text) returns (r: Result<bool>)
    ensures r.Ok? ==> (r.value <==> Overlap(a, b))
    ensures r.Err? <==> Fails(Split(a), Split(b))
    ensures Parses(a) && Parses(b) ==> r.Ok?
  {
    var segmentsA := Split(a);
    var segmentsB := Split(b);
    OverlapBySegment(a, b);
    if |segmentsA| != |segmentsB| {
      return Ok(false);
    }
    r := OverlapPairwise(segmentsA, segmentsB);
  }

  // The loop of PatternsOverlap.
  method OverlapPairwise(segmentsA: seq<Text>, segmentsB: seq<Text>) returns (r: Result<bool>)
    requires |segmentsA| == |segmentsB|
    ensures r.Ok? ==> (r.value <==> forall k :: 0 <= k < |segmentsA| ==> SegmentsOverlap(segmentsA[k], segmentsB[k]))
    ensures r.Err? <==> Fails(segmentsA, segmentsB)
  {
    for i := 0 to |segmentsA|
      invariant forall k :: 0 <= k < i ==> SegmentsOverlap(segmentsA[k], segmentsB[k])
    {
      var overlap := SegmentPatternsOverlap(segmentsA[i], segmentsB[i]);
      if overlap.Err? {
        assert FirstBad(segmentsA, segmentsB, i);
        return overlap;
      }
      if !overlap.value {
        NoFailureUpTo(segmentsA, segmentsB, i);
        return Ok(false);
      }
    }
    NoFailureUpTo(segmentsA, segmentsB, |segmentsA|);
    return Ok(true);
  }

  ghost predicate FirstBad(sa: seq<Text>, sb: seq<Text>, k: nat)
    requires k < |sa| == |sb|
  {
    && (Parse(sa[k]).None? || Parse(sb[k]).None?)
    && forall i :: 0 <= i < k ==> SegmentsOverlap(sa[i], sb[i])
  }

  ghost predicate Fails(sa: seq<Text>, sb: seq<Text>) {
    |sa| == |sb| && exists k :: 0 <= k < |sa| && FirstBad(sa, sb, k)
  }

  lemma NoFailureUpTo(sa: seq<Text>, sb: seq<Text>, n: nat)
    requires n <= |sa| == |sb|
    requires forall k :: 0 <= k < n ==> SegmentsOverlap(sa[k], sb[k])
    requires n < |sa| ==> Parse(sa[n]).Some? && Parse(sb[n]).Some? && !SegmentsOverlap(sa[n], sb[n])
    ensures !Fails(sa, sb)
  {
    forall k | 0 <= k < |sa|
      ensures !FirstBad(sa, sb, k)
    {
      assert k < n ==> SegmentsOverlap(sa[k], sb[k]);
    }
  }
}
