// Patterns read straight off their characters, with no segments, elements or ranges:
// what a pattern matches and what it counts for, for every text.
module GlobText {
  import opened Basics
  import opened Ranges
  import opened Glob
  import opened GlobEngine
  import opened GlobScalars

  // ---- Classes ----

  // A character of a class, maybe escaped; a class does not reach past a separator.
  function ClassChar(q: Text): (r: Option<(Rune, Text)>)
    ensures r.Some? ==> |r.value.1| < |q|
  {
    if q == [] || q[0] == 0x2F then None
    else if q[0] != 0x5C then Some((q[0], q[1..]))
    else if |q| == 1 || q[1] == 0x2F then None
    else Some((q[1], q[2..]))
  }

  // One item of a class, a character or two with a dash between them: whether it holds c.
  function ItemHolds(q: Text, c: Rune): (r: Option<(bool, Text)>)
    ensures r.Some? ==> |r.value.1| < |q|
  {
    match ClassChar(q)
    case None => None
    case Some((lo, q1)) =>
      if |q1| >= 2 && q1[0] == 0x2D && q1[1] != 0x5D && q1[1] != 0x2F then
        match ClassChar(q1[1..])
        case None => None
        case Some((hi, q2)) => if hi < lo then None else Some((lo <= c <= hi, q2))
      else Some((c == lo, q1))
  }

  // Whether the class whose text goes on here lists c, and what follows its bracket.
  function Listed(q: Text, had: bool, c: Rune): (r: Option<(bool, Text)>)
    ensures r.Some? ==> |r.value.1| < |q|
    decreases |q|
  {
    if q == [] then None
    else if q[0] == 0x5D && had then Some((false, q[1..]))
    else
      match ItemHolds(q, c)
      case None => None
      case Some((here, q')) =>
        match Listed(q', true, c)
        case None => None
        case Some((later, rest)) => Some((here || later, rest))
  }

  predicate Negated(q: Text) {
    q != [] && q[0] == 0x5E
  }

  // The text of a class after the opening bracket: whether it accepts c, and the rest.
  function ClassAccepts(q: Text, c: Rune): (r: Option<(bool, Text)>)
    ensures r.Some? ==> |r.value.1| < |q|
  {
    match Listed(if Negated(q) then q[1..] else q, false, c)
    case None => None
    case Some((listed, rest)) => Some((listed != Negated(q), rest))
  }

  // ---- Matching ----

  ghost predicate Fits(p: Text, t: Text)
    decreases |p| + |t|
  {
    if p == [] then t == []
    else if p[0] == 0x2A then Fits(p[1..], t) || (t != [] && t[0] != 0x2F && Fits(p, t[1..]))
    else if t == [] then false
    else if p[0] == 0x3F then t[0] != 0x2F && Fits(p[1..], t[1..])
    else if p[0] == 0x5C then |p| > 1 && p[1] != 0x2F && t[0] == p[1] && Fits(p[2..], t[1..])
    else if p[0] == 0x5B then
      var r := ClassAccepts(p[1..], t[0]);
      t[0] != 0x2F && r.Some? && r.value.0 && Fits(r.value.1, t[1..])
    else t[0] == p[0] && Fits(p[1..], t[1..])
  }

  // ---- What the gate counts ----

  function Plus(wildcards: nat, rest: Option<(nat, nat)>): Option<(nat, nat)> {
    if rest.Some? then Some((rest.value.0 + 1, rest.value.1 + wildcards)) else None
  }

  // Tokens and wildcards, or nothing for a malformed pattern.
  function Weight(p: Text): Option<(nat, nat)>
    decreases |p|
  {
    if p == [] then Some((0, 0))
    else if p[0] == 0x2F then Weight(p[1..])
    else if p[0] == 0x2A || p[0] == 0x3F then Plus(1, Weight(p[1..]))
    else if p[0] == 0x5C then
      if |p| == 1 || p[1] == 0x2F then None else Plus(0, Weight(p[2..]))
    else if p[0] == 0x5B then
      var r := ClassAccepts(p[1..], 0);
      if r.None? then None else Plus(0, Weight(r.value.1))
    else Plus(0, Weight(p[1..]))
  }

  // ---- The first segment ----

  // Some characters of the first segment are taken off.
  lemma {:induction false} SplitDrop(q: Text, k: nat)
    requires k <= |Split(q)[0]|
    ensures k <= |q| && q[..k] == Split(q)[0][..k]
    ensures Split(q[k..]) == [Split(q)[0][k..]] + Split(q)[1..]
  {
    if k > 0 {
      var r := Split(q[1..]);
      SplitDrop(q[1..], k - 1);
      assert Split(q)[0] == [q[0]] + r[0] && Split(q)[1..] == r[1..];
      assert ([q[0]] + r[0])[k..] == r[0][k - 1..];
      assert q[1..][k - 1..] == q[k..];
      assert q[..k] == [q[0]] + q[1..][..k - 1];
    } else {
      assert q[0..] == q && Split(q) == [Split(q)[0]] + Split(q)[1..];
    }
  }

  // What is left of the first segment is what is left of the text.
  predicate RestOf(q: Text, rest: Text, q': Text) {
    |rest| <= |Split(q)[0]| <= |q| && q' == q[|Split(q)[0]| - |rest|..] && Split(q') == [rest] + Split(q)[1..]
  }

  lemma RestRest(q: Text, r1: Text, q1: Text, r2: Text, q2: Text)
    requires RestOf(q, r1, q1) && RestOf(q1, r2, q2)
    ensures RestOf(q, r2, q2)
  {
  }

  lemma RestAt(q: Text, k: nat)
    requires k <= |Split(q)[0]|
    ensures k <= |q| && RestOf(q, Split(q)[0][k..], q[k..])
  {
    SplitDrop(q, |Split(q)[0]|);
    SplitDrop(q, k);
  }

  lemma ClassCharExact(q: Text)
    ensures var u := Split(q)[0];
      && (ClassRune(u).None? <==> ClassChar(q).None?)
      && (ClassRune(u).Some? ==>
            && ClassChar(q).Some? && ClassChar(q).value.0 == ClassRune(u).value.0
            && RestOf(q, ClassRune(u).value.1, ClassChar(q).value.1))
  {
    var u := Split(q)[0];
    if q != [] && q[0] != SLASH {
      RestAt(q, 1);
      if |u| >= 2 {
        RestAt(q, 2);
      }
      assert q[0] == u[0];
      if |q| > 1 && q[1] != SLASH {
        assert Split(q[1..])[0] != [] && u[1] == q[1];
      }
    }
  }

  // After its first character an item goes on alike in both readings.
  lemma DashExact(rest: Text, q1: Text)
    requires rest == Split(q1)[0]
    ensures var dash := |rest| >= 2 && rest[0] == DASH && rest[1] != CLOSE;
      && (dash <==> |q1| >= 2 && q1[0] == 0x2D && q1[1] != 0x5D && q1[1] != 0x2F)
      && (dash ==> RestOf(q1, rest[1..], q1[1..]) && Split(q1[1..])[0] == rest[1..])
  {
    FirstChars(q1);
    if rest != [] {
      RestAt(q1, 1);
    }
  }

  lemma ItemExact(q: Text, c: Rune)
    ensures ClassItem(Split(q)[0]).None? <==> ItemHolds(q, c).None?
    ensures ClassItem(Split(q)[0]).Some? ==>
      var (item, rest) := ClassItem(Split(q)[0]).value;
      ItemHolds(q, c).value.0 == (item.lo <= c <= item.hi) && RestOf(q, rest, ItemHolds(q, c).value.1)
  {
    ClassCharExact(q);
    if ClassRune(Split(q)[0]).Some? {
      var rest, q1 := ClassRune(Split(q)[0]).value.1, ClassChar(q).value.1;
      DashExact(rest, q1);
      if |rest| >= 2 && rest[0] == DASH && rest[1] != CLOSE {
        ClassCharExact(q1[1..]);
        if ClassRune(rest[1..]).Some? {
          var rest2, q2 := ClassRune(rest[1..]).value.1, ClassChar(q1[1..]).value.1;
          RestRest(q1, rest[1..], q1[1..], rest2, q2);
          RestRest(q, rest, q1, rest2, q2);
        }
      }
    }
  }

  // The first two characters of a text, if they are in its first segment.
  lemma FirstChars(q: Text)
    ensures var u := Split(q)[0];
      && (u == [] <==> q == [] || q[0] == SLASH)
      && (u != [] ==> u[0] == q[0])
      && (|u| == 1 ==> |q| == 1 || q[1] == SLASH)
      && (|u| > 1 ==> |q| > 1 && u[1] == q[1])
  {
    if q != [] && q[0] != SLASH {
      assert Split(q)[0] == [q[0]] + Split(q[1..])[0];
    }
  }

  lemma InFirst(c: int, item: RuneRange, items: seq<RuneRange>)
    ensures In(c, [item] + items) <==> item.lo <= c <= item.hi || In(c, items)
  {
    InConcat(c, [item], items);
    assert item in [item];
  }

  // Listing reads the class as the grammar does, one rune at a time instead of as ranges.
  lemma {:induction false} ListedExact(q: Text, had: bool, c: Rune)
    ensures ClassItems(Split(q)[0], had).None? <==> Listed(q, had, c).None?
    ensures ClassItems(Split(q)[0], had).Some? ==>
      var (items, rest) := ClassItems(Split(q)[0], had).value;
      Listed(q, had, c).value.0 == In(c, items) && RestOf(q, rest, Listed(q, had, c).value.1)
    decreases |q|
  {
    var u := Split(q)[0];
    FirstChars(q);
    if u != [] {
      if u[0] == CLOSE && had {
        RestAt(q, 1);
      } else {
        ItemExact(q, c);
        if ClassItem(u).Some? {
          var (item, rest) := ClassItem(u).value;
          var q' := ItemHolds(q, c).value.1;
          ListedExact(q', true, c);
          if ClassItems(rest, true).Some? {
            InFirst(c, item, ClassItems(rest, true).value.0);
            RestRest(q, rest, q', ClassItems(rest, true).value.1, Listed(q', true, c).value.1);
          }
        }
      }
    }
  }

  // ---- The first element of a pattern ----

  lemma SegmentCons(u: Text, e: Elem, rest: Text, v: Text)
    requires u != [] && FirstElem(u) == Some((e, rest))
    ensures SegmentMatches(u, v) <==> Parse(rest).Some? && Matches(Meanings([e] + Parse(rest).value), v)
  {
  }

  lemma SegmentOne(u: Text, e: Elem, rest: Text, v: Text)
    requires u != [] && FirstElem(u) == Some((e, rest)) && !e.Star?
    ensures SegmentMatches(u, v) <==> v != [] && Accepts(e, v[0]) && SegmentMatches(rest, v[1..])
  {
    SegmentCons(u, e, rest, v);
    if Parse(rest).Some? {
      var es := Parse(rest).value;
      MeaningsTail([e] + es);
      assert ([e] + es)[1..] == es;
    }
  }

  lemma SegmentStar(u: Text, rest: Text, v: Text)
    requires u != [] && FirstElem(u) == Some((Star, rest))
    ensures SegmentMatches(u, v) <==> SegmentMatches(rest, v) || (v != [] && v[0] != SLASH && SegmentMatches(u, v[1..]))
  {
    SegmentCons(u, Star, rest, v);
    if Parse(rest).Some? {
      var es := Parse(rest).value;
      var all := [Star] + es;
      assert all[1..] == es;
      if Matches(Meanings(all), v) {
        if v == [] {
          EmptyMatch(all);
        } else {
          FirstMove(all, v);
        }
      }
      if Matches(Meanings(es), v) {
        SkipStar(all, v);
      }
      if v != [] && v[0] != SLASH && Matches(Meanings(all), v[1..]) {
        ReadFirst(all, v[0], v[1..]);
        assert [v[0]] + v[1..] == v;
      }
    }
  }

  ghost predicate AllMatch(ps: seq<Text>, ts: seq<Text>) {
    |ps| == |ts| && forall k :: 0 <= k < |ps| ==> SegmentMatches(ps[k], ts[k])
  }

  lemma HeadTail(ps: seq<Text>, ts: seq<Text>)
    requires ps != [] && ts != []
    ensures AllMatch(ps, ts) <==> SegmentMatches(ps[0], ts[0]) && AllMatch(ps[1..], ts[1..])
  {
    if SegmentMatches(ps[0], ts[0]) && AllMatch(ps[1..], ts[1..]) {
      forall k | 0 <= k < |ps|
        ensures SegmentMatches(ps[k], ts[k])
      {
        if k > 0 {
          assert SegmentMatches(ps[1..][k - 1], ts[1..][k - 1]);
        }
      }
    }
  }

  // A pattern that starts with this element, and what comes after it.
  predicate StartsWith(p: Text, e: Elem, p': Text) {
    && p != [] && p[0] != SLASH && Split(p)[0] != []
    && FirstElem(Split(p)[0]).Some? && FirstElem(Split(p)[0]).value.0 == e
    && RestOf(p, FirstElem(Split(p)[0]).value.1, p') && |p'| < |p|
  }

  lemma OneStep(p: Text, e: Elem, p': Text, t: Text)
    requires StartsWith(p, e, p') && !e.Star?
    ensures PatternMatches(p, t) <==> t != [] && t[0] != SLASH && Accepts(e, t[0]) && PatternMatches(p', t[1..])
  {
    var rest, v := FirstElem(Split(p)[0]).value.1, Split(t)[0];
    SegmentOne(Split(p)[0], e, rest, v);
    HeadTail(Split(p), Split(t));
    FirstChars(t);
    if v != [] {
      RestAt(t, 1);
      HeadTail(Split(p'), Split(t[1..]));
    }
  }

  lemma StarStep(p: Text, p': Text, t: Text)
    requires StartsWith(p, Star, p')
    ensures PatternMatches(p, t) <==> PatternMatches(p', t) || (t != [] && t[0] != SLASH && PatternMatches(p, t[1..]))
  {
    var rest, v := FirstElem(Split(p)[0]).value.1, Split(t)[0];
    SegmentStar(Split(p)[0], rest, v);
    HeadTail(Split(p), Split(t));
    HeadTail(Split(p'), Split(t));
    FirstChars(t);
    if v != [] {
      RestAt(t, 1);
      HeadTail(Split(p), Split(t[1..]));
    }
  }

  lemma SlashStep(p: Text, t: Text)
    requires p != [] && p[0] == SLASH
    ensures PatternMatches(p, t) <==> t != [] && t[0] == SLASH && PatternMatches(p[1..], t[1..])
  {
    HeadTail(Split(p), Split(t));
    assert Parse([]) == Some([]) && Meanings([]) == [];
    if t != [] && t[0] == SLASH {
      assert Split(t)[1..] == Split(t[1..]);
    } else {
      FirstChars(t);
    }
  }

  lemma NothingStep(t: Text)
    ensures PatternMatches([], t) <==> t == []
  {
    HeadTail(Split([]), Split(t));
    FirstChars(t);
    assert Parse([]) == Some([]) && Meanings([]) == [];
  }

  predicate Special(c: Rune) {
    c == 0x2A || c == 0x3F || c == 0x5B || c == 0x5C
  }

  lemma LiteralStart(p: Text)
    requires p != [] && p[0] != SLASH && !Special(p[0])
    ensures StartsWith(p, Lit(p[0]), p[1..])
  {
    FirstChars(p);
    RestAt(p, 1);
  }

  lemma WildcardStart(p: Text)
    requires p != [] && (p[0] == 0x2A || p[0] == 0x3F)
    ensures StartsWith(p, if p[0] == 0x2A then Star else Any, p[1..])
  {
    FirstChars(p);
    RestAt(p, 1);
  }

  lemma EscapeStart(p: Text)
    requires p != [] && p[0] == 0x5C
    ensures if |p| > 1 && p[1] != SLASH then StartsWith(p, Lit(p[1]), p[2..]) else FirstElem(Split(p)[0]).None?
    ensures Split(p)[0] != []
  {
    FirstChars(p);
    if |p| > 1 && p[1] != SLASH {
      RestAt(p, 2);
    }
  }

  lemma ClassStart(p: Text, c: Rune)
    requires p != [] && p[0] == 0x5B
    ensures Split(p)[0] != [] && (FirstElem(Split(p)[0]).None? <==> ClassAccepts(p[1..], c).None?)
    ensures ClassAccepts(p[1..], c).Some? ==>
      var e := FirstElem(Split(p)[0]).value.0;
      && StartsWith(p, e, ClassAccepts(p[1..], c).value.1) && e.Class?
      && (Accepts(e, c) <==> c != SLASH && ClassAccepts(p[1..], c).value.0)
  {
    FirstChars(p);
    RestAt(p, 1);
    var u, q := Split(p)[0][1..], p[1..];
    FirstChars(q);
    if Negated(q) {
      RestAt(q, 1);
      ListedExact(q[1..], false, c);
      if ClassItems(u[1..], false).Some? {
        var rest := ClassItems(u[1..], false).value.1;
        RestRest(q, u[1..], q[1..], rest, ClassAccepts(q, c).value.1);
        RestRest(p, u, q, rest, ClassAccepts(q, c).value.1);
      }
    } else {
      ListedExact(q, false, c);
      if ClassItems(u, false).Some? {
        RestRest(p, u, q, ClassItems(u, false).value.1, ClassAccepts(q, c).value.1);
      }
    }
  }

  // A pattern whose first element does not parse matches nothing.
  lemma BadStart(p: Text, t: Text)
    requires Split(p)[0] != [] && FirstElem(Split(p)[0]).None?
    ensures !PatternMatches(p, t)
  {
    assert Parse(Split(p)[0]).None?;
    assert !SegmentMatches(Split(p)[0], Split(t)[0]);
  }

  // ---- The two readings agree ----

  // Every pattern, well-formed or not, matches exactly the paths that fit its characters.
  lemma {:induction false} FitsExact(p: Text, t: Text)
    ensures PatternMatches(p, t) <==> Fits(p, t)
    decreases |p| + |t|
  {
    if p == [] {
      NothingStep(t);
    } else if p[0] == SLASH {
      SlashStep(p, t);
      if t != [] {
        FitsExact(p[1..], t[1..]);
      }
    } else if p[0] == 0x2A {
      WildcardStart(p);
      StarStep(p, p[1..], t);
      FitsExact(p[1..], t);
      if t != [] {
        FitsExact(p, t[1..]);
      }
    } else {
      ReadingAgrees(p, t);
    }
  }

  lemma {:induction false} ReadingAgrees(p: Text, t: Text)
    requires p != [] && p[0] != SLASH && p[0] != 0x2A
    ensures PatternMatches(p, t) <==> Fits(p, t)
    decreases |p| + |t|, 0
  {
    var c: Rune := if t == [] then 0 else t[0];
    if p[0] == 0x3F {
      WildcardStart(p);
      OneStep(p, Any, p[1..], t);
      if t != [] {
        FitsExact(p[1..], t[1..]);
      }
    } else if p[0] == 0x5C {
      EscapeStart(p);
      if |p| > 1 && p[1] != SLASH {
        OneStep(p, Lit(p[1]), p[2..], t);
        if t != [] {
          FitsExact(p[2..], t[1..]);
        }
      } else {
        BadStart(p, t);
      }
    } else if p[0] == 0x5B {
      ClassStart(p, c);
      if ClassAccepts(p[1..], c).None? {
        BadStart(p, t);
      } else {
        var rest := ClassAccepts(p[1..], c).value.1;
        OneStep(p, FirstElem(Split(p)[0]).value.0, rest, t);
        if t != [] {
          FitsExact(rest, t[1..]);
        }
      }
    } else {
      LiteralStart(p);
      OneStep(p, Lit(p[0]), p[1..], t);
      if t != [] {
        FitsExact(p[1..], t[1..]);
      }
    }
  }

  // ---- Patterns without wildcards, classes and escapes ----

  predicate Plain(p: Text) {
    forall i :: 0 <= i < |p| ==> !Special(p[i])
  }

  lemma {:induction false} PlainFits(p: Text, t: Text)
    requires Plain(p)
    ensures Fits(p, t) <==> t == p
  {
    if p != [] {
      assert Plain(p[1..]);
      if t != [] {
        PlainFits(p[1..], t[1..]);
        assert t == [t[0]] + t[1..] && p == [p[0]] + p[1..];
      }
    }
  }

  // Such a pattern matches itself and nothing else.
  lemma PlainMatchesItself(p: Text, t: Text)
    requires Plain(p)
    ensures PatternMatches(p, t) <==> t == p
  {
    FitsExact(p, t);
    PlainFits(p, t);
  }

  // So two of them overlap exactly when they are equal.
  lemma PlainOverlap(a: Text, b: Text)
    requires Plain(a) && Plain(b)
    ensures Overlap(a, b) <==> a == b
  {
    PlainMatchesItself(a, a);
    forall t | PatternMatches(a, t) && PatternMatches(b, t)
      ensures a == b
    {
      PlainMatchesItself(a, t);
      PlainMatchesItself(b, t);
    }
    PlainMatchesItself(b, a);
  }

  // ---- What unescaped classes hold ----

  // Characters that stand for themselves: a closing bracket only in first place.
  predicate Members(cs: Text) {
    && cs != [] && forall i :: 0 <= i < |cs| ==> cs[i] != 0x2F && cs[i] != 0x5C && cs[i] != 0x2D && (i > 0 ==> cs[i] != 0x5D)
  }

  lemma {:induction false} MembersListed(cs: Text, dash: bool, had: bool, c: Rune)
    requires Members(cs) && (had ==> cs[0] != 0x5D)
    ensures Listed(cs + (if dash then [0x2D] else []) + [0x5D], had, c) == Some((c in cs || (dash && c == 0x2D), []))
  {
    var end: Text := (if dash then [0x2D] else []) + [0x5D];
    var q := cs + end;
    assert cs + (if dash then [0x2D] else []) + [0x5D] == q;
    assert q[1..] == cs[1..] + end && cs == [cs[0]] + cs[1..];
    assert ItemHolds(q, c) == Some((c == cs[0], q[1..]));
    if |cs| > 1 {
      assert Members(cs[1..]);
      MembersListed(cs[1..], dash, true, c);
      assert cs[1..] + (if dash then [0x2D] else []) + [0x5D] == q[1..];
    } else {
      EndListed(dash, c);
      assert q[1..] == end;
    }
  }

  // What follows the last member: the bracket, or a dash for itself and the bracket.
  lemma EndListed(dash: bool, c: Rune)
    ensures Listed((if dash then [0x2D] else []) + [0x5D], true, c) == Some((dash && c == 0x2D, []))
  {
    var end: Text := (if dash then [0x2D] else []) + [0x5D];
    if dash {
      assert end[1..] == [0x5D] && end[1..][1..] == [];
      assert ItemHolds(end, c) == Some((c == 0x2D, end[1..]));
    } else {
      assert end == [0x5D] && end[1..] == [];
    }
  }

  // A pattern that is one class matches the single characters that the class accepts.
  lemma OneClass(q: Text, t: Text)
    requires t != [] ==> ClassAccepts(q, t[0]).Some? && ClassAccepts(q, t[0]).value.1 == []
    ensures PatternMatches([0x5B] + q, t) <==> |t| == 1 && t[0] != 0x2F && ClassAccepts(q, t[0]).value.0
  {
    FitsExact([0x5B] + q, t);
    assert ([0x5B] + q)[1..] == q;
    if t != [] {
      assert Fits([], t[1..]) <==> t[1..] == [];
    }
  }

  // [abc], [^abc], []abc] and [abc-]: the members, a final dash, or anything else but the
  // separator.
  lemma ClassOfMembers(cs: Text, negated: bool, dash: bool, t: Text)
    requires Members(cs) && (negated || cs[0] != 0x5E)
    ensures PatternMatches([0x5B] + (if negated then [0x5E] else []) + cs + (if dash then [0x2D] else []) + [0x5D], t) <==>
            |t| == 1 && t[0] != 0x2F && ((t[0] in cs || (dash && t[0] == 0x2D)) != negated)
  {
    var body: Text := cs + (if dash then [0x2D] else []) + [0x5D];
    var q := (if negated then [0x5E] else []) + body;
    assert [0x5B] + (if negated then [0x5E] else []) + cs + (if dash then [0x2D] else []) + [0x5D] == [0x5B] + q;
    assert (if Negated(q) then q[1..] else q) == body;
    if t != [] {
      MembersListed(cs, dash, false, t[0]);
    }
    OneClass(q, t);
  }

  // [a-z]: the characters from the one to the other, without the separator.
  lemma ClassOfRange(lo: Rune, hi: Rune, t: Text)
    requires lo != 0x2F && lo != 0x5C && lo != 0x5E && hi != 0x2F && hi != 0x5C && hi != 0x5D && lo <= hi
    ensures PatternMatches([0x5B, lo, 0x2D, hi, 0x5D], t) <==> |t| == 1 && t[0] != 0x2F && lo <= t[0] <= hi
  {
    var q: Text := [lo, 0x2D, hi, 0x5D];
    assert [0x5B, lo, 0x2D, hi, 0x5D] == [0x5B] + q;
    if t != [] {
      RangeListed(lo, hi, t[0]);
    }
    OneClass(q, t);
  }

  lemma RangeListed(lo: Rune, hi: Rune, c: Rune)
    requires lo != 0x2F && lo != 0x5C && hi != 0x2F && hi != 0x5C && hi != 0x5D
    ensures Listed([lo, 0x2D, hi, 0x5D], false, c) == if hi < lo then None else Some((lo <= c <= hi, []))
  {
    var q: Text := [lo, 0x2D, hi, 0x5D];
    assert q[1..] == [0x2D, hi, 0x5D] && q[1..][1..] == [hi, 0x5D] && q[1..][1..][1..] == [0x5D];
    assert ItemHolds(q, c) == if hi < lo then None else Some((lo <= c <= hi, [0x5D]));
    EndListed(false, c);
    assert [] + [0x5D] == [0x5D];
  }

  // ---- What the gate counts ----

  lemma {:induction false} TokenCountFront(u: Text, us: seq<Text>)
    ensures TokenCount([u] + us) == SegmentTokens(u) + TokenCount(us)
    ensures WildcardCount([u] + us) == SegmentWildcards(u) + WildcardCount(us)
  {
    var all := [u] + us;
    if us == [] {
      assert all[..|all| - 1] == [];
    } else {
      assert all[..|all| - 1] == [u] + us[..|us| - 1];
      TokenCountFront(u, us[..|us| - 1]);
    }
  }

  lemma {:induction false} WildcardsFront(e: Elem, es: seq<Elem>)
    ensures Wildcards([e] + es) == (if e.Star? || e.Any? then 1 else 0) + Wildcards(es)
  {
    var all := [e] + es;
    if es == [] {
      assert all[..|all| - 1] == [];
    } else {
      assert all[..|all| - 1] == [e] + es[..|es| - 1];
      WildcardsFront(e, es[..|es| - 1]);
    }
  }

  // One element more: one token more, and one wildcard more for a star or a question mark.
  lemma StepCounts(p: Text, e: Elem, p': Text)
    requires StartsWith(p, e, p')
    ensures Parses(p) <==> Parses(p')
    ensures Parses(p) ==> TokenCount(Split(p)) == TokenCount(Split(p')) + 1
    ensures Parses(p) ==> WildcardCount(Split(p)) == WildcardCount(Split(p')) + if e.Star? || e.Any? then 1 else 0
  {
    var u, rest := Split(p)[0], FirstElem(Split(p)[0]).value.1;
    var tail := Split(p)[1..];
    assert Split(p) == [u] + tail && Split(p') == [rest] + tail;
    TokenCountFront(u, tail);
    TokenCountFront(rest, tail);
    ParsesFront(u, tail, p);
    ParsesFront(rest, tail, p');
    if Parse(rest).Some? {
      WildcardsFront(e, Parse(rest).value);
    }
  }

  lemma ParsesFront(u: Text, tail: seq<Text>, p: Text)
    requires Split(p) == [u] + tail
    ensures Parses(p) <==> Parse(u).Some? && forall k :: 0 <= k < |tail| ==> Parse(tail[k]).Some?
  {
    var all := [u] + tail;
    if Parse(u).Some? && forall k :: 0 <= k < |tail| ==> Parse(tail[k]).Some? {
      forall k | 0 <= k < |all|
        ensures Parse(all[k]).Some?
      {
        assert k > 0 ==> all[k] == tail[k - 1];
      }
    }
    assert all[0] == u && forall k :: 0 <= k < |tail| ==> all[k + 1] == tail[k];
  }

  lemma SlashCounts(p: Text)
    requires p != [] && p[0] == SLASH
    ensures (Parses(p) <==> Parses(p[1..])) && TokenCount(Split(p)) == TokenCount(Split(p[1..]))
    ensures WildcardCount(Split(p)) == WildcardCount(Split(p[1..]))
  {
    TokenCountFront([], Split(p[1..]));
    ParsesFront([], Split(p[1..]), p);
    assert Parse([]) == Some([]);
  }

  function Counts(p: Text): Option<(nat, nat)> {
    if Parses(p) then Some((TokenCount(Split(p)), WildcardCount(Split(p)))) else None
  }

  predicate Weighed(p: Text) {
    Weight(p) == Counts(p)
  }

  lemma CountsStep(p: Text, e: Elem, p': Text)
    requires StartsWith(p, e, p')
    ensures Counts(p) == Plus(if e.Star? || e.Any? then 1 else 0, Counts(p'))
  {
    StepCounts(p, e, p');
  }

  lemma BadWeight(p: Text)
    requires Split(p)[0] != [] && FirstElem(Split(p)[0]).None? && Weight(p).None?
    ensures Weighed(p)
  {
    assert Parse(Split(p)[0]).None?;
  }

  // Counting characters is counting tokens.
  lemma {:induction false} WeightExact(p: Text)
    ensures Weighed(p)
    decreases |p|
  {
    if p == [] {
      assert Split(p) == [[]] && Parse([]) == Some([]);
      TokenCountFront([], []);
      assert [[]] + [] == Split(p);
    } else if p[0] == 0x2F {
      SlashCounts(p);
      WeightExact(p[1..]);
    } else if p[0] == 0x2A || p[0] == 0x3F {
      WildcardStart(p);
      WeightExact(p[1..]);
      CountsStep(p, if p[0] == 0x2A then Star else Any, p[1..]);
    } else if p[0] == 0x5B {
      ClassWeight(p);
    } else if p[0] == 0x5C {
      EscapeStart(p);
      if |p| > 1 && p[1] != 0x2F {
        WeightExact(p[2..]);
        CountsStep(p, Lit(p[1]), p[2..]);
      } else {
        BadWeight(p);
      }
    } else {
      LiteralStart(p);
      WeightExact(p[1..]);
      CountsStep(p, Lit(p[0]), p[1..]);
    }
  }

  lemma {:induction false} ClassWeight(p: Text)
    requires p != [] && p[0] == 0x5B
    ensures Weighed(p)
    decreases |p|, 0
  {
    ClassStart(p, 0);
    if ClassAccepts(p[1..], 0).Some? {
      var rest := ClassAccepts(p[1..], 0).value.1;
      WeightExact(rest);
      CountsStep(p, FirstElem(Split(p)[0]).value.0, rest);
    } else {
      BadWeight(p);
    }
  }

  // The gate lets a pattern through exactly when it is well-formed and has at most fifty
  // characters, escapes, classes and wildcards, of which at most ten are wildcards.
  lemma AdmissibleExact(p: Text)
    ensures Admissible(p) <==> Weight(p).Some? && Weight(p).value.0 <= 50 && Weight(p).value.1 <= 10
  {
    WeightExact(p);
  }

  // Without classes and escapes these are all characters but the separators, and the stars
  // and question marks.
  lemma {:induction false} SimpleWeight(p: Text)
    requires forall i :: 0 <= i < |p| ==> p[i] != 0x5B && p[i] != 0x5C
    ensures Weight(p) == Some((|p| - multiset(p)[0x2F], multiset(p)[0x2A] + multiset(p)[0x3F]))
  {
    if p != [] {
      SimpleWeight(p[1..]);
      assert p == [p[0]] + p[1..];
      assert multiset(p) == multiset{p[0]} + multiset(p[1..]);
    }
  }

  // ---- Malformed patterns ----

  // A reversed range, an open bracket and a trailing backslash are refused.
  lemma MalformedIsRefused(p: Text, lo: Rune, hi: Rune)
    requires Plain(p) && hi < lo && lo != 0x2F && lo != 0x5C && lo != 0x5E && hi != 0x2F && hi != 0x5C && hi != 0x5D
    ensures !Parses(p + [0x5B, lo, 0x2D, hi, 0x5D]) && !Parses(p + [0x5B, lo]) && !Parses(p + [0x5C])
  {
    RangeListed(lo, hi, 0);
    assert [0x5B, lo, 0x2D, hi, 0x5D][1..] == [lo, 0x2D, hi, 0x5D];
    assert [0x5B, lo][1..] == [lo] && [lo][1..] == [];
    assert Weight([0x5B, lo, 0x2D, hi, 0x5D]).None?;
    assert Listed([lo], false, 0).None?;
    assert Weight([0x5B, lo]).None? && Weight([0x5C]).None?;
    PlainPrefix(p, [0x5B, lo, 0x2D, hi, 0x5D]);
    PlainPrefix(p, [0x5B, lo]);
    PlainPrefix(p, [0x5C]);
    WeightExact(p + [0x5B, lo, 0x2D, hi, 0x5D]);
    WeightExact(p + [0x5B, lo]);
    WeightExact(p + [0x5C]);
  }

  lemma {:induction false} PlainPrefix(p: Text, q: Text)
    requires Plain(p)
    ensures Weight(p + q).Some? <==> Weight(q).Some?
  {
    if p == [] {
      assert p + q == q;
    } else {
      assert Plain(p[1..]) && (p + q)[1..] == p[1..] + q;
      PlainPrefix(p[1..], q);
    }
  }
}
