// The merged event listing: ListEvents and ListAllEvents of internal/event/store.go.
module Events {
  import opened Basics

  datatype Source = Phase | Dispatch | Discovery | Coordination | Review | Interspect

  // Sources sort by name.
  function Rank(s: Source): nat {
    match s
    case Coordination => 0
    case Discovery => 1
    case Dispatch => 2
    case Interspect => 3
    case Phase => 4
    case Review => 5
  }

  datatype Event = Event(source: Source, id: int, run: Option<string>, at: int, body: string)

  // The six tables; rows stand in the order of their ids.
  datatype Tables = Tables(
    phase: seq<Event>, dispatch: seq<Event>, discovery: seq<Event>,
    coordination: seq<Event>, review: seq<Event>, interspect: seq<Event>)

  function Rows(t: Tables, s: Source): seq<Event> {
    match s
    case Phase => t.phase
    case Dispatch => t.dispatch
    case Discovery => t.discovery
    case Coordination => t.coordination
    case Review => t.review
    case Interspect => t.interspect
  }

  // The six since* marks.
  datatype Cursors = Cursors(phase: int, dispatch: int, discovery: int, coordination: int, review: int, interspect: int)

  function Since(c: Cursors, s: Source): int {
    match s
    case Phase => c.phase
    case Dispatch => c.dispatch
    case Discovery => c.discovery
    case Coordination => c.coordination
    case Review => c.review
    case Interspect => c.interspect
  }

  // ListEvents for one run, or ListAllEvents.
  datatype Mode = OneRun(run: string) | AllRuns

  function Sources(mode: Mode): (r: seq<Source>)
    ensures |r| == if mode.AllRuns? then 6 else 5
    ensures Distinct(r)
  {
    if mode.AllRuns? then [Phase, Dispatch, Discovery, Coordination, Review, Interspect]
    else [Phase, Dispatch, Coordination, Review, Interspect]
  }

  // The phase table is filtered strictly; the others show every row for an empty run.
  predicate Visible(mode: Mode, e: Event) {
    mode.AllRuns? || e.run == Some(mode.run) || (mode.run == "" && e.source != Phase)
  }

  // ---- The order of the listing ----

  predicate Before(a: Event, b: Event) {
    a.at < b.at
    || (a.at == b.at && (Rank(a.source) < Rank(b.source) || (a.source == b.source && a.id < b.id)))
  }

  predicate InOrder(s: seq<Event>) {
    forall i, j :: 0 <= i < j < |s| ==> !Before(s[j], s[i])
  }

  function Insert(e: Event, s: seq<Event>): seq<Event> {
    if s == [] || !Before(s[0], e) then [e] + s else [s[0]] + Insert(e, s[1..])
  }

  // ORDER BY created_at, source, id
  function Sort(s: seq<Event>): seq<Event> {
    if s == [] then [] else Insert(s[0], Sort(s[1..]))
  }

  function Of(s: seq<Event>, source: Source): seq<Event> {
    if s == [] then []
    else (if s[0].source == source then [s[0]] else []) + Of(s[1..], source)
  }

  function Take(s: seq<Event>, n: nat): seq<Event> {
    if |s| <= n then s else s[..n]
  }

  // ---- The query ----

  function Select(rows: seq<Event>, mode: Mode, since: int): seq<Event> {
    if rows == [] then []
    else (if Visible(mode, rows[0]) && rows[0].id > since then [rows[0]] else []) + Select(rows[1..], mode, since)
  }

  // Every source gets ceil(total / sourceCount).
  function PerSourceLimit(total: nat, sourceCount: int): nat {
    if sourceCount <= 0 then total else (total + sourceCount - 1) / sourceCount
  }

  function Limit(limit: int): nat {
    if limit <= 0 then 1000 else limit
  }

  function Part(t: Tables, mode: Mode, c: Cursors, per: nat, s: Source): seq<Event> {
    Take(Sort(Select(Rows(t, s), mode, Since(c, s))), per)
  }

  function Union(t: Tables, mode: Mode, c: Cursors, per: nat, sources: seq<Source>): seq<Event> {
    if sources == [] then [] else Part(t, mode, c, per, sources[0]) + Union(t, mode, c, per, sources[1..])
  }

  function Merge(t: Tables, mode: Mode, c: Cursors, per: nat, sources: seq<Source>, limit: nat): seq<Event> {
    Take(Sort(Union(t, mode, c, per, sources)), limit)
  }

  function List(t: Tables, mode: Mode, c: Cursors, limit: int): seq<Event> {
    Merge(t, mode, c, PerSourceLimit(Limit(limit), |Sources(mode)|), Sources(mode), Limit(limit))
  }

  // ---- What is there to deliver ----

  // Ids grow, and the clock never ran backwards.
  predicate Ordered(rows: seq<Event>) {
    forall i, j :: 0 <= i < j < |rows| ==> rows[i].id < rows[j].id && rows[i].at <= rows[j].at
  }

  predicate From(rows: seq<Event>, s: Source) {
    forall i :: 0 <= i < |rows| ==> rows[i].source == s
  }

  predicate Valid(t: Tables) {
    forall s: Source :: Ordered(Rows(t, s)) && From(Rows(t, s), s)
  }

  // The visible rows of a source beyond its mark, in id order.
  function Pending(t: Tables, mode: Mode, c: Cursors, s: Source): seq<Event> {
    Selection(t, mode, c, Sources(mode), s)
  }

  // ---- Sorting ----

  lemma NotBeforeChains(a: Event, b: Event, c: Event)
    requires !Before(b, a) && !Before(c, b)
    ensures !Before(c, a)
  {
  }

  lemma {:induction false} InsertKeepsOrder(e: Event, s: seq<Event>)
    requires InOrder(s)
    ensures InOrder(Insert(e, s)) && |Insert(e, s)| == |s| + 1
    ensures forall x :: x in Insert(e, s) <==> x == e || x in s
  {
    if s == [] || !Before(s[0], e) {
      HeadInOrder(e, s);
    } else {
      InsertKeepsOrder(e, s[1..]);
      assert s == [s[0]] + s[1..];
      forall x | x in s[1..]
        ensures !Before(x, s[0])
      {
        var j :| 0 < j < |s| && s[j] == x;
      }
      HeadInOrder(s[0], Insert(e, s[1..]));
    }
  }

  lemma HeadInOrder(e: Event, s: seq<Event>)
    requires InOrder(s) && (s != [] ==> !Before(s[0], e))
    ensures InOrder([e] + s)
  {
    var r := [e] + s;
    forall i, j | 0 <= i < j < |r|
      ensures !Before(r[j], r[i])
    {
      if i == 0 && j > 1 {
        NotBeforeChains(e, s[0], s[j - 1]);
      }
    }
  }

  lemma {:induction false} SortSorts(s: seq<Event>)
    ensures InOrder(Sort(s)) && |Sort(s)| == |s|
    ensures forall x :: x in Sort(s) <==> x in s
  {
    if s != [] {
      SortSorts(s[1..]);
      InsertKeepsOrder(s[0], Sort(s[1..]));
      assert s == [s[0]] + s[1..];
    }
  }

  lemma {:induction false} SortedAlready(s: seq<Event>)
    requires InOrder(s)
    ensures Sort(s) == s
  {
    if s != [] {
      SortedAlready(s[1..]);
      assert |s| > 1 ==> !Before(s[1], s[0]);
    }
  }

  lemma {:induction false} OfMembers(s: seq<Event>, source: Source)
    ensures forall e :: e in Of(s, source) <==> e in s && e.source == source
  {
    if s != [] {
      OfMembers(s[1..], source);
    }
  }

  lemma OfHead(e: Event, s: seq<Event>, source: Source)
    ensures Of([e] + s, source) == (if e.source == source then [e] else []) + Of(s, source)
  {
    assert ([e] + s)[1..] == s;
  }

  lemma {:induction false} OfInsert(e: Event, s: seq<Event>, source: Source)
    requires InOrder(s)
    ensures Of(Insert(e, s), source) == if e.source == source then Insert(e, Of(s, source)) else Of(s, source)
  {
    if s == [] || !Before(s[0], e) {
      OfHead(e, s, source);
      var rest := Of(s, source);
      OfMembers(s, source);
      if rest != [] {
        var j :| 0 <= j < |s| && s[j] == rest[0];
        if j > 0 {
          NotBeforeChains(e, s[0], s[j]);
        }
      }
    } else {
      OfInsert(e, s[1..], source);
      OfHead(s[0], Insert(e, s[1..]), source);
      if s[0].source == source {
        var mine := Of(s, source);
        assert mine[0] == s[0] && mine[1..] == Of(s[1..], source);
      } else {
        assert Of(s, source) == Of(s[1..], source);
      }
    }
  }

  // Sorting the union keeps each source's rows in their own order.
  lemma {:induction false} OfSort(s: seq<Event>, source: Source)
    ensures Of(Sort(s), source) == Sort(Of(s, source))
  {
    if s != [] {
      OfSort(s[1..], source);
      SortSorts(s[1..]);
      OfInsert(s[0], Sort(s[1..]), source);
      if s[0].source == source {
        assert Of(s, source)[1..] == Of(s[1..], source);
      } else {
        assert Of(s, source) == Of(s[1..], source);
      }
    }
  }

  lemma {:induction false} OfConcat(a: seq<Event>, b: seq<Event>, source: Source)
    ensures Of(a + b, source) == Of(a, source) + Of(b, source)
  {
    if a == [] {
      assert a + b == b;
    } else {
      OfConcat(a[1..], b, source);
      var h := if a[0].source == source then [a[0]] else [];
      var mine, theirs := Of(a[1..], source), Of(b, source);
      assert (a + b)[1..] == a[1..] + b && (a + b)[0] == a[0];
      assert h + (mine + theirs) == (h + mine) + theirs;
    }
  }

  lemma OfTake(s: seq<Event>, n: nat, source: Source)
    ensures Of(Take(s, n), source) <= Of(s, source)
  {
    if n < |s| {
      assert s == s[..n] + s[n..];
      OfConcat(s[..n], s[n..], source);
    }
  }

  lemma {:induction false} OfOne(s: seq<Event>, own: Source, source: Source)
    requires From(s, own)
    ensures Of(s, source) == if source == own then s else []
  {
    if s != [] {
      OfOne(s[1..], own, source);
    }
  }

  // ---- The query, source by source ----

  lemma {:induction false} SelectMembers(rows: seq<Event>, mode: Mode, since: int)
    ensures forall e :: e in Select(rows, mode, since) <==> e in rows && Visible(mode, e) && e.id > since
  {
    if rows != [] {
      SelectMembers(rows[1..], mode, since);
      assert rows == [rows[0]] + rows[1..];
    }
  }

  lemma {:induction false} SelectOrdered(rows: seq<Event>, mode: Mode, since: int)
    requires Ordered(rows)
    ensures Ordered(Select(rows, mode, since))
  {
    if rows != [] {
      var rest := Select(rows[1..], mode, since);
      SelectOrdered(rows[1..], mode, since);
      SelectMembers(rows[1..], mode, since);
      assert forall e :: e in rows[1..] ==> rows[0].id < e.id && rows[0].at <= e.at;
      HeadOrdered(rows[0], rest);
    }
  }

  lemma HeadOrdered(e: Event, rest: seq<Event>)
    requires Ordered(rest) && forall x :: x in rest ==> e.id < x.id && e.at <= x.at
    ensures Ordered([e] + rest)
  {
  }

  // The same from the end.
  lemma OfSnoc(s: seq<Event>, e: Event, source: Source)
    ensures Of(s + [e], source) == if e.source == source then Of(s, source) + [e] else Of(s, source)
  {
    OfConcat(s, [e], source);
    OfOne([e], e.source, source);
    assert Of(s, source) + [] == Of(s, source);
  }

  lemma SelectSorted(t: Tables, mode: Mode, c: Cursors, s: Source)
    requires Valid(t)
    ensures var p := Select(Rows(t, s), mode, Since(c, s)); From(p, s) && Ordered(p) && Sort(p) == p
  {
    var p := Select(Rows(t, s), mode, Since(c, s));
    assert Ordered(Rows(t, s)) && From(Rows(t, s), s);
    SelectOrdered(Rows(t, s), mode, Since(c, s));
    SelectMembers(Rows(t, s), mode, Since(c, s));
    assert forall i :: 0 <= i < |p| ==> p[i] in Rows(t, s);
    SortedAlready(p);
  }

  lemma {:induction false} OfUnion(t: Tables, mode: Mode, c: Cursors, per: nat, sources: seq<Source>, s: Source)
    requires Valid(t) && Distinct(sources)
    ensures Of(Union(t, mode, c, per, sources), s) ==
            if s in sources then Take(Select(Rows(t, s), mode, Since(c, s)), per) else []
  {
    if sources != [] {
      var part, rest := Part(t, mode, c, per, sources[0]), Union(t, mode, c, per, sources[1..]);
      OfUnion(t, mode, c, per, sources[1..], s);
      OfConcat(part, rest, s);
      OfPart(t, mode, c, per, sources[0], s);
      assert Union(t, mode, c, per, sources) == part + rest;
      if s == sources[0] {
        assert s !in sources[1..] && Of(rest, s) == [];
      } else {
        assert Of(part, s) == [] && (s in sources <==> s in sources[1..]);
      }
    }
  }

  lemma OfPart(t: Tables, mode: Mode, c: Cursors, per: nat, own: Source, s: Source)
    requires Valid(t)
    ensures Of(Part(t, mode, c, per, own), s) == if s == own then Take(Select(Rows(t, s), mode, Since(c, s)), per) else []
  {
    SelectSorted(t, mode, c, own);
    OfOne(Part(t, mode, c, per, own), own, s);
  }

  lemma {:induction false} UnionSize(t: Tables, mode: Mode, c: Cursors, per: nat, sources: seq<Source>)
    ensures |Union(t, mode, c, per, sources)| <= |sources| * per
    ensures Union(t, mode, c, per, sources) == [] <==> forall s :: s in sources ==> Part(t, mode, c, per, s) == []
  {
    if sources != [] {
      UnionSize(t, mode, c, per, sources[1..]);
      assert |sources| * per == (|sources| - 1) * per + per;
      assert sources == [sources[0]] + sources[1..];
    }
  }

  predicate Distinct(sources: seq<Source>) {
    forall i, j :: 0 <= i < j < |sources| ==> sources[i] != sources[j]
  }

  // The rows a source may contribute.
  function Selection(t: Tables, mode: Mode, c: Cursors, sources: seq<Source>, s: Source): seq<Event> {
    if s in sources then Select(Rows(t, s), mode, Since(c, s)) else []
  }

  lemma SortedUnion(t: Tables, mode: Mode, c: Cursors, per: nat, sources: seq<Source>, s: Source)
    requires Valid(t) && Distinct(sources)
    ensures var m := Sort(Union(t, mode, c, per, sources));
      && InOrder(m) && |m| == |Union(t, mode, c, per, sources)| <= |sources| * per
      && Of(m, s) == Take(Selection(t, mode, c, sources, s), per)
  {
    var u := Union(t, mode, c, per, sources);
    var p := Select(Rows(t, s), mode, Since(c, s));
    SortSorts(u);
    UnionSize(t, mode, c, per, sources);
    OfSort(u, s);
    OfUnion(t, mode, c, per, sources, s);
    SelectSorted(t, mode, c, s);
    TakeOrdered(p, per, s);
    SortedAlready(Of(u, s));
  }

  lemma MergeIsNext(t: Tables, mode: Mode, c: Cursors, per: nat, sources: seq<Source>, limit: nat, s: Source)
    requires Valid(t) && Distinct(sources)
    ensures var b := Merge(t, mode, c, per, sources, limit);
      && InOrder(b) && |b| <= limit
      && Of(b, s) <= Take(Selection(t, mode, c, sources, s), per)
      && (|b| < limit || |sources| * per <= limit ==> Of(b, s) == Take(Selection(t, mode, c, sources, s), per))
  {
    SortedUnion(t, mode, c, per, sources, s);
    OfTake(Sort(Union(t, mode, c, per, sources)), limit, s);
  }

  lemma MergeDrops(t: Tables, mode: Mode, c: Cursors, per: nat, sources: seq<Source>, limit: nat)
    requires |sources| > 0 && |sources| * per < limit + |sources|
    ensures |Union(t, mode, c, per, sources)| - |Merge(t, mode, c, per, sources, limit)| < |sources|
  {
    SortSorts(Union(t, mode, c, per, sources));
    UnionSize(t, mode, c, per, sources);
  }

  lemma MergeIsEmpty(t: Tables, mode: Mode, c: Cursors, per: nat, sources: seq<Source>, limit: nat)
    requires Valid(t) && limit > 0 && per > 0
    ensures Merge(t, mode, c, per, sources, limit) == [] <==> forall s: Source :: Selection(t, mode, c, sources, s) == []
  {
    SortSorts(Union(t, mode, c, per, sources));
    UnionSize(t, mode, c, per, sources);
    forall s: Source
      ensures s in sources ==> (Part(t, mode, c, per, s) == [] <==> Selection(t, mode, c, sources, s) == [])
    {
      SelectSorted(t, mode, c, s);
    }
  }

  // ---- What a batch holds ----

  function Share(limit: int, mode: Mode): (per: nat)
    ensures 0 < per <= Limit(limit)
    ensures Limit(limit) <= |Sources(mode)| * per < Limit(limit) + |Sources(mode)|
    ensures Limit(limit) % |Sources(mode)| == 0 ==> |Sources(mode)| * per == Limit(limit)
  {
    PerSourceLimit(Limit(limit), |Sources(mode)|)
  }

  lemma TakeOrdered(s: seq<Event>, n: nat, source: Source)
    requires Ordered(s) && From(s, source)
    ensures InOrder(Take(s, n)) && Take(s, n) <= s
  {
  }

  // A batch is sorted and gives, source by source, the next pending rows in id order.
  lemma BatchIsNext(t: Tables, mode: Mode, c: Cursors, limit: int, s: Source)
    requires Valid(t)
    ensures var b := List(t, mode, c, limit);
      && InOrder(b) && |b| <= Limit(limit)
      && Of(b, s) <= Pending(t, mode, c, s)
      && |Of(b, s)| <= Share(limit, mode)
  {
    MergeIsNext(t, mode, c, Share(limit, mode), Sources(mode), Limit(limit), s);
  }

  // The outer LIMIT drops fewer rows than there are sources, and none when the number
  // of sources divides the limit: then each source has its full share or all it has.
  lemma BatchIsFair(t: Tables, mode: Mode, c: Cursors, limit: int, s: Source)
    requires Valid(t)
    ensures |Union(t, mode, c, Share(limit, mode), Sources(mode))| - |List(t, mode, c, limit)| < |Sources(mode)|
    ensures Limit(limit) % |Sources(mode)| == 0 ==>
      Of(List(t, mode, c, limit), s) == Take(Pending(t, mode, c, s), Share(limit, mode))
  {
    MergeDrops(t, mode, c, Share(limit, mode), Sources(mode), Limit(limit));
    MergeIsNext(t, mode, c, Share(limit, mode), Sources(mode), Limit(limit), s);
  }

  // Whatever the limit, an empty batch means that nothing is pending, and only that.
  lemma EmptyMeansDrained(t: Tables, mode: Mode, c: Cursors, limit: int)
    requires Valid(t)
    ensures List(t, mode, c, limit) == [] <==> forall s: Source :: Pending(t, mode, c, s) == []
  {
    assert forall s: Source :: Pending(t, mode, c, s) == Selection(t, mode, c, Sources(mode), s);
    MergeIsEmpty(t, mode, c, Share(limit, mode), Sources(mode), Limit(limit));
  }

  // A batch shorter than the limit has drained the tables only when no source had more
  // than its share pending.
  lemma ShortBatchDrains(t: Tables, mode: Mode, c: Cursors, limit: int)
    requires Valid(t) && |List(t, mode, c, limit)| < Limit(limit)
    ensures (forall s: Source :: Of(List(t, mode, c, limit), s) == Pending(t, mode, c, s)) <==>
            (forall s: Source :: |Pending(t, mode, c, s)| <= Share(limit, mode))
  {
    forall s: Source
      ensures Of(List(t, mode, c, limit), s) == Take(Pending(t, mode, c, s), Share(limit, mode))
    {
      MergeIsNext(t, mode, c, Share(limit, mode), Sources(mode), Limit(limit), s);
    }
  }

  lemma {:induction false} UnionMembers(t: Tables, mode: Mode, c: Cursors, per: nat, sources: seq<Source>, e: Event)
    requires Valid(t) && e in Union(t, mode, c, per, sources)
    ensures e.source in sources && e in Select(Rows(t, e.source), mode, Since(c, e.source))
  {
    if sources != [] {
      if e in Part(t, mode, c, per, sources[0]) {
        SelectSorted(t, mode, c, sources[0]);
      } else {
        UnionMembers(t, mode, c, per, sources[1..], e);
      }
    }
  }

  lemma MergeOfOne(t: Tables, mode: Mode, c: Cursors, per: nat, sources: seq<Source>, limit: nat, busy: Source)
    requires Valid(t) && Distinct(sources) && per <= limit
    requires forall s: Source :: s != busy ==> Selection(t, mode, c, sources, s) == []
    ensures Merge(t, mode, c, per, sources, limit) == Take(Selection(t, mode, c, sources, busy), per)
  {
    var m := Sort(Union(t, mode, c, per, sources));
    SortSorts(Union(t, mode, c, per, sources));
    forall i | 0 <= i < |m|
      ensures m[i].source == busy
    {
      assert m[i] in m;
      UnionMembers(t, mode, c, per, sources, m[i]);
      assert Selection(t, mode, c, sources, m[i].source) != [];
    }
    SortedUnion(t, mode, c, per, sources, busy);
    OfOne(m, busy, busy);
  }

  // A source that is busy alone fills only its share of the batch.
  lemma OneBusySource(t: Tables, mode: Mode, c: Cursors, limit: int, busy: Source)
    requires Valid(t) && forall s: Source :: s != busy ==> Pending(t, mode, c, s) == []
    ensures List(t, mode, c, limit) == Take(Pending(t, mode, c, busy), Share(limit, mode))
  {
    assert forall s: Source :: Pending(t, mode, c, s) == Selection(t, mode, c, Sources(mode), s);
    MergeOfOne(t, mode, c, Share(limit, mode), Sources(mode), Limit(limit), busy);
  }

  // Two rows wait in one table: a poll for at most two returns one row and leaves one.
  lemma ShortBatchLeavesRows(run: string, b1: string, b2: string)
    ensures var t := Tables([Event(Phase, 1, Some(run), 10, b1), Event(Phase, 2, Some(run), 10, b2)], [], [], [], [], []);
            var c := Cursors(0, 0, 0, 0, 0, 0);
      && Valid(t) && |List(t, OneRun(run), c, 2)| == 1 < Limit(2)
      && Of(List(t, OneRun(run), c, 2), Phase) != Pending(t, OneRun(run), c, Phase)
  {
    var e1, e2 := Event(Phase, 1, Some(run), 10, b1), Event(Phase, 2, Some(run), 10, b2);
    var t := Tables([e1, e2], [], [], [], [], []);
    var c := Cursors(0, 0, 0, 0, 0, 0);
    assert Sources(OneRun(run))[0] == Phase;
    TwoRows(e1, e2, OneRun(run));
    OneBusySource(t, OneRun(run), c, 2, Phase);
    OfOne([e1], Phase, Phase);
  }

  lemma TwoRows(e1: Event, e2: Event, mode: Mode)
    requires Visible(mode, e1) && Visible(mode, e2) && e1.id > 0 && e2.id > 0
    ensures Select([e1, e2], mode, 0) == [e1, e2]
  {
    assert [e1, e2][1..] == [e2] && [e2][1..] == [];
    assert Select([e2], mode, 0) == [e2] + Select([], mode, 0);
  }

  // ---- In the columns of the tables ----

  lemma PendingIn(t: Tables, mode: Mode, c: Cursors, s: Source, e: Event)
    ensures e in Pending(t, mode, c, s) <==> s in Sources(mode) && e in Rows(t, s) && Visible(mode, e) && e.id > Since(c, s)
  {
    SelectMembers(Rows(t, s), mode, Since(c, s));
  }

  // What is pending for one run: its rows beyond the marks in five of the tables.
  lemma PendingForRun(t: Tables, run: string, c: Cursors, e: Event)
    requires Valid(t)
    ensures e in Pending(t, OneRun(run), c, Phase) <==> e in t.phase && e.id > c.phase && e.run == Some(run)
    ensures e in Pending(t, OneRun(run), c, Dispatch) <==> e in t.dispatch && e.id > c.dispatch && (e.run == Some(run) || run == "")
    ensures e in Pending(t, OneRun(run), c, Coordination) <==>
            e in t.coordination && e.id > c.coordination && (e.run == Some(run) || run == "")
    ensures e in Pending(t, OneRun(run), c, Review) <==> e in t.review && e.id > c.review && (e.run == Some(run) || run == "")
    ensures e in Pending(t, OneRun(run), c, Interspect) <==>
            e in t.interspect && e.id > c.interspect && (e.run == Some(run) || run == "")
    ensures e !in Pending(t, OneRun(run), c, Discovery)
  {
    forall s: Source
      ensures e in Pending(t, OneRun(run), c, s) <==>
              s in Sources(OneRun(run)) && e in Rows(t, s) && Visible(OneRun(run), e) && e.id > Since(c, s)
      ensures e in Rows(t, s) ==> e.source == s
    {
      PendingIn(t, OneRun(run), c, s, e);
      assert From(Rows(t, s), s);
    }
    var listed := Sources(OneRun(run));
    assert listed[0] == Phase && listed[1] == Dispatch && listed[2] == Coordination && listed[3] == Review && listed[4] == Interspect;
    assert forall s :: s in listed <==> s == listed[0] || s == listed[1] || s == listed[2] || s == listed[3] || s == listed[4];
  }

  // And for all runs: every row beyond its mark, in all six.
  lemma PendingForAll(t: Tables, c: Cursors, e: Event)
    ensures e in Pending(t, AllRuns, c, Phase) <==> e in t.phase && e.id > c.phase
    ensures e in Pending(t, AllRuns, c, Dispatch) <==> e in t.dispatch && e.id > c.dispatch
    ensures e in Pending(t, AllRuns, c, Discovery) <==> e in t.discovery && e.id > c.discovery
    ensures e in Pending(t, AllRuns, c, Coordination) <==> e in t.coordination && e.id > c.coordination
    ensures e in Pending(t, AllRuns, c, Review) <==> e in t.review && e.id > c.review
    ensures e in Pending(t, AllRuns, c, Interspect) <==> e in t.interspect && e.id > c.interspect
  {
    forall s: Source
      ensures e in Pending(t, AllRuns, c, s) <==> s in Sources(AllRuns) && e in Rows(t, s) && e.id > Since(c, s)
    {
      PendingIn(t, AllRuns, c, s, e);
    }
    var listed := Sources(AllRuns);
    assert listed[0] == Phase && listed[1] == Dispatch && listed[2] == Discovery;
    assert listed[3] == Coordination && listed[4] == Review && listed[5] == Interspect;
  }

  // A batch holds pending rows only, in the table its source names.
  lemma ListedIsPending(t: Tables, mode: Mode, c: Cursors, limit: int, e: Event)
    requires Valid(t) && e in List(t, mode, c, limit)
    ensures e in Pending(t, mode, c, e.source)
  {
    OfMembers(List(t, mode, c, limit), e.source);
    BatchIsNext(t, mode, c, limit, e.source);
  }

  // No row of another run, no discovery, and at most a thousand rows when no limit is set.
  lemma ListedForRun(t: Tables, run: string, c: Cursors, limit: int, e: Event)
    requires Valid(t) && run != "" && e in List(t, OneRun(run), c, limit)
    ensures e.run == Some(run) && e.source != Discovery
    ensures |List(t, OneRun(run), c, limit)| <= if limit <= 0 then 1000 else limit
  {
    ListedIsPending(t, OneRun(run), c, limit, e);
    PendingForRun(t, run, c, e);
    BatchIsNext(t, OneRun(run), c, limit, e.source);
  }

  // ---- The order of a batch, by the names of the sources ----

  function NameOf(s: Source): string {
    match s
    case Phase => "phase"
    case Dispatch => "dispatch"
    case Discovery => "discovery"
    case Coordination => "coordination"
    case Review => "review"
    case Interspect => "interspect"
  }

  // a comes before b in the dictionary.
  predicate Precedes(a: string, b: string) {
    b != "" && (a == "" || a[0] < b[0] || (a[0] == b[0] && Precedes(a[1..], b[1..])))
  }

  lemma FirstLetters(a: string, b: string)
    requires a != "" && b != "" && a[0] != b[0]
    ensures Precedes(a, b) <==> a[0] < b[0]
  {
  }

  lemma {:induction false} NotItself(a: string)
    ensures !Precedes(a, a)
  {
    if a != "" {
      NotItself(a[1..]);
    }
  }

  lemma DispatchAfterDiscovery()
    ensures Precedes("discovery", "dispatch") && !Precedes("dispatch", "discovery")
  {
    assert "discovery"[1..] == "iscovery" && "dispatch"[1..] == "ispatch";
    assert "iscovery"[1..] == "scovery" && "ispatch"[1..] == "spatch";
    assert "scovery"[1..] == "covery" && "spatch"[1..] == "patch";
    FirstLetters("covery", "patch");
    FirstLetters("patch", "covery");
  }

  lemma RanksAreNames(a: Source, b: Source)
    ensures Rank(a) < Rank(b) <==> Precedes(NameOf(a), NameOf(b))
  {
    if a == b {
      NotItself(NameOf(a));
    } else if NameOf(a)[0] == NameOf(b)[0] {
      DispatchAfterDiscovery();
    } else {
      FirstLetters(NameOf(a), NameOf(b));
    }
  }

  // Earlier first; at one time by source name, and within a source by id.
  lemma BatchInOrder(t: Tables, mode: Mode, c: Cursors, limit: int, i: nat, j: nat)
    requires Valid(t) && i < j < |List(t, mode, c, limit)|
    ensures var a, b := List(t, mode, c, limit)[i], List(t, mode, c, limit)[j];
      a.at <= b.at && (a.at == b.at ==> !Precedes(NameOf(b.source), NameOf(a.source)) && (a.source == b.source ==> a.id <= b.id))
  {
    var a, b := List(t, mode, c, limit)[i], List(t, mode, c, limit)[j];
    BatchIsNext(t, mode, c, limit, a.source);
    RanksAreNames(b.source, a.source);
    assert !Before(b, a);
  }
}
