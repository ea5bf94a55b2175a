// Following the event tables with saved cursors: cmdEventsTail, loadCursor and
// saveCursor of cmd/ic/events.go over the Add methods of internal/event/store.go.
module EventsTail {
  import opened Basics
  import opened Events

  const ZERO: Cursors := Cursors(0, 0, 0, 0, 0, 0)

  function WithSince(c: Cursors, s: Source, id: int): (r: Cursors)
    ensures Since(r, s) == id && forall o: Source :: o != s ==> Since(r, o) == Since(c, o)
  {
    match s
    case Phase => c.(phase := id)
    case Dispatch => c.(dispatch := id)
    case Discovery => c.(discovery := id)
    case Coordination => c.(coordination := id)
    case Review => c.(review := id)
    case Interspect => c.(interspect := id)
  }

  function Raise(c: Cursors, e: Event): Cursors {
    if e.id > Since(c, e.source) then WithSince(c, e.source, e.id) else c
  }

  // The marks after these events were written, in this order.
  function RaiseAll(c: Cursors, s: seq<Event>): Cursors {
    if s == [] then c else Raise(RaiseAll(c, s[..|s| - 1]), s[|s| - 1])
  }

  function WithRows(t: Tables, s: Source, rows: seq<Event>): (r: Tables)
    ensures Rows(r, s) == rows && forall o: Source :: o != s ==> Rows(r, o) == Rows(t, o)
  {
    match s
    case Phase => t.(phase := rows)
    case Dispatch => t.(dispatch := rows)
    case Discovery => t.(discovery := rows)
    case Coordination => t.(coordination := rows)
    case Review => t.(review := rows)
    case Interspect => t.(interspect := rows)
  }

  function Appended(t: Tables, e: Event): Tables {
    WithRows(t, e.source, Rows(t, e.source) + [e])
  }

  // A larger id than any before, and a clock that does not run backwards.
  predicate MayAppend(t: Tables, e: Event) {
    forall i :: 0 <= i < |Rows(t, e.source)| ==> Rows(t, e.source)[i].id < e.id && Rows(t, e.source)[i].at <= e.at
  }

  // ---- Tail commands, one after the other ----

  // `origin` is what the --since flags say; `named` is whether a consumer was given. The
  // named commands of a run share one cursor key.
  datatype Command = Command(mode: Mode, origin: Cursors, named: bool)

  // The key holds the run, which --all leaves in it: two commands share a key when they
  // name one run, whether or not they list all of them.
  predicate ShareKey(a: Command, b: Command) {
    a.mode.OneRun? && b.mode.OneRun? ==> a.mode == b.mode
  }

  // There is no flag for the interspect mark.
  predicate Wellformed(cmd: Command) {
    cmd.origin.interspect == 0
  }

  // The saved cursor is consulted only when every flag is zero.
  predicate Resumes(cmd: Command) {
    cmd.named && cmd.origin.(interspect := 0) == ZERO
  }

  function StartMark(cmd: Command, found: Option<Cursors>): Cursors {
    if Resumes(cmd) then
      if found.Some? then found.value else ZERO
    else cmd.origin
  }

  // `session` is what the process that runs `cmd` has written since it started at
  // `start`; `out` is what all processes have written.
  datatype State = State(
    cmd: Command, tables: Tables, since: Cursors, saved: Option<Cursors>,
    start: Cursors, session: seq<Event>, out: seq<Event>)

  datatype Op =
    | Append(e: Event)
    | Poll(limit: int, writable: nat, stored: bool)  // the encoder fails after `writable` events
    | Restart(cmd: Command, readable: bool)

  function Written(st: State, limit: int, writable: nat): seq<Event> {
    Take(List(st.tables, st.cmd.mode, st.since, limit), writable)
  }

  predicate Enabled(st: State, op: Op) {
    (op.Append? ==> MayAppend(st.tables, op.e)) && (op.Restart? ==> Wellformed(op.cmd))
  }

  function Apply(st: State, op: Op): State {
    match op
    case Append(e) => st.(tables := Appended(st.tables, e))
    case Poll(limit, writable, stored) =>
      var batch := List(st.tables, st.cmd.mode, st.since, limit);
      var w := Written(st, limit, writable);
      var since := RaiseAll(st.since, w);
      st.(since := since,
          saved := if st.cmd.named && batch != [] && w == batch && stored then Some(since) else st.saved,
          session := st.session + w,
          out := st.out + w)
    case Restart(cmd, readable) =>
      var start := StartMark(cmd, if readable then st.saved else None);
      st.(cmd := cmd, since := start, start := start, session := [])
  }

  function Initial(t: Tables, cmd: Command): State {
    State(cmd, t, StartMark(cmd, None), None, StartMark(cmd, None), [], [])
  }

  ghost predicate Run(t: Tables, cmd: Command, ops: seq<Op>, states: seq<State>) {
    && Valid(t) && Wellformed(cmd)
    && |states| == |ops| + 1 && states[0] == Initial(t, cmd)
    && forall i {:trigger StepAt(ops, states, i)} :: 0 <= i < |ops| ==> StepAt(ops, states, i)
  }

  ghost predicate StepAt(ops: seq<Op>, states: seq<State>, i: nat)
    requires |states| == |ops| + 1 && i < |ops|
  {
    Enabled(states[i], ops[i]) && states[i + 1] == Apply(states[i], ops[i])
  }

  // ---- What holds at every moment ----

  // This process has written exactly the rows between its start and its mark, once
  // each and in id order.
  predicate Exact(st: State, s: Source) {
    Of(st.session, s) + Pending(st.tables, st.cmd.mode, st.since, s) == Pending(st.tables, st.cmd.mode, st.start, s)
  }

  // The mark is not beyond the rows that are there.
  predicate Behind(t: Tables, mark: Cursors, s: Source) {
    exists i :: 0 <= i < |Rows(t, s)| && Since(mark, s) <= Rows(t, s)[i].id
  }

  predicate Sound1(st: State, s: Source) {
    && Exact(st, s)
    && Since(st.start, s) <= Since(st.since, s)
    && (Since(st.since, s) == Since(st.start, s) || Behind(st.tables, st.since, s))
  }

  predicate Sound(st: State) {
    && Valid(st.tables) && (forall s: Source :: Sound1(st, s))
    && (forall e :: e in st.session ==> e in st.out)
    && (!Resumes(st.cmd) ==> st.start == st.cmd.origin)
  }

  // The mark has not passed the row unwritten, and will not be there before it.
  predicate Reported(st: State, mark: Cursors, e: Event) {
    e.id <= Since(mark, e.source) ==> e in st.out || (e !in Rows(st.tables, e.source) && Behind(st.tables, mark, e.source))
  }

  // So it is for the marks that a later command may start from.
  predicate Watched(st: State, e: Event) {
    (st.cmd.named ==> Reported(st, st.since, e)) && (st.saved.Some? ==> Reported(st, st.saved.value, e))
  }

  // The command does not pass the row by: its flags are below it, and if it lists the
  // row's table it shows the row.
  predicate Harmless(cmd: Command, e: Event) {
    e.id > Since(cmd.origin, e.source) && (e.source in Sources(cmd.mode) ==> Visible(cmd.mode, e))
  }

  // No command so far that saves the cursor passes the row by.
  predicate AllHarmless(cmd: Command, ops: seq<Op>, n: nat, e: Event)
    requires n <= |ops|
  {
    && (cmd.named ==> Harmless(cmd, e))
    && forall k :: 0 <= k < n && ops[k].Restart? && ops[k].cmd.named ==> Harmless(ops[k].cmd, e)
  }

  // ---- How a mark cuts a table ----

  lemma {:induction false} SelectSame(rows: seq<Event>, mode: Mode, a: int, b: int)
    requires forall e :: e in rows ==> e.id > a && e.id > b
    ensures Select(rows, mode, a) == Select(rows, mode, b)
  {
    if rows != [] {
      SelectSame(rows[1..], mode, a, b);
    }
  }

  // Ids grow, said from the front.
  predicate IdsGrow(rows: seq<Event>) {
    rows == [] || (IdsGrow(rows[1..]) && forall e :: e in rows[1..] ==> rows[0].id < e.id)
  }

  lemma {:induction false} OrderedIdsGrow(rows: seq<Event>)
    requires Ordered(rows)
    ensures IdsGrow(rows)
  {
    if rows != [] {
      OrderedIdsGrow(rows[1..]);
    }
  }

  lemma RestIsLater(rows: seq<Event>, mode: Mode, since: int, i: nat)
    requires IdsGrow(rows) && rows != [] && i < |Select(rows[1..], mode, since)|
    ensures rows[0].id < Select(rows[1..], mode, since)[i].id
  {
    SelectMembers(rows[1..], mode, since);
    assert Select(rows[1..], mode, since)[i] in rows[1..];
  }

  lemma HeadTail(e: Event, rest: seq<Event>, n: nat)
    requires 1 < n <= |rest| + 1
    ensures ([e] + rest)[n - 1] == rest[n - 2] && ([e] + rest)[n..] == rest[n - 1..]
  {
  }

  lemma SelectPast(rows: seq<Event>, mode: Mode, id: int)
    requires rows != [] && rows[0].id <= id
    ensures Select(rows, mode, id) == Select(rows[1..], mode, id)
  {
  }

  // Raising the mark to the n-th pending row leaves the rows after it.
  lemma {:induction false} SelectBeyond(rows: seq<Event>, mode: Mode, since: int, n: nat, id: int)
    requires IdsGrow(rows) && 0 < n <= |Select(rows, mode, since)| && id == Select(rows, mode, since)[n - 1].id
    ensures Select(rows, mode, id) == Select(rows, mode, since)[n..]
  {
    var rest := Select(rows[1..], mode, since);
    if !(Visible(mode, rows[0]) && rows[0].id > since) {
      assert Select(rows, mode, since) == rest;
      RestIsLater(rows, mode, since, n - 1);
      SelectPast(rows, mode, id);
      SelectBeyond(rows[1..], mode, since, n, id);
    } else if n == 1 {
      assert Select(rows, mode, since) == [rows[0]] + rest;
      SelectPast(rows, mode, id);
      SelectSame(rows[1..], mode, since, id);
    } else {
      assert Select(rows, mode, since) == [rows[0]] + rest;
      HeadTail(rows[0], rest, n);
      RestIsLater(rows, mode, since, n - 2);
      SelectPast(rows, mode, id);
      SelectBeyond(rows[1..], mode, since, n - 1, id);
    }
  }

  lemma LastOrdered(own: seq<Event>, last: Event)
    requires Ordered(own + [last])
    ensures Ordered(own) && (own != [] ==> own[|own| - 1].id < last.id)
    ensures forall e :: e in own + [last] <==> e in own || e == last
  {
    var r := own + [last];
    assert forall i :: 0 <= i < |own| ==> own[i] == r[i];
    assert r[|own|] == last;
  }

  // Where a mark stands after these events of its source, written in id order.
  function MarkOf(own: seq<Event>, since: int): int {
    if own == [] then since else own[|own| - 1].id
  }

  lemma MarkSnoc(c: Cursors, init: seq<Event>, last: Event, s: Source)
    requires Since(RaiseAll(c, init), s) == MarkOf(Of(init, s), Since(c, s))
    requires last.source == s ==> last.id > MarkOf(Of(init, s), Since(c, s))
    ensures Since(RaiseAll(c, init + [last]), s) == MarkOf(Of(init + [last], s), Since(c, s))
  {
    assert (init + [last])[..|init|] == init;
    OfSnoc(init, last, s);
  }

  lemma {:induction false} MarkAfter(c: Cursors, b: seq<Event>, s: Source)
    requires Ordered(Of(b, s)) && forall e :: e in Of(b, s) ==> e.id > Since(c, s)
    ensures Since(RaiseAll(c, b), s) == MarkOf(Of(b, s), Since(c, s))
  {
    if b != [] {
      var init, last := b[..|b| - 1], b[|b| - 1];
      assert b == init + [last];
      OfSnoc(init, last, s);
      if last.source == s {
        LastOrdered(Of(init, s), last);
        assert last in Of(b, s);
      }
      MarkAfter(c, init, s);
      MarkSnoc(c, init, last, s);
    }
  }

  // Writing part of a batch: the source's next pending rows, and the mark after them.
  lemma AfterWriting(st: State, limit: int, writable: nat, s: Source)
    requires Valid(st.tables)
    ensures var w := Written(st, limit, writable);
      Of(w, s) + Pending(st.tables, st.cmd.mode, RaiseAll(st.since, w), s) == Pending(st.tables, st.cmd.mode, st.since, s)
  {
    WrittenIsPrefix(st, limit, writable, s);
    PrefixMoves(st.tables, st.cmd.mode, st.since, Written(st, limit, writable), s);
  }

  lemma WrittenIsPrefix(st: State, limit: int, writable: nat, s: Source)
    requires Valid(st.tables)
    ensures Of(Written(st, limit, writable), s) <= Pending(st.tables, st.cmd.mode, st.since, s)
  {
    BatchIsNext(st.tables, st.cmd.mode, st.since, limit, s);
    OfTake(List(st.tables, st.cmd.mode, st.since, limit), writable, s);
  }

  lemma PrefixOrdered(own: seq<Event>, p: seq<Event>)
    requires Ordered(p) && own <= p
    ensures Ordered(own) && own == p[..|own|] && forall e :: e in own ==> e in p
  {
  }

  lemma PendingRows(t: Tables, mode: Mode, c: Cursors, s: Source)
    requires Valid(t)
    ensures Ordered(Pending(t, mode, c, s))
    ensures forall e :: e in Pending(t, mode, c, s) <==>
      s in Sources(mode) && e in Rows(t, s) && Visible(mode, e) && e.id > Since(c, s)
  {
    assert Ordered(Rows(t, s));
    SelectOrdered(Rows(t, s), mode, Since(c, s));
    SelectMembers(Rows(t, s), mode, Since(c, s));
  }

  lemma PrefixMark(t: Tables, mode: Mode, c: Cursors, w: seq<Event>, s: Source)
    requires Valid(t) && Of(w, s) <= Pending(t, mode, c, s)
    ensures Since(RaiseAll(c, w), s) == MarkOf(Of(w, s), Since(c, s))
  {
    PendingRows(t, mode, c, s);
    PrefixOrdered(Of(w, s), Pending(t, mode, c, s));
    MarkAfter(c, w, s);
  }

  lemma PrefixSplit(own: seq<Event>, p: seq<Event>)
    requires own <= p && own != []
    ensures own[|own| - 1] == p[|own| - 1] && own + p[|own|..] == p
  {
  }

  // With its mark at the n-th pending row, a source has the rows after it pending.
  lemma PendingBeyond(t: Tables, mode: Mode, c: Cursors, c': Cursors, s: Source, n: nat)
    requires Valid(t) && 0 < n <= |Pending(t, mode, c, s)| && Since(c', s) == Pending(t, mode, c, s)[n - 1].id
    ensures Pending(t, mode, c', s) == Pending(t, mode, c, s)[n..]
  {
    assert Ordered(Rows(t, s));
    OrderedIdsGrow(Rows(t, s));
    SelectBeyond(Rows(t, s), mode, Since(c, s), n, Since(c', s));
  }

  lemma PrefixMoves(t: Tables, mode: Mode, c: Cursors, w: seq<Event>, s: Source)
    requires Valid(t) && Of(w, s) <= Pending(t, mode, c, s)
    ensures Of(w, s) + Pending(t, mode, RaiseAll(c, w), s) == Pending(t, mode, c, s)
  {
    PrefixMark(t, mode, c, w, s);
    var own, p := Of(w, s), Pending(t, mode, c, s);
    if own != [] {
      PrefixSplit(own, p);
      PendingBeyond(t, mode, c, RaiseAll(c, w), s, |own|);
    }
  }

  // ---- Every step keeps it ----

  lemma {:induction false} SelectAppend(rows: seq<Event>, e: Event, mode: Mode, since: int)
    ensures Select(rows + [e], mode, since) ==
            Select(rows, mode, since) + if Visible(mode, e) && e.id > since then [e] else []
  {
    if rows == [] {
      assert rows + [e] == [e];
    } else {
      assert (rows + [e])[1..] == rows[1..] + [e];
      SelectAppend(rows[1..], e, mode, since);
    }
  }

  // What is appended is pending if it is visible and beyond the mark.
  lemma AppendPending(t: Tables, mode: Mode, c: Cursors, e: Event, s: Source)
    ensures Pending(Appended(t, e), mode, c, s) == Pending(t, mode, c, s) +
            if s == e.source && s in Sources(mode) && Visible(mode, e) && e.id > Since(c, s) then [e] else []
  {
    if s == e.source {
      SelectAppend(Rows(t, s), e, mode, Since(c, s));
    }
  }

  // A mark that has moved is behind any row that can be appended.
  lemma MovedMarkIsBehind(st: State, e: Event, s: Source)
    requires MayAppend(st.tables, e) && Sound1(st, s) && s == e.source
    ensures Since(st.since, s) == Since(st.start, s) || (e.id > Since(st.since, s) && e.id > Since(st.start, s))
  {
  }

  lemma AppendExact(st: State, e: Event, s: Source)
    requires MayAppend(st.tables, e) && Sound1(st, s)
    ensures Exact(st.(tables := Appended(st.tables, e)), s)
  {
    AppendPending(st.tables, st.cmd.mode, st.since, e, s);
    AppendPending(st.tables, st.cmd.mode, st.start, e, s);
    var added := if s == e.source && s in Sources(st.cmd.mode) && Visible(st.cmd.mode, e) && e.id > Since(st.since, s) then [e] else [];
    if s == e.source {
      MovedMarkIsBehind(st, e, s);
    }
    Regroup(Of(st.session, s), Pending(st.tables, st.cmd.mode, st.since, s), added);
  }

  lemma AppendBehind(t: Tables, e: Event, mark: Cursors, s: Source)
    requires Behind(t, mark, s)
    ensures Behind(Appended(t, e), mark, s)
  {
    var i :| 0 <= i < |Rows(t, s)| && Since(mark, s) <= Rows(t, s)[i].id;
    assert (Rows(t, s) + [e])[i] == Rows(t, s)[i];
  }

  lemma AppendValid(t: Tables, e: Event)
    requires Valid(t) && MayAppend(t, e)
    ensures Valid(Appended(t, e))
  {
    forall s: Source
      ensures Ordered(Rows(Appended(t, e), s)) && From(Rows(Appended(t, e), s), s)
    {
      assert Ordered(Rows(t, s)) && From(Rows(t, s), s);
    }
  }

  lemma AppendKeepsSound(st: State, e: Event)
    requires Sound(st) && MayAppend(st.tables, e)
    ensures Sound(Apply(st, Append(e)))
  {
    AppendValid(st.tables, e);
    forall s: Source
      ensures Sound1(Apply(st, Append(e)), s)
    {
      assert Sound1(st, s);
      AppendExact(st, e, s);
      if Behind(st.tables, st.since, s) {
        AppendBehind(st.tables, e, st.since, s);
      }
    }
  }

  lemma PollExact(st: State, limit: int, writable: nat, s: Source)
    requires Valid(st.tables) && Exact(st, s)
    ensures var w := Written(st, limit, writable);
      Exact(st.(since := RaiseAll(st.since, w), session := st.session + w), s)
  {
    var w := Written(st, limit, writable);
    AfterWriting(st, limit, writable, s);
    OfConcat(st.session, w, s);
    Regroup(Of(st.session, s), Of(w, s), Pending(st.tables, st.cmd.mode, RaiseAll(st.since, w), s));
  }

  lemma Regroup(a: seq<Event>, b: seq<Event>, c: seq<Event>)
    ensures (a + b) + c == a + (b + c)
  {
  }

  // The mark stays, or moves up to a row that was written.
  lemma PollMoves(st: State, limit: int, writable: nat, s: Source)
    requires Valid(st.tables)
    ensures var since := RaiseAll(st.since, Written(st, limit, writable));
      Since(since, s) == Since(st.since, s) || (Since(since, s) > Since(st.since, s) && s in Sources(st.cmd.mode) && Behind(st.tables, since, s))
  {
    var w := Written(st, limit, writable);
    WrittenIsPrefix(st, limit, writable, s);
    PrefixMark(st.tables, st.cmd.mode, st.since, w, s);
    PendingRows(st.tables, st.cmd.mode, st.since, s);
    var own := Of(w, s);
    if own != [] {
      assert own[|own| - 1] in Pending(st.tables, st.cmd.mode, st.since, s);
    }
  }

  lemma PollKeepsSound(st: State, limit: int, writable: nat, stored: bool)
    requires Sound(st)
    ensures Sound(Apply(st, Poll(limit, writable, stored)))
  {
    forall s: Source
      ensures Sound1(Apply(st, Poll(limit, writable, stored)), s)
    {
      assert Sound1(st, s);
      PollExact(st, limit, writable, s);
      PollMoves(st, limit, writable, s);
    }
  }

  // ---- A row is not passed by ----

  lemma AppendReports(st: State, added: Event, mark: Cursors, e: Event)
    requires MayAppend(st.tables, added) && Reported(st, mark, e)
    ensures Reported(st.(tables := Appended(st.tables, added)), mark, e)
  {
    if e.id <= Since(mark, e.source) && e !in st.out {
      AppendBehind(st.tables, added, mark, e.source);
    }
  }

  // A row that is no longer pending after the poll was written by it.
  lemma PollReports(st: State, limit: int, writable: nat, e: Event)
    requires Valid(st.tables) && Reported(st, st.since, e)
    requires e.source in Sources(st.cmd.mode) ==> Visible(st.cmd.mode, e)
    ensures var w := Written(st, limit, writable);
      Reported(st.(out := st.out + w), RaiseAll(st.since, w), e)
  {
    var w, s := Written(st, limit, writable), e.source;
    PollMoves(st, limit, writable, s);
    PendingRows(st.tables, st.cmd.mode, st.since, s);
    PendingRows(st.tables, st.cmd.mode, RaiseAll(st.since, w), s);
    AfterWriting(st, limit, writable, s);
    OfMembers(w, s);
  }

  lemma StepWatches(st: State, op: Op, e: Event)
    requires Valid(st.tables) && Enabled(st, op) && Watched(st, e)
    requires st.cmd.named ==> Harmless(st.cmd, e)
    requires op.Restart? && op.cmd.named ==> Harmless(op.cmd, e)
    ensures Watched(Apply(st, op), e)
  {
    match op
    case Append(added) =>
      if st.cmd.named {
        AppendReports(st, added, st.since, e);
      }
      if st.saved.Some? {
        AppendReports(st, added, st.saved.value, e);
      }
    case Poll(limit, writable, stored) =>
      if st.cmd.named {
        PollReports(st, limit, writable, e);
      }
    case Restart(cmd, readable) =>
  }

  // ---- Over whole runs ----

  lemma {:induction false} ReachableSound(t: Tables, cmd: Command, ops: seq<Op>, states: seq<State>, i: nat)
    requires Run(t, cmd, ops, states) && i < |states|
    ensures Sound(states[i]) && Wellformed(states[i].cmd)
  {
    if i == 0 {
      assert forall s: Source :: Sound1(states[0], s);
    } else {
      ReachableSound(t, cmd, ops, states, i - 1);
      assert StepAt(ops, states, i - 1);
      match ops[i - 1]
      case Append(e) => AppendKeepsSound(states[i - 1], e);
      case Poll(limit, writable, stored) => PollKeepsSound(states[i - 1], limit, writable, stored);
      case Restart(_, _) => assert forall s: Source :: Sound1(states[i], s);
    }
  }

  // What one process wrote of a source, and what is pending, are together exactly the
  // rows visible to it, each once and in id order.
  lemma ExactlyOnce(t: Tables, cmd: Command, ops: seq<Op>, states: seq<State>, i: nat, s: Source)
    requires Run(t, cmd, ops, states) && i < |states|
    ensures var st := states[i];
      var all := Of(st.session, s) + Pending(st.tables, st.cmd.mode, st.since, s);
      && Ordered(all)
      && forall e :: e in all <==>
           s in Sources(st.cmd.mode) && e in Rows(st.tables, s) && Visible(st.cmd.mode, e) && e.id > Since(st.start, s)
  {
    ReachableSound(t, cmd, ops, states, i);
    assert Sound1(states[i], s);
    PendingRows(states[i].tables, states[i].cmd.mode, states[i].start, s);
  }

  lemma {:induction false} ReachableWatched(t: Tables, cmd: Command, ops: seq<Op>, states: seq<State>, i: nat, e: Event)
    requires Run(t, cmd, ops, states) && i < |states| && AllHarmless(cmd, ops, i, e)
    ensures Watched(states[i], e) && (states[i].cmd.named ==> Harmless(states[i].cmd, e))
  {
    if i > 0 {
      ReachableWatched(t, cmd, ops, states, i - 1, e);
      ReachableSound(t, cmd, ops, states, i - 1);
      assert StepAt(ops, states, i - 1);
      StepWatches(states[i - 1], ops[i - 1], e);
    }
  }

  // Over any commands, crashes and lost cursors a row that the present command shows has
  // been written by some process or is still pending, unless the command resumes where
  // one that passes the row by may have left the cursor.
  lemma NothingSkipped(t: Tables, cmd: Command, ops: seq<Op>, states: seq<State>, i: nat, e: Event)
    requires Run(t, cmd, ops, states) && i < |states| && e in Rows(states[i].tables, e.source)
    requires var now := states[i].cmd;
      e.source in Sources(now.mode) && Visible(now.mode, e) && e.id > Since(now.origin, e.source)
    requires Resumes(states[i].cmd) ==> AllHarmless(cmd, ops, i, e)
    ensures e in states[i].out || e in Pending(states[i].tables, states[i].cmd.mode, states[i].since, e.source)
  {
    var st := states[i];
    ReachableSound(t, cmd, ops, states, i);
    PendingRows(st.tables, st.cmd.mode, st.since, e.source);
    if Resumes(st.cmd) {
      ReachableWatched(t, cmd, ops, states, i, e);
    } else {
      ExactlyOnce(t, cmd, ops, states, i, e.source);
      OfMembers(st.session, e.source);
    }
  }

  // ---- A row that is passed by ----

  // Only the row is there.
  function OneRow(e: Event): Tables {
    WithRows(Tables([], [], [], [], [], []), e.source, [e])
  }

  // A row that the command shows, later than its flags and than the other row.
  predicate Later(cmd: Command, e: Event, f: Event) {
    && f.source in Sources(cmd.mode) && Visible(cmd.mode, f) && f.id > Since(cmd.origin, f.source)
    && f.id > e.id && f.at == e.at && (e.source in Sources(cmd.mode) ==> f.source == e.source)
  }

  function LaterRow(cmd: Command, e: Event): (f: Event)
    ensures Later(cmd, e, f)
  {
    var source := if e.source in Sources(cmd.mode) then e.source else Coordination;
    assert Sources(cmd.mode)[|Sources(cmd.mode)| - 3] == Coordination;
    var past := Since(cmd.origin, source);
    Event(source, (if past > e.id then past else e.id) + 1, if cmd.mode.OneRun? then Some(cmd.mode.run) else None, e.at, "")
  }

  lemma LaterMayAppend(cmd: Command, e: Event, f: Event)
    requires Later(cmd, e, f)
    ensures MayAppend(OneRow(e), f) && Valid(Appended(OneRow(e), f)) && e in Rows(Appended(OneRow(e), f), e.source)
  {
    AppendValid(OneRow(e), f);
    assert Rows(Appended(OneRow(e), f), e.source)[0] == e;
  }

  // Nothing but the later row is pending for a command that passes the row by.
  lemma OnlyLaterPending(cmd: Command, e: Event, f: Event, s: Source)
    requires Later(cmd, e, f) && !Harmless(cmd, e)
    ensures Pending(Appended(OneRow(e), f), cmd.mode, cmd.origin, s) == if s == f.source then [f] else []
  {
    AppendPending(OneRow(e), cmd.mode, cmd.origin, f, s);
    if s == e.source {
      var rows := Rows(OneRow(e), s);
      assert rows == [e] && rows[1..] == [];
      if s in Sources(cmd.mode) {
        assert Select(rows, cmd.mode, Since(cmd.origin, s)) == Select(rows[1..], cmd.mode, Since(cmd.origin, s));
      }
      assert Pending(OneRow(e), cmd.mode, cmd.origin, s) == [];
    } else {
      assert Rows(OneRow(e), s) == [];
      assert Pending(OneRow(e), cmd.mode, cmd.origin, s) == [];
    }
  }

  lemma BatchOfOne(t: Tables, mode: Mode, c: Cursors, limit: int, f: Event)
    requires Valid(t)
    requires forall s: Source :: Pending(t, mode, c, s) == if s == f.source then [f] else []
    ensures var b := List(t, mode, c, limit);
      b != [] && (forall e :: e in b ==> e == f) && Of(b, f.source) == [f]
  {
    var b := List(t, mode, c, limit);
    EmptyMeansDrained(t, mode, c, limit);
    assert b != [] by {
      assert Pending(t, mode, c, f.source) != [];
    }
    forall e | e in b
      ensures e == f && e in Of(b, f.source)
    {
      OfMembers(b, e.source);
      BatchIsNext(t, mode, c, limit, e.source);
    }
    assert b[0] in b;
    BatchIsNext(t, mode, c, limit, f.source);
  }

  // A poll for which one row is pending writes it and saves the cursor after it.
  lemma PollOfOne(st: State, f: Event, s: Source, limit: int, writable: nat)
    requires limit == 1 <= writable
    requires Valid(st.tables) && st.cmd.named
    requires forall o: Source :: Pending(st.tables, st.cmd.mode, st.since, o) == if o == f.source then [f] else []
    ensures var after := Apply(st, Poll(limit, writable, true));
      && after.tables == st.tables && (forall e :: e in after.out ==> e in st.out || e == f)
      && after.saved == Some(after.since)
      && Since(after.since, s) >= Since(st.since, s) && Since(after.since, f.source) == f.id
  {
    var batch := List(st.tables, st.cmd.mode, st.since, limit);
    BatchOfOne(st.tables, st.cmd.mode, st.since, limit, f);
    BatchIsNext(st.tables, st.cmd.mode, st.since, limit, s);
    assert Written(st, limit, writable) == batch;
    PrefixMark(st.tables, st.cmd.mode, st.since, batch, f.source);
    PollMoves(st, limit, writable, s);
  }

  // The row is there, no process wrote it, and the saved cursor is at or beyond it.
  predicate PassedBy(st: State, e: Event) {
    && Valid(st.tables) && e in Rows(st.tables, e.source) && e !in st.out
    && st.saved.Some? && e.id <= Since(st.saved.value, e.source)
  }

  // Of what the command shows, only f is pending; e is there, and passed by.
  ghost predicate OnlyPending(t: Tables, cmd: Command, e: Event, f: Event) {
    && Valid(t) && e in Rows(t, e.source) && Later(cmd, e, f) && !Harmless(cmd, e)
    && forall s: Source :: Pending(t, cmd.mode, cmd.origin, s) == if s == f.source then [f] else []
  }

  lemma PollPassesBy(st: State, e: Event, f: Event, limit: int, writable: nat)
    requires limit == 1 <= writable
    requires st.cmd.named && OnlyPending(st.tables, st.cmd, e, f) && st.since == st.cmd.origin && st.out == []
    ensures PassedBy(Apply(st, Poll(limit, writable, true)), e)
  {
    PollOfOne(st, f, e.source, limit, writable);
  }

  lemma ResumesPast(st: State, now: Command, e: Event)
    requires PassedBy(st, e) && Resumes(now)
    ensures Skips(Apply(st, Restart(now, true)), now, e)
  {
    PendingRows(st.tables, now.mode, st.saved.value, e.source);
  }

  lemma ThreeSteps(t: Tables, cmd: Command, o1: Op, o2: Op, o3: Op, s1: State, s2: State, s3: State)
    requires Valid(t) && Wellformed(cmd) && Enabled(Initial(t, cmd), o1) && Enabled(s1, o2) && Enabled(s2, o3)
    requires s1 == Apply(Initial(t, cmd), o1) && s2 == Apply(s1, o2) && s3 == Apply(s2, o3)
    ensures Run(t, cmd, [o1, o2, o3], [Initial(t, cmd), s1, s2, s3])
  {
  }

  // Where a command starts: at its flags; with a consumer and no flag at the saved cursor,
  // if that can be read, or at the beginning.
  lemma StartsAt(st: State, cmd: Command, readable: bool)
    ensures var after, flags := Apply(st, Restart(cmd, readable)), cmd.origin;
      && after.start == after.since && after.session == [] && after.cmd == cmd
      && after.since == (
           if cmd.named && flags.phase == 0 && flags.dispatch == 0 && flags.discovery == 0 && flags.coordination == 0 && flags.review == 0
           then (if readable && st.saved != None then st.saved.value else Cursors(0, 0, 0, 0, 0, 0))
           else flags)
      && after.tables == st.tables && after.saved == st.saved && after.out == st.out
  {
  }

  // The command shows the row, no process wrote it, and it is not pending.
  predicate Skips(st: State, now: Command, e: Event) {
    && st.cmd == now && e in Rows(st.tables, e.source)
    && e !in st.out && e !in Pending(st.tables, now.mode, st.since, e.source)
  }

  // A run that starts with the one command and ends with the other, which skips the row.
  ghost predicate SkippingRun(t: Tables, cmd: Command, ops: seq<Op>, states: seq<State>, now: Command, e: Event) {
    Run(t, cmd, ops, states) && Skips(states[|ops|], now, e)
  }

  lemma AfterPoll(st: State, now: Command, e: Event, f: Event, limit: int, writable: nat) returns (s2: State, s3: State)
    requires limit == 1 <= writable
    requires st.cmd.named && OnlyPending(st.tables, st.cmd, e, f) && st.since == st.cmd.origin && st.out == [] && Resumes(now)
    ensures s2 == Apply(st, Poll(limit, writable, true)) && s3 == Apply(s2, Restart(now, true)) && Skips(s3, now, e)
  {
    s2 := Apply(st, Poll(limit, writable, true));
    PollPassesBy(st, e, f, limit, writable);
    s3 := Apply(s2, Restart(now, true));
    ResumesPast(s2, now, e);
  }

  lemma SkippingRunFrom(t: Tables, cmd: Command, now: Command, e: Event, f: Event, limit: int, writable: nat)
    requires limit == 1 <= writable
    requires Valid(t) && MayAppend(t, f) && OnlyPending(Appended(t, f), cmd, e, f)
    requires Wellformed(cmd) && cmd.named && Wellformed(now) && Resumes(now)
    ensures exists ops: seq<Op>, states: seq<State> :: SkippingRun(t, cmd, ops, states, now, e)
  {
    var s1 := Apply(Initial(t, cmd), Append(f));
    assert s1.cmd == cmd && s1.tables == Appended(t, f) && s1.since == cmd.origin && s1.out == [];
    var ops, states := SkippingRunOn(t, cmd, s1, now, e, f, limit, writable);
  }

  // From the first step on.
  lemma SkippingRunOn(t: Tables, cmd: Command, s1: State, now: Command, e: Event, f: Event, limit: int, writable: nat)
    returns (ops: seq<Op>, states: seq<State>)
    requires limit == 1 <= writable
    requires Valid(t) && Wellformed(cmd) && Wellformed(now) && Resumes(now)
    requires Enabled(Initial(t, cmd), Append(f)) && s1 == Apply(Initial(t, cmd), Append(f))
    requires s1.cmd.named && OnlyPending(s1.tables, s1.cmd, e, f) && s1.since == s1.cmd.origin && s1.out == []
    ensures SkippingRun(t, cmd, ops, states, now, e)
  {
    var s2, s3 := AfterPoll(s1, now, e, f, limit, writable);
    ops, states := [Append(f), Poll(limit, writable, true), Restart(now, true)], [Initial(t, cmd), s1, s2, s3];
    ThreeSteps(t, cmd, ops[0], ops[1], ops[2], s1, s2, s3);
  }

  // The converse: after any named command that passes a row by, one that resumes from its
  // cursor and would show the row may never report it.
  lemma HarmfulCommandSkips(other: Command, now: Command, e: Event)
    requires Wellformed(other) && other.named && Wellformed(now) && Resumes(now) && ShareKey(other, now)
    requires !Harmless(other, e)
    requires e.source in Sources(now.mode) && Visible(now.mode, e) && e.id > Since(now.origin, e.source)
    ensures exists ops: seq<Op>, states: seq<State> :: SkippingRun(OneRow(e), other, ops, states, now, e)
  {
    var f := LaterRow(other, e);
    LaterMayAppend(other, e, f);
    forall s: Source
      ensures Pending(Appended(OneRow(e), f), other.mode, other.origin, s) == if s == f.source then [f] else []
    {
      OnlyLaterPending(other, e, f, s);
    }
    SkippingRunFrom(OneRow(e), other, now, e, f, 1, 1);
  }

  // ---- The program ----

  // The event tables; ids are assigned in order and never reused.
  class EventLog {
    var tables: Tables

    constructor ()
      ensures Valid(tables) && forall s: Source :: Rows(tables, s) == []
    {
      tables := Tables([], [], [], [], [], []);
    }

    method Add(source: Source, run: Option<string>, now: int, body: string) returns (id: int)
      requires Valid(tables)
      requires Rows(tables, source) != [] ==> Rows(tables, source)[|Rows(tables, source)| - 1].at <= now
      modifies this
      ensures MayAppend(old(tables), Event(source, id, run, now, body))
      ensures tables == Appended(old(tables), Event(source, id, run, now, body)) && Valid(tables)
    {
      var rows := Rows(tables, source);
      assert Ordered(rows);
      id := if rows == [] then 1 else rows[|rows| - 1].id + 1;
      var e := Event(source, id, run, now, body);
      assert MayAppend(tables, e);
      AppendValid(tables, e);
      tables := Appended(tables, e);
    }
  }

  class Tail {
    const cmd: Command
    var since: Cursors
    var saved: Option<Cursors>
    var output: seq<Event>

    constructor (cmd: Command, saved: Option<Cursors>, readable: bool)
      ensures this.cmd == cmd && this.saved == saved && output == []
      ensures since == StartMark(cmd, if readable then saved else None)
      // The flags; with a consumer and no flag the saved cursor, or the beginning.
      ensures since ==
        if !cmd.named || cmd.origin.phase != 0 || cmd.origin.dispatch != 0 || cmd.origin.discovery != 0
           || cmd.origin.coordination != 0 || cmd.origin.review != 0 then cmd.origin
        else if readable && saved != None then saved.value
        else Cursors(0, 0, 0, 0, 0, 0)
    {
      this.cmd, this.saved, output := cmd, saved, [];
      since := if cmd.named && cmd.origin.(interspect := 0) == ZERO then LoadCursor(saved, readable) else cmd.origin;
    }

    static function LoadCursor(saved: Option<Cursors>, readable: bool): Cursors {
      if readable && saved.Some? then saved.value else ZERO
    }

    // One turn of the loop: list, write, raise the marks, save.
    method PollOnce(log: EventLog, limit: int, writable: nat, stored: bool) returns (failed: bool)
      modifies this
      ensures var st := Apply(State(cmd, old(log.tables), old(since), old(saved), old(since), [], old(output)),
                              Poll(limit, writable, stored));
        && since == st.since && saved == st.saved && output == st.out
      ensures failed <==> writable < |List(old(log.tables), cmd.mode, old(since), limit)|
      ensures saved == if cmd.named && !failed && |output| > |old(output)| && stored then Some(since) else old(saved)
      ensures Valid(old(log.tables)) && output == old(output) && !failed ==>
        forall s: Source :: Pending(old(log.tables), cmd.mode, old(since), s) == []
    {
      var tables := log.tables;
      var first := since;
      var events := List(tables, cmd.mode, first, limit);
      failed := WriteOut(events, writable);
      if cmd.named && |events| > 0 && !failed && stored {
        saved := Some(since);
      }
      if Valid(tables) {
        EmptyMeansDrained(tables, cmd.mode, first, limit);
      }
    }

    // Encode the events one by one; a mark is raised only after its event is out.
    method WriteOut(events: seq<Event>, writable: nat) returns (failed: bool)
      modifies this`since, this`output
      ensures failed <==> writable < |events|
      ensures output == old(output) + Take(events, writable)
      ensures since == RaiseAll(old(since), Take(events, writable))
    {
      var n := 0;
      while n < |events|
        invariant 0 <= n <= |events| && n <= writable
        invariant since == RaiseAll(old(since), events[..n]) && output == old(output) + events[..n]
      {
        if n == writable {
          assert events[..n] == Take(events, writable);
          return true;
        }
        var e := events[n];
        output := output + [e];
        assert events[..n + 1] == events[..n] + [e];
        if e.id > Since(since, e.source) {
          since := WithSince(since, e.source, e.id);
        }
        n := n + 1;
      }
      assert events[..n] == Take(events, writable);
      return false;
    }
  }
}
