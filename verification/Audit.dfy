// The hash-chained audit log: internal/audit/audit.go.
//
// `hash` stands for computeChecksum. `reread` is what decoding a stored payload and
// encoding it again yields; some payloads, such as integers beyond 2^53, change.
module Audit {
  // What the checksum covers: not the row id, the checksum itself or the trace id.
  datatype Body = Body(
    session: string, kind: string, actor: string, target: string, payload: string, metadata: string,
    prevHash: string, sequence: int, createdAt: int)

  datatype Entry = Entry(body: Body, checksum: string, traceId: string)

  ghost predicate Injective(hash: Body -> string) {
    forall a, b :: hash(a) == hash(b) ==> a == b
  }

  function Reread(reread: string -> string, b: Body): Body {
    b.(payload := reread(b.payload), metadata := reread(b.metadata))
  }

  // The payload and the metadata survive the round trip.
  predicate Stable(reread: string -> string, b: Body) {
    reread(b.payload) == b.payload && reread(b.metadata) == b.metadata
  }

  // ---- The table ----

  // SELECT ... WHERE session_id = ? ORDER BY sequence_num
  function InsertBySequence(rows: seq<Entry>, e: Entry): seq<Entry> {
    if rows == [] || rows[|rows| - 1].body.sequence <= e.body.sequence then rows + [e]
    else InsertBySequence(rows[..|rows| - 1], e) + [rows[|rows| - 1]]
  }

  function SessionRows(table: seq<Entry>, session: string): seq<Entry> {
    if table == [] then []
    else
      var last, rows := table[|table| - 1], SessionRows(table[..|table| - 1], session);
      if last.body.session == session then InsertBySequence(rows, last) else rows
  }

  // The rows of a session: all of them, by number, each as often as it is stored.
  lemma {:induction false} SessionRowsAreSorted(table: seq<Entry>, session: string)
    ensures var rows := SessionRows(table, session);
      && BySequence(rows)
      && (forall e :: multiset(rows)[e] == if e.body.session == session then multiset(table)[e] else 0)
  {
    if table != [] {
      var front, last := table[..|table| - 1], table[|table| - 1];
      SessionRowsAreSorted(front, session);
      assert table == front + [last];
      InsertedSorted(SessionRows(front, session), last);
      InsertedOnce(SessionRows(front, session), last);
    }
  }

  predicate BySequence(rows: seq<Entry>) {
    forall i, j :: 0 <= i < j < |rows| ==> rows[i].body.sequence <= rows[j].body.sequence
  }

  lemma {:induction false} InsertedOnce(rows: seq<Entry>, e: Entry)
    ensures multiset(InsertBySequence(rows, e)) == multiset(rows) + multiset{e}
  {
    if rows != [] && rows[|rows| - 1].body.sequence > e.body.sequence {
      assert rows == rows[..|rows| - 1] + [rows[|rows| - 1]];
      InsertedOnce(rows[..|rows| - 1], e);
    }
  }

  lemma {:induction false} InsertedSorted(rows: seq<Entry>, e: Entry)
    requires BySequence(rows)
    ensures BySequence(InsertBySequence(rows, e))
  {
    if rows != [] && rows[|rows| - 1].body.sequence > e.body.sequence {
      var front, last := rows[..|rows| - 1], rows[|rows| - 1];
      InsertedSorted(front, e);
      InsertedOnce(front, e);
      var r := InsertBySequence(front, e);
      forall i | 0 <= i < |r|
        ensures r[i].body.sequence <= last.body.sequence
      {
        assert r[i] in multiset(r);
        assert r[i] in front || r[i] == e;
      }
    }
  }

  // ---- Verification ----

  function LastHash(rows: seq<Entry>): string {
    if rows == [] then "" else rows[|rows| - 1].checksum
  }

  function LastSequence(rows: seq<Entry>): int {
    if rows == [] then 0 else rows[|rows| - 1].body.sequence
  }

  predicate EntryOk(hash: Body -> string, reread: string -> string, rows: seq<Entry>, i: nat)
    requires i < |rows|
  {
    && rows[i].body.sequence == i + 1
    && rows[i].body.prevHash == LastHash(rows[..i])
    && rows[i].checksum == hash(Reread(reread, rows[i].body))
  }

  predicate Accepted(hash: Body -> string, reread: string -> string, rows: seq<Entry>) {
    forall i {:trigger EntryOk(hash, reread, rows, i)} :: 0 <= i < |rows| ==> EntryOk(hash, reread, rows, i)
  }

  datatype Verdict = Intact | SequenceGap(at: nat) | ChainBroken(at: nat) | ChecksumMismatch(at: nat)

  // The loop stops at the first entry that fails and says what is wrong with it.
  method VerifyIntegrity(hash: Body -> string, reread: string -> string, table: seq<Entry>, session: string)
    returns (r: Verdict)
    ensures var rows := SessionRows(table, session);
      && (r.Intact? <==> Accepted(hash, reread, rows))
      && (!r.Intact? ==>
            && r.at < |rows| && Accepted(hash, reread, rows[..r.at]) && !EntryOk(hash, reread, rows, r.at)
            && (r.SequenceGap? <==> rows[r.at].body.sequence != r.at + 1)
            && (r.ChainBroken? ==> rows[r.at].body.prevHash != LastHash(rows[..r.at]))
            && (r.ChecksumMismatch? ==> rows[r.at].checksum != hash(Reread(reread, rows[r.at].body))))
  {
    var rows := SessionRows(table, session);
    var prevHash, expected := "", 0;
    for i := 0 to |rows|
      invariant Accepted(hash, reread, rows[..i])
      invariant prevHash == LastHash(rows[..i]) && expected == i
    {
      expected := expected + 1;
      var e := rows[i];
      assert Accepted(hash, reread, rows) ==> EntryOk(hash, reread, rows, i);
      if e.body.sequence != expected {
        return SequenceGap(i);
      }
      if e.body.prevHash != prevHash {
        return ChainBroken(i);
      }
      if hash(Reread(reread, e.body)) != e.checksum {
        return ChecksumMismatch(i);
      }
      prevHash := e.checksum;
      AcceptedSnoc(hash, reread, rows[..i], e);
      assert rows[..i + 1] == rows[..i] + [e];
    }
    assert rows[..|rows|] == rows;
    return Intact;
  }

  // A longer log is accepted when its beginning is and the new entry continues it.
  lemma AcceptedSnoc(hash: Body -> string, reread: string -> string, rows: seq<Entry>, e: Entry)
    ensures Accepted(hash, reread, rows + [e]) <==>
      && Accepted(hash, reread, rows) && e.body.sequence == |rows| + 1 && e.body.prevHash == LastHash(rows)
      && e.checksum == hash(Reread(reread, e.body))
  {
    var longer := rows + [e];
    forall i | 0 <= i < |rows|
      ensures EntryOk(hash, reread, longer, i) <==> EntryOk(hash, reread, rows, i)
    {
      assert longer[..i] == rows[..i];
    }
    assert longer[..|rows|] == rows;
    assert Accepted(hash, reread, longer) ==> EntryOk(hash, reread, longer, |rows|);
    if Accepted(hash, reread, longer) {
      forall i | 0 <= i < |rows|
        ensures EntryOk(hash, reread, rows, i)
      {
        assert EntryOk(hash, reread, longer, i);
      }
    }
  }

  // ---- Tampering ----

  // Two accepted logs that end in one checksum are one log, entry by entry.
  lemma {:induction false} LastChecksumFixesTheLog(hash: Body -> string, reread: string -> string, a: seq<Entry>, b: seq<Entry>)
    requires Injective(hash) && Accepted(hash, reread, a) && Accepted(hash, reread, b)
    requires a != [] && b != [] && LastHash(a) == LastHash(b)
    ensures |a| == |b|
    ensures forall i :: 0 <= i < |a| ==> Reread(reread, a[i].body) == Reread(reread, b[i].body) && a[i].checksum == b[i].checksum
  {
    var n := |a| - 1;
    assert EntryOk(hash, reread, a, n) && EntryOk(hash, reread, b, |b| - 1);
    assert Reread(reread, a[n].body) == Reread(reread, b[|b| - 1].body);
    if n > 0 {
      assert a[..n] + [a[n]] == a && b[..n] + [b[n]] == b;
      AcceptedSnoc(hash, reread, a[..n], a[n]);
      AcceptedSnoc(hash, reread, b[..n], b[n]);
      LastChecksumFixesTheLog(hash, reread, a[..n], b[..n]);
      forall i | 0 <= i < n
        ensures Reread(reread, a[i].body) == Reread(reread, b[i].body) && a[i].checksum == b[i].checksum
      {
        assert a[i] == a[..n][i] && b[i] == b[..n][i];
      }
    }
  }

  // Deleting one entry is noticed unless it is the last one.
  lemma DeletionIsNoticed(hash: Body -> string, reread: string -> string, a: seq<Entry>, i: nat)
    requires Accepted(hash, reread, a) && i < |a|
    ensures Accepted(hash, reread, a[..i] + a[i + 1..]) <==> i == |a| - 1
  {
    var b := a[..i] + a[i + 1..];
    if i == |a| - 1 {
      assert a == a[..i] + [a[i]] && b == a[..i];
      AcceptedSnoc(hash, reread, a[..i], a[i]);
    } else {
      assert b[i] == a[i + 1];
      assert EntryOk(hash, reread, a, i + 1);
      assert !EntryOk(hash, reread, b, i);
    }
  }

  // ---- Loggers ----

  datatype Logger = Logger(lastHash: string, sequence: int)

  // loadLastEntry
  function Loaded(table: seq<Entry>, session: string): Logger {
    var rows := SessionRows(table, session);
    Logger(LastHash(rows), LastSequence(rows))
  }

  datatype State = State(table: seq<Entry>, logger: Logger)

  // `stored` says whether the insert succeeded; the sequence number is spent anyway.
  datatype Op =
    | Log(kind: string, actor: string, target: string, payload: string, metadata: string,
          traceId: string, now: int, stored: bool)
    | Restart
    | OtherSession(e: Entry)

  function NextEntry(hash: Body -> string, session: string, l: Logger, op: Op): Entry
    requires op.Log?
  {
    var body := Body(session, op.kind, op.actor, op.target, op.payload, op.metadata, l.lastHash, l.sequence + 1, op.now);
    Entry(body, hash(body), op.traceId)
  }

  predicate Enabled(session: string, op: Op) {
    op.OtherSession? ==> op.e.body.session != session
  }

  function Apply(hash: Body -> string, session: string, st: State, op: Op): State {
    match op
    case Log(_, _, _, _, _, _, _, stored) =>
      var e := NextEntry(hash, session, st.logger, op);
      if stored then State(st.table + [e], Logger(e.checksum, st.logger.sequence + 1))
      else st.(logger := Logger(st.logger.lastHash, st.logger.sequence + 1))
    case Restart => st.(logger := Loaded(st.table, session))
    case OtherSession(e) => st.(table := st.table + [e])
  }

  // One live logger for the session, opened on a table with no row of it yet.
  ghost predicate Run(hash: Body -> string, session: string, ops: seq<Op>, states: seq<State>) {
    && |states| == |ops| + 1 && states[0] == State([], Logger("", 0))
    && forall i {:trigger StepAt(hash, session, ops, states, i)} :: 0 <= i < |ops| ==> StepAt(hash, session, ops, states, i)
  }

  ghost predicate StepAt(hash: Body -> string, session: string, ops: seq<Op>, states: seq<State>, i: nat)
    requires |states| == |ops| + 1 && i < |ops|
  {
    Enabled(session, ops[i]) && states[i + 1] == Apply(hash, session, states[i], ops[i])
  }

  // The logger has spent a number on an insert that failed, and has not restarted since.
  predicate Skewed(ops: seq<Op>, n: nat)
    requires n <= |ops|
  {
    n > 0 &&
    match ops[n - 1]
    case Log(_, _, _, _, _, _, _, stored) => !stored
    case Restart => false
    case OtherSession(_) => Skewed(ops, n - 1)
  }

  // The logger continues the session's rows; its number is ahead exactly when skewed.
  predicate Follows(session: string, st: State, skewed: bool) {
    var rows := SessionRows(st.table, session);
    && st.logger.lastHash == LastHash(rows)
    && (if skewed then st.logger.sequence > LastSequence(rows) else st.logger.sequence == LastSequence(rows))
  }

  lemma AppendRow(table: seq<Entry>, session: string, e: Entry)
    ensures e.body.session != session ==> SessionRows(table + [e], session) == SessionRows(table, session)
    ensures e.body.session == session && LastSequence(SessionRows(table, session)) <= e.body.sequence ==>
      SessionRows(table + [e], session) == SessionRows(table, session) + [e]
  {
    assert (table + [e])[..|table|] == table;
  }

  lemma {:induction false} LoggerFollows(hash: Body -> string, session: string, ops: seq<Op>, states: seq<State>, n: nat)
    requires Run(hash, session, ops, states) && n < |states|
    ensures Follows(session, states[n], Skewed(ops, n))
  {
    if n > 0 {
      LoggerFollows(hash, session, ops, states, n - 1);
      assert StepAt(hash, session, ops, states, n - 1);
      var st, op := states[n - 1], ops[n - 1];
      if op.Log? && op.stored {
        AppendRow(st.table, session, NextEntry(hash, session, st.logger, op));
      } else if op.OtherSession? {
        AppendRow(st.table, session, op.e);
      }
    }
  }

  // Logged at a skew, or with content that does not survive the round trip.
  predicate Breaks(reread: string -> string, ops: seq<Op>, i: nat)
    requires i < |ops|
  {
    ops[i].Log? && ops[i].stored &&
    (Skewed(ops, i) || reread(ops[i].payload) != ops[i].payload || reread(ops[i].metadata) != ops[i].metadata)
  }

  // The numbers of an accepted log end at its length.
  lemma AcceptedLength(hash: Body -> string, reread: string -> string, rows: seq<Entry>)
    requires Accepted(hash, reread, rows)
    ensures LastSequence(rows) == |rows|
  {
    assert rows != [] ==> EntryOk(hash, reread, rows, |rows| - 1);
  }

  // A session's log is accepted, through any restarts, until an entry is stored by a
  // logger that an earlier insert failed for, or with unstable content; and never again.
  lemma {:induction false} AcceptedUntilABreak(hash: Body -> string, reread: string -> string, session: string,
                                               ops: seq<Op>, states: seq<State>, n: nat)
    requires Injective(hash) && Run(hash, session, ops, states) && n < |states|
    ensures Accepted(hash, reread, SessionRows(states[n].table, session)) <==>
            forall i :: 0 <= i < n ==> !Breaks(reread, ops, i)
  {
    if n > 0 {
      AcceptedUntilABreak(hash, reread, session, ops, states, n - 1);
      LoggerFollows(hash, session, ops, states, n - 1);
      assert StepAt(hash, session, ops, states, n - 1);
      var st, op := states[n - 1], ops[n - 1];
      var rows := SessionRows(st.table, session);
      if op.OtherSession? {
        AppendRow(st.table, session, op.e);
      } else if op.Log? && op.stored {
        var e := NextEntry(hash, session, st.logger, op);
        AppendRow(st.table, session, e);
        AcceptedSnoc(hash, reread, rows, e);
        if Accepted(hash, reread, rows) {
          AcceptedLength(hash, reread, rows);
          assert Breaks(reread, ops, n - 1) <==> Skewed(ops, n - 1) || !Stable(reread, e.body);
          assert e.checksum == hash(Reread(reread, e.body)) <==> Stable(reread, e.body);
        }
      }
      assert (forall i :: 0 <= i < n ==> !Breaks(reread, ops, i)) <==>
             (forall i :: 0 <= i < n - 1 ==> !Breaks(reread, ops, i)) && !Breaks(reread, ops, n - 1);
    }
  }

  // An insert that fails and one that works: the log has a gap from then on.
  lemma FailedInsertLeavesAGap(hash: Body -> string, reread: string -> string, session: string, failed: Op, worked: Op)
    requires failed.Log? && !failed.stored && worked.Log? && worked.stored
    ensures var empty := State([], Logger("", 0));
            var before := Apply(hash, session, empty, failed);
            var after := Apply(hash, session, before, worked);
      && Run(hash, session, [failed, worked], [empty, before, after])
      && |SessionRows(after.table, session)| == 1 && SessionRows(after.table, session)[0].body.sequence == 2
      && Accepted(hash, reread, SessionRows(before.table, session))
      && !Accepted(hash, reread, SessionRows(after.table, session))
  {
    var before := Apply(hash, session, State([], Logger("", 0)), failed);
    var e := NextEntry(hash, session, before.logger, worked);
    AppendRow([], session, e);
    var rows := SessionRows([] + [e], session);
    assert [] + [e] == [e] && rows == [e];
    assert !EntryOk(hash, reread, rows, 0);
  }

  // ---- The program ----

  class Database {
    var table: seq<Entry>

    constructor ()
      ensures table == []
    {
      table := [];
    }
  }

  class AuditLogger {
    const db: Database
    const session: string
    const hash: Body -> string
    var lastHash: string
    var sequenceNum: int

    function View(): State
      reads this, db
    {
      State(db.table, Logger(lastHash, sequenceNum))
    }

    // New: continue where the stored rows of the session end.
    constructor (db: Database, session: string, hash: Body -> string)
      ensures this.db == db && this.session == session && this.hash == hash
      ensures Logger(lastHash, sequenceNum) == Loaded(db.table, session)
    {
      this.db, this.session, this.hash := db, session, hash;
      var rows := SessionRows(db.table, session);
      lastHash, sequenceNum := "", 0;
      if rows != [] {
        lastHash, sequenceNum := rows[|rows| - 1].checksum, rows[|rows| - 1].body.sequence;
      }
    }

    method Log(kind: string, actor: string, target: string, payload: string, metadata: string,
                    traceId: string, now: int, insertWorks: bool) returns (ok: bool)
      modifies this, db
      ensures ok == insertWorks
      ensures View() == Apply(hash, session, old(View()), Op.Log(kind, actor, target, payload, metadata, traceId, now, insertWorks))
      // The stored row, column by column.
      ensures sequenceNum == old(sequenceNum) + 1
      ensures insertWorks ==>
        && var body := Body(session, kind, actor, target, payload, metadata, old(lastHash), old(sequenceNum) + 1, now);
        && db.table == old(db.table) + [Entry(body, hash(body), traceId)] && lastHash == hash(body)
      ensures !insertWorks ==> db.table == old(db.table) && lastHash == old(lastHash)
    {
      sequenceNum := sequenceNum + 1;
      var body := Body(session, kind, actor, target, payload, metadata, lastHash, sequenceNum, now);
      var checksum := hash(body);
      if !insertWorks {
        return false;
      }
      db.table := db.table + [Entry(body, checksum, traceId)];
      lastHash := checksum;
      return true;
    }
  }
}
