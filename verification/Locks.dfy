// The coordination lock table: internal/coordination/store.go.
//
// Every method is one transaction (or one UPDATE) of the source at the wall-clock
// second it is given. A world is the table with the time of its last transaction.
module Locks {
  import opened Basics
  import opened Glob
  import opened GlobEngine

  datatype Lock = Lock(
    id: string,
    kind: string,
    owner: string,
    scope: string,
    pattern: Text,
    exclusive: bool,
    reason: string,
    ttlSeconds: int,
    createdAt: int,
    expiresAt: Option<int>,
    releasedAt: Option<int>,
    dispatchId: string,
    runId: string)

  // The CHECK constraint of coordination_locks.
  const KINDS: set<string> := {"file_reservation", "named_lock", "write_set"}

  // The active rows of every query: unreleased, and expiring later than now.
  predicate Active(l: Lock, now: int) {
    l.releasedAt.None? && (l.expiresAt.None? || l.expiresAt.value > now)
  }

  predicate Expired(l: Lock, cutoff: int) {
    l.releasedAt.None? && l.expiresAt.Some? && l.expiresAt.value < cutoff
  }

  // What every committed table satisfies.
  predicate Table(rows: seq<Lock>) {
    && (forall i, j :: 0 <= i < j < |rows| ==> rows[i].id != rows[j].id)
    && (forall i :: 0 <= i < |rows| ==> rows[i].id != "" && Admissible(rows[i].pattern))
  }

  lemma TableKept(rows: seq<Lock>, after: seq<Lock>)
    requires Table(rows) && |after| == |rows|
    requires forall i :: 0 <= i < |rows| ==> after[i].id == rows[i].id && after[i].pattern == rows[i].pattern
    ensures Table(after)
  {
  }

  // ---- Effects on rows ----

  function Swept(l: Lock, cutoff: int, now: int): Lock {
    if Expired(l, cutoff) then l.(releasedAt := Some(now)) else l
  }

  function SweptRows(rows: seq<Lock>, cutoff: int, now: int): seq<Lock> {
    seq(|rows|, i requires 0 <= i < |rows| => Swept(rows[i], cutoff, now))
  }

  // The row a granted request becomes.
  function Stored(lock: Lock, freshId: string, created: int): Lock {
    lock.(id := if lock.id == "" then freshId else lock.id,
          createdAt := created,
          expiresAt := if lock.ttlSeconds > 0 then Some(created + lock.ttlSeconds) else lock.expiresAt,
          releasedAt := None)
  }

  predicate ReleaseTarget(l: Lock, id: string, owner: string, scope: string) {
    l.releasedAt.None? && if id != "" then l.id == id else l.owner == owner && l.scope == scope
  }

  function Released(l: Lock, id: string, owner: string, scope: string, now: int): Lock {
    if ReleaseTarget(l, id, owner, scope) then l.(releasedAt := Some(now)) else l
  }

  function ReleasedRows(rows: seq<Lock>, id: string, owner: string, scope: string, now: int): seq<Lock> {
    seq(|rows|, i requires 0 <= i < |rows| => Released(rows[i], id, owner, scope, now))
  }

  predicate Held(l: Lock, owner: string, scope: string, now: int) {
    l.owner == owner && l.scope == scope && Active(l, now)
  }

  function Transferred(l: Lock, from: string, to: string, scope: string, now: int): Lock {
    if Held(l, from, scope, now) then l.(owner := to) else l
  }

  function TransferredRows(rows: seq<Lock>, from: string, to: string, scope: string, now: int): seq<Lock> {
    seq(|rows|, i requires 0 <= i < |rows| => Transferred(rows[i], from, to, scope, now))
  }

  // The rows an UPDATE or SELECT touches, by position; their number is what it reports.
  ghost function Targets(rows: seq<Lock>, id: string, owner: string, scope: string): set<int> {
    set i | 0 <= i < |rows| && ReleaseTarget(rows[i], id, owner, scope)
  }

  ghost function HeldRows(rows: seq<Lock>, owner: string, scope: string, now: int): set<int> {
    set i | 0 <= i < |rows| && Held(rows[i], owner, scope, now)
  }

  ghost function ExpiredRows(rows: seq<Lock>, cutoff: int): set<int> {
    set i | 0 <= i < |rows| && Expired(rows[i], cutoff)
  }

  // ---- Conflicts ----

  // Row e stands in the way of the request at this time.
  ghost predicate Blocks(e: Lock, request: Lock, now: int) {
    && e.releasedAt == None && (e.expiresAt == None || e.expiresAt.value > now)
    && e.scope == request.scope && e.owner != request.owner && (request.exclusive || e.exclusive)
    && Overlap(request.pattern, e.pattern)
  }

  ghost predicate Blocked(rows: seq<Lock>, request: Lock, now: int) {
    exists i :: 0 <= i < |rows| && Blocks(rows[i], request, now)
  }

  // What Check lists: shared locks too, and every owner when none is excluded.
  ghost predicate Listed(l: Lock, scope: string, pattern: Text, excludeOwner: string, now: int) {
    && l.scope == scope && l.releasedAt == None && (l.expiresAt == None || l.expiresAt.value > now)
    && (excludeOwner != "" ==> l.owner != excludeOwner)
    && Overlap(pattern, l.pattern)
  }

  ghost function Listing(rows: seq<Lock>, scope: string, pattern: Text, excludeOwner: string, now: int): seq<Lock> {
    if rows == [] then []
    else
      var last := rows[|rows| - 1];
      Listing(rows[..|rows| - 1], scope, pattern, excludeOwner, now) +
      if Listed(last, scope, pattern, excludeOwner, now) then [last] else []
  }

  // Two exclusive locks, one of each owner, that an unforced transfer refuses to join.
  ghost predicate TransferConflict(rows: seq<Lock>, from: string, to: string, scope: string, now: int) {
    exists i, j :: 0 <= i < |rows| && 0 <= j < |rows| && JoinConflict(rows[i], rows[j], from, to, scope, now)
  }

  ghost predicate JoinConflict(a: Lock, b: Lock, from: string, to: string, scope: string, now: int) {
    && a.owner == from && a.scope == scope && a.exclusive
    && a.releasedAt == None && (a.expiresAt == None || a.expiresAt.value > now)
    && b.owner == to && b.scope == scope && b.exclusive
    && b.releasedAt == None && (b.expiresAt == None || b.expiresAt.value > now)
    && Overlap(a.pattern, b.pattern)
  }

  // The overlap check cannot fail on two patterns that have passed the gate.
  method PatternsConflict(a: Text, b: Text) returns (overlap: bool)
    requires Admissible(a) && Admissible(b)
    ensures overlap <==> Overlap(a, b)
  {
    var r := PatternsOverlap(a, b);
    assert r.Ok?;
    return r.value;
  }

  // The innermost loop of an unforced Transfer.
  method FirstOverlap(locks: seq<Lock>, pattern: Text) returns (hit: Option<Lock>)
    requires Admissible(pattern) && forall l :: l in locks ==> Admissible(l.pattern)
    ensures hit.Some? ==> hit.value in locks && Overlap(hit.value.pattern, pattern)
    ensures hit.None? ==> forall l :: l in locks ==> !Overlap(l.pattern, pattern)
  {
    for m := 0 to |locks|
      invariant forall l :: l in locks[..m] ==> !Overlap(l.pattern, pattern)
    {
      var overlap := PatternsConflict(locks[m].pattern, pattern);
      if overlap {
        return Some(locks[m]);
      }
      assert locks[..m + 1] == locks[..m] + [locks[m]];
    }
    assert locks[..|locks|] == locks;
    return None;
  }

  // The query and the loop of Reserve: the first row that blocks the request.
  method FindBlocker(rows: seq<Lock>, lock: Lock, now: int) returns (hit: Option<Lock>)
    requires Admissible(lock.pattern) && forall l :: l in rows ==> Admissible(l.pattern)
    ensures hit.Some? ==> hit.value in rows && Blocks(hit.value, lock, now)
    ensures hit.None? ==> forall l :: l in rows ==> !Blocks(l, lock, now)
  {
    for k := 0 to |rows|
      invariant forall l :: l in rows[..k] ==> !Blocks(l, lock, now)
    {
      var e := rows[k];
      assert rows[..k + 1] == rows[..k] + [e];
      if e.scope == lock.scope && Active(e, now) && e.owner != lock.owner {
        if !lock.exclusive && !e.exclusive {
          continue;
        }
        var overlap := PatternsConflict(lock.pattern, e.pattern);
        if overlap {
          return Some(e);
        }
      }
    }
    assert rows[..|rows|] == rows;
    return None;
  }

  // ---- The store ----

  datatype ReserveOutcome =
    | Granted(lock: Lock)
    | Conflict(blockerId: string, blockerOwner: string, blockerPattern: Text, blockerReason: string)
    | InvalidPattern(error: GlobError)
    | InsertFailed

  datatype Count = Rows(n: nat) | Refused

  class Store {
    var rows: seq<Lock>

    constructor ()
      ensures rows == [] && Table(rows)
    {
      rows := [];
    }

    method Reserve(lock: Lock, freshId: string, created: int, now: int) returns (r: ReserveOutcome)
      requires Table(rows) && created <= now && freshId != ""
      modifies this
      ensures Table(rows)
      ensures r.InvalidPattern? <==> !Admissible(lock.pattern)
      ensures r.Conflict? <==> Admissible(lock.pattern) && Blocked(old(rows), lock, now)
      ensures r.Conflict? ==>
        exists i :: 0 <= i < |old(rows)| && Blocks(old(rows)[i], lock, now) &&
          r == Conflict(old(rows)[i].id, old(rows)[i].owner, old(rows)[i].pattern, old(rows)[i].reason)
      ensures var row := Stored(lock, freshId, created);
        && (r.Granted? <==> Reservable(old(rows), lock, row, now))
        && (r.Granted? ==> r.lock == row && rows == SweptRows(old(rows), now, now) + [row])
      ensures !r.Granted? ==> rows == old(rows)
      ensures Step(old(rows), rows, now)
      // What is granted, column by column, and what becomes of the other rows.
      ensures r.Granted? ==>
        && r.lock.owner == lock.owner && r.lock.scope == lock.scope && r.lock.pattern == lock.pattern
        && r.lock.exclusive == lock.exclusive && r.lock.releasedAt == None
        && r.lock.expiresAt == (if lock.ttlSeconds > 0 then Some(created + lock.ttlSeconds) else lock.expiresAt)
        && GrantOf(lock, freshId, created, r.lock) && GrownBy(old(rows), rows, r.lock, now)
    {
      var gate := ValidateComplexity(lock.pattern);
      if gate.Err? {
        StutterStep(rows, now);
        return InvalidPattern(gate.error);
      }
      var row := Stored(lock, freshId, created);
      ghost var before := rows;
      r := ReserveRow(lock, row, now);
      if r.Granted? {
        GrantIsStep(before, lock, freshId, created, now);
        GrantGrows(before, row, now);
        StoredColumns(lock, freshId, created);
      } else {
        StutterStep(rows, now);
      }
    }

    // The transaction of Reserve: sweep, look for a blocker, insert.
    method ReserveRow(lock: Lock, row: Lock, now: int) returns (r: ReserveOutcome)
      requires Table(rows) && Admissible(lock.pattern) && row.id != "" && row.pattern == lock.pattern
      modifies this
      ensures Table(rows)
      ensures r.Conflict? <==> Blocked(old(rows), lock, now)
      ensures r.Conflict? ==>
        exists i :: 0 <= i < |old(rows)| && Blocks(old(rows)[i], lock, now) &&
          r == Conflict(old(rows)[i].id, old(rows)[i].owner, old(rows)[i].pattern, old(rows)[i].reason)
      ensures r.Granted? <==> Reservable(old(rows), lock, row, now)
      ensures r.Granted? ==> r.lock == row && rows == SweptRows(old(rows), now, now) + [row]
      ensures !r.Granted? ==> rows == old(rows)
      ensures !r.InvalidPattern?
    {
      var snapshot := rows; // BEGIN IMMEDIATE
      SweepExpired(now);
      TableKept(snapshot, rows);
      var blocker := FindBlocker(rows, lock, now);
      SweptBlocksNothing(snapshot, lock, now);
      if blocker.Some? {
        var e := blocker.value;
        BlockerWasThere(snapshot, e, lock, now);
        rows := snapshot; // ROLLBACK
        return Conflict(e.id, e.owner, e.pattern, e.reason);
      }
      NothingBlocks(rows, lock, now);
      assert forall i :: 0 <= i < |rows| ==> rows[i].id == snapshot[i].id;
      if row.kind !in KINDS || (exists i :: 0 <= i < |rows| && rows[i].id == row.id) {
        rows := snapshot; // ROLLBACK
        return InsertFailed;
      }
      InsertKeepsTable(rows, row);
      rows := rows + [row]; // INSERT, COMMIT
      return Granted(row);
    }

    // UPDATE ... SET released_at = now WHERE expires_at < now, inside Reserve.
    method SweepExpired(now: int)
      modifies this
      ensures rows == SweptRows(old(rows), now, now)
    {
      for k := 0 to |rows|
        invariant |rows| == |old(rows)|
        invariant forall i :: 0 <= i < k ==> rows[i] == Swept(old(rows)[i], now, now)
        invariant forall i :: k <= i < |rows| ==> rows[i] == old(rows)[i]
      {
        if Expired(rows[k], now) {
          rows := rows[k := rows[k].(releasedAt := Some(now))];
        }
      }
    }

    method Release(id: string, owner: string, scope: string, now: int) returns (r: Count)
      requires Table(rows)
      modifies this
      ensures Table(rows)
      ensures r.Refused? <==> id == "" && (owner == "" || scope == "")
      ensures r.Refused? ==> rows == old(rows)
      ensures r.Rows? ==>
        && rows == ReleasedRows(old(rows), id, owner, scope, now)
        && r.n == |Targets(old(rows), id, owner, scope)|
      ensures Step(old(rows), rows, now)
      ensures r.Rows? ==> |rows| == |old(rows)| && forall i :: 0 <= i < |rows| ==>
        var e := old(rows)[i];
        rows[i] == if e.releasedAt == None && (if id != "" then e.id == id else e.owner == owner && e.scope == scope)
                   then e.(releasedAt := Some(now)) else e
    {
      if id == "" && (owner == "" || scope == "") {
        StutterStep(rows, now);
        return Refused;
      }
      var n := MarkReleased(id, owner, scope, now);
      TableKept(old(rows), rows);
      return Rows(n);
    }

    // UPDATE coordination_locks SET released_at = now WHERE ...
    method MarkReleased(id: string, owner: string, scope: string, now: int) returns (n: nat)
      modifies this
      ensures rows == ReleasedRows(old(rows), id, owner, scope, now)
      ensures n == |Targets(old(rows), id, owner, scope)|
    {
      n := 0;
      ghost var was := rows;
      for k := 0 to |rows|
        invariant |rows| == |was|
        invariant forall i :: 0 <= i < k ==> rows[i] == Released(was[i], id, owner, scope, now)
        invariant forall i :: k <= i < |rows| ==> rows[i] == was[i]
        invariant n == |Targets(was[..k], id, owner, scope)|
      {
        TargetsNext(was, id, owner, scope, k);
        if ReleaseTarget(rows[k], id, owner, scope) {
          rows := rows[k := rows[k].(releasedAt := Some(now))];
          n := n + 1;
        }
      }
      assert was[..|rows|] == was;
    }

    method Check(scope: string, pattern: Text, excludeOwner: string, now: int) returns (r: Result<seq<Lock>>)
      requires Table(rows)
      ensures r.Ok? <==> Admissible(pattern)
      ensures r.Ok? ==> r.value == Listing(rows, scope, pattern, excludeOwner, now)
      ensures r.Ok? ==> forall l :: l in r.value <==>
        && l in rows && l.scope == scope && l.releasedAt == None && (l.expiresAt == None || l.expiresAt.value > now)
        && (excludeOwner == "" || l.owner != excludeOwner) && Overlap(pattern, l.pattern)
    {
      var gate := ValidateComplexity(pattern);
      if gate.Err? {
        return Err(gate.error);
      }
      var conflicts: seq<Lock> := [];
      for k := 0 to |rows|
        invariant conflicts == Listing(rows[..k], scope, pattern, excludeOwner, now)
      {
        var l := rows[k];
        assert rows[..k + 1][..k] == rows[..k];
        if l.scope == scope && Active(l, now) && (excludeOwner == "" || l.owner != excludeOwner) {
          var overlap := PatternsConflict(pattern, l.pattern);
          if overlap {
            conflicts := conflicts + [l];
          }
        }
      }
      assert rows[..|rows|] == rows;
      ListingMembers(rows, scope, pattern, excludeOwner, now);
      return Ok(conflicts);
    }

    method Transfer(from: string, to: string, scope: string, force: bool, now: int) returns (r: Count)
      requires Table(rows)
      modifies this
      ensures Table(rows)
      ensures r.Refused? <==> !force && TransferConflict(old(rows), from, to, scope, now)
      ensures r.Refused? ==> rows == old(rows)
      ensures r.Rows? ==>
        && rows == TransferredRows(old(rows), from, to, scope, now)
        && r.n == |HeldRows(old(rows), from, scope, now)|
      ensures Step(old(rows), rows, now)
      ensures r.Rows? ==> |rows| == |old(rows)| && forall i :: 0 <= i < |rows| ==>
        var e := old(rows)[i];
        rows[i] == if e.owner == from && e.scope == scope && e.releasedAt == None && (e.expiresAt == None || e.expiresAt.value > now)
                   then e.(owner := to) else e
    {
      if !force {
        var clash := JoinsConflict(from, to, scope, now);
        if clash {
          StutterStep(rows, now);
          return Refused;
        }
      }
      var n := MarkTransferred(from, to, scope, now);
      TableKept(old(rows), rows);
      return Rows(n);
    }

    // UPDATE coordination_locks SET owner = to WHERE ...
    method MarkTransferred(from: string, to: string, scope: string, now: int) returns (n: nat)
      modifies this
      ensures rows == TransferredRows(old(rows), from, to, scope, now)
      ensures n == |HeldRows(old(rows), from, scope, now)|
    {
      n := 0;
      ghost var was := rows;
      for k := 0 to |rows|
        invariant |rows| == |was|
        invariant forall i :: 0 <= i < k ==> rows[i] == Transferred(was[i], from, to, scope, now)
        invariant forall i :: k <= i < |rows| ==> rows[i] == was[i]
        invariant n == |HeldRows(was[..k], from, scope, now)|
      {
        HeldNext(was, from, scope, now, k);
        if Held(rows[k], from, scope, now) {
          rows := rows[k := rows[k].(owner := to)];
          n := n + 1;
        }
      }
      assert was[..|rows|] == was;
    }

    // The two queries and the nested loop of an unforced Transfer.
    method JoinsConflict(from: string, to: string, scope: string, now: int) returns (clash: bool)
      requires Table(rows)
      ensures clash <==> TransferConflict(rows, from, to, scope, now)
    {
      var fromLocks := ExclusiveLocks(from, scope, now);
      var toLocks := ExclusiveLocks(to, scope, now);
      for j := 0 to |toLocks|
        invariant Disjoint(fromLocks, toLocks[..j])
      {
        var hit := FirstOverlap(fromLocks, toLocks[j].pattern);
        if hit.Some? {
          ConflictFound(rows, from, to, scope, now, hit.value, toLocks[j]);
          return true;
        }
        DisjointNext(fromLocks, toLocks, j);
      }
      assert toLocks[..|toLocks|] == toLocks;
      ConflictMissing(rows, from, to, scope, now, fromLocks, toLocks);
      return false;
    }

    // SELECT ... WHERE owner = ? AND scope = ? AND active AND exclusive = 1
    method ExclusiveLocks(owner: string, scope: string, now: int) returns (locks: seq<Lock>)
      ensures forall l :: l in locks <==> l in rows && Held(l, owner, scope, now) && l.exclusive
    {
      locks := [];
      for i := 0 to |rows|
        invariant forall l :: l in locks <==> l in rows[..i] && Held(l, owner, scope, now) && l.exclusive
      {
        assert rows[..i + 1] == rows[..i] + [rows[i]];
        if Held(rows[i], owner, scope, now) && rows[i].exclusive {
          locks := locks + [rows[i]];
        }
      }
      assert rows[..|rows|] == rows;
    }

    // Reads the expired rows at `now`, then releases each by id at `later`.
    method Sweep(olderThan: int, dryRun: bool, now: int, later: int) returns (expired: nat)
      requires Table(rows) && now <= later
      modifies this
      ensures Table(rows)
      ensures var cutoff := if olderThan > 0 then now - olderThan else now;
        && expired == |ExpiredRows(old(rows), cutoff)|
        && rows == if dryRun then old(rows) else SweptRows(old(rows), cutoff, later)
      ensures Step(old(rows), rows, later)
      ensures dryRun ==> rows == old(rows)
      ensures !dryRun ==> ExpiredReleased(old(rows), rows, if olderThan > 0 then now - olderThan else now, later)
    {
      var cutoff := now;
      if olderThan > 0 {
        cutoff := now - olderThan;
      }
      var victims := FindExpired(cutoff);
      expired := |victims|;
      SweepReleases(rows, cutoff, later);
      StutterStep(rows, later);
      SweepIsRelease(rows, cutoff, later);
      if dryRun || expired == 0 {
        if !dryRun {
          NothingExpired(rows, victims, cutoff, later);
        }
        return;
      }
      ReleaseVictims(victims, cutoff, later);
    }

    // The releases of a sweep, one by one.
    method ReleaseVictims(victims: seq<Lock>, ghost cutoff: int, later: int)
      requires Table(rows)
      requires forall l :: l in victims <==> l in rows && Expired(l, cutoff)
      modifies this
      ensures Table(rows) && rows == SweptRows(old(rows), cutoff, later)
    {
      ghost var was := rows;
      for m := 0 to |victims|
        invariant Table(rows) && SweptSoFar(was, rows, victims[..m], cutoff, later)
      {
        ghost var before := rows;
        assert victims[m] in victims && victims[m].id != "";
        var _ := Release(victims[m].id, "", "", later);
        ReleaseOne(was, before, rows, victims, m, cutoff, later);
      }
      assert victims[..|victims|] == victims;
      AllSwept(was, rows, victims, cutoff, later);
    }

    // SELECT ... WHERE the row expired before the cutoff
    method FindExpired(cutoff: int) returns (victims: seq<Lock>)
      ensures forall l :: l in victims <==> l in rows && Expired(l, cutoff)
      ensures |victims| == |ExpiredRows(rows, cutoff)|
    {
      victims := [];
      for k := 0 to |rows|
        invariant forall l :: l in victims <==> l in rows[..k] && Expired(l, cutoff)
        invariant |victims| == |ExpiredRows(rows[..k], cutoff)|
      {
        assert rows[..k + 1] == rows[..k] + [rows[k]];
        ExpiredNext(rows, cutoff, k);
        if Expired(rows[k], cutoff) {
          victims := victims + [rows[k]];
        }
      }
      assert rows[..|rows|] == rows;
    }
  }

  // The rows after the sweep has released these.
  predicate SweptSoFar(was: seq<Lock>, rows: seq<Lock>, done: seq<Lock>, cutoff: int, later: int) {
    |rows| == |was| && forall i :: 0 <= i < |was| ==> rows[i] == if was[i] in done then Swept(was[i], cutoff, later) else was[i]
  }

  lemma AllSwept(was: seq<Lock>, rows: seq<Lock>, victims: seq<Lock>, cutoff: int, later: int)
    requires forall l :: l in victims <==> l in was && Expired(l, cutoff)
    requires SweptSoFar(was, rows, victims, cutoff, later)
    ensures rows == SweptRows(was, cutoff, later)
  {
    forall i | 0 <= i < |rows|
      ensures rows[i] == Swept(was[i], cutoff, later)
    {
      assert was[i] in was;
    }
  }

  lemma NothingExpired(rows: seq<Lock>, victims: seq<Lock>, cutoff: int, later: int)
    requires victims == [] && forall l :: l in victims <==> l in rows && Expired(l, cutoff)
    ensures rows == SweptRows(rows, cutoff, later)
  {
    AllSwept(rows, rows, victims, cutoff, later);
  }

  lemma SweepIsRelease(rows: seq<Lock>, cutoff: int, later: int)
    ensures Step(rows, SweptRows(rows, cutoff, later), later)
  {
    assert ReleaseStep(rows, SweptRows(rows, cutoff, later), later);
  }

  lemma ReleaseOne(was: seq<Lock>, before: seq<Lock>, after: seq<Lock>, victims: seq<Lock>, m: nat, cutoff: int, later: int)
    requires Table(was) && m < |victims|
    requires victims[m] in was && Expired(victims[m], cutoff) && victims[m].id != ""
    requires SweptSoFar(was, before, victims[..m], cutoff, later)
    requires after == ReleasedRows(before, victims[m].id, "", "", later)
    ensures SweptSoFar(was, after, victims[..m + 1], cutoff, later)
  {
    assert victims[..m + 1] == victims[..m] + [victims[m]];
    var v :| 0 <= v < |was| && was[v] == victims[m];
    forall i | 0 <= i < |was|
      ensures after[i] == if was[i] in victims[..m + 1] then Swept(was[i], cutoff, later) else was[i]
    {
      assert i != v ==> was[i].id != was[v].id;
      ReleasedRow(was[i], before[i], was[v], was[i] in victims[..m], cutoff, later);
    }
  }

  // One row, when v is released: released before, or v itself, or left alone.
  lemma ReleasedRow(was: Lock, before: Lock, v: Lock, done: bool, cutoff: int, later: int)
    requires v.id != "" && Expired(v, cutoff) && (was.id == v.id ==> was == v)
    requires before == if done then Swept(was, cutoff, later) else was
    ensures Released(before, v.id, "", "", later) == if done || was == v then Swept(was, cutoff, later) else was
  {
  }

  lemma ConflictFound(rows: seq<Lock>, from: string, to: string, scope: string, now: int, a: Lock, b: Lock)
    requires a in rows && b in rows && JoinConflict(a, b, from, to, scope, now)
    ensures TransferConflict(rows, from, to, scope, now)
  {
    var p :| 0 <= p < |rows| && rows[p] == a;
    var q :| 0 <= q < |rows| && rows[q] == b;
    assert JoinConflict(rows[p], rows[q], from, to, scope, now);
  }

  // No pattern of the one list overlaps one of the other.
  ghost predicate Disjoint(fromLocks: seq<Lock>, toLocks: seq<Lock>) {
    forall b, a :: b in toLocks && a in fromLocks ==> !Overlap(a.pattern, b.pattern)
  }

  lemma DisjointNext(fromLocks: seq<Lock>, toLocks: seq<Lock>, j: nat)
    requires j < |toLocks| && Disjoint(fromLocks, toLocks[..j])
    requires forall a :: a in fromLocks ==> !Overlap(a.pattern, toLocks[j].pattern)
    ensures Disjoint(fromLocks, toLocks[..j + 1])
  {
    assert toLocks[..j + 1] == toLocks[..j] + [toLocks[j]];
  }

  lemma ConflictMissing(rows: seq<Lock>, from: string, to: string, scope: string, now: int, fromLocks: seq<Lock>, toLocks: seq<Lock>)
    requires forall l :: l in rows && Held(l, from, scope, now) && l.exclusive ==> l in fromLocks
    requires forall l :: l in rows && Held(l, to, scope, now) && l.exclusive ==> l in toLocks
    requires Disjoint(fromLocks, toLocks)
    ensures !TransferConflict(rows, from, to, scope, now)
  {
    forall i, j | 0 <= i < |rows| && 0 <= j < |rows|
      ensures !JoinConflict(rows[i], rows[j], from, to, scope, now)
    {
      assert rows[i] in rows && rows[j] in rows;
    }
  }

  lemma NothingBlocks(rows: seq<Lock>, request: Lock, now: int)
    requires forall l :: l in rows ==> !Blocks(l, request, now)
    ensures !Blocked(rows, request, now)
  {
    assert forall i :: 0 <= i < |rows| ==> rows[i] in rows;
  }

  lemma BlockerWasThere(rows: seq<Lock>, e: Lock, request: Lock, now: int)
    requires e in SweptRows(rows, now, now) && Blocks(e, request, now)
    ensures exists i :: 0 <= i < |rows| && rows[i] == e && Blocks(rows[i], request, now)
  {
    var i :| 0 <= i < |rows| && SweptRows(rows, now, now)[i] == e;
    assert e == Swept(rows[i], now, now);
    assert rows[i] == e;
  }

  lemma InsertKeepsTable(rows: seq<Lock>, row: Lock)
    requires Table(rows) && row.id != "" && Admissible(row.pattern)
    requires forall i :: 0 <= i < |rows| ==> rows[i].id != row.id
    ensures Table(rows + [row])
  {
    var after := rows + [row];
    assert forall i :: 0 <= i < |rows| ==> after[i] == rows[i];
  }

  // All columns of a granted row.
  predicate GrantOf(lock: Lock, freshId: string, created: int, row: Lock) {
    row == Lock(if lock.id == "" then freshId else lock.id, lock.kind, lock.owner, lock.scope, lock.pattern,
                lock.exclusive, lock.reason, lock.ttlSeconds, created,
                if lock.ttlSeconds > 0 then Some(created + lock.ttlSeconds) else lock.expiresAt,
                None, lock.dispatchId, lock.runId)
  }

  lemma StoredColumns(lock: Lock, freshId: string, created: int)
    ensures GrantOf(lock, freshId, created, Stored(lock, freshId, created))
  {
  }

  // Of the unreleased rows exactly those that expired before the cutoff are released.
  ghost predicate ExpiredReleased(before: seq<Lock>, after: seq<Lock>, cutoff: int, at: int) {
    |after| == |before| && forall i {:trigger after[i]} :: 0 <= i < |before| ==>
      var e := before[i];
      after[i] == if e.releasedAt == None && e.expiresAt.Some? && e.expiresAt.value < cutoff then e.(releasedAt := Some(at)) else e
  }

  lemma SweepReleases(rows: seq<Lock>, cutoff: int, at: int)
    ensures ExpiredReleased(rows, SweptRows(rows, cutoff, at), cutoff, at)
  {
  }

  // One row more; of the others the expired ones are released.
  ghost predicate GrownBy(before: seq<Lock>, after: seq<Lock>, row: Lock, now: int) {
    |after| == |before| + 1 && after[|before|] == row && ExpiredReleased(before, after[..|before|], now, now)
  }

  lemma GrantGrows(rows: seq<Lock>, row: Lock, now: int)
    ensures GrownBy(rows, SweptRows(rows, now, now) + [row], row, now)
  {
    var swept := SweptRows(rows, now, now);
    SweepReleases(rows, now, now);
    assert (swept + [row])[..|rows|] == swept;
  }

  lemma GrantIsStep(rows: seq<Lock>, lock: Lock, freshId: string, created: int, now: int)
    requires created <= now && freshId != "" && Reservable(rows, lock, Stored(lock, freshId, created), now)
    ensures Step(rows, SweptRows(rows, now, now) + [Stored(lock, freshId, created)], now)
  {
    assert Reserved(rows, lock, Stored(lock, freshId, created), SweptRows(rows, now, now) + [Stored(lock, freshId, created)], now);
  }

  lemma SweptBlocksNothing(rows: seq<Lock>, request: Lock, now: int)
    ensures Blocked(rows, request, now) <==> Blocked(SweptRows(rows, now, now), request, now)
  {
    var swept := SweptRows(rows, now, now);
    forall i | 0 <= i < |rows|
      ensures Blocks(rows[i], request, now) <==> Blocks(swept[i], request, now)
    {
      assert swept[i] == Swept(rows[i], now, now);
    }
  }

  lemma TargetsNext(rows: seq<Lock>, id: string, owner: string, scope: string, k: nat)
    requires k < |rows|
    ensures |Targets(rows[..k + 1], id, owner, scope)| ==
            |Targets(rows[..k], id, owner, scope)| + if ReleaseTarget(rows[k], id, owner, scope) then 1 else 0
  {
    var s := Targets(rows[..k], id, owner, scope);
    assert Targets(rows[..k + 1], id, owner, scope) == if ReleaseTarget(rows[k], id, owner, scope) then s + {k} else s;
  }

  lemma HeldNext(rows: seq<Lock>, owner: string, scope: string, now: int, k: nat)
    requires k < |rows|
    ensures |HeldRows(rows[..k + 1], owner, scope, now)| ==
            |HeldRows(rows[..k], owner, scope, now)| + if Held(rows[k], owner, scope, now) then 1 else 0
  {
    var s := HeldRows(rows[..k], owner, scope, now);
    assert HeldRows(rows[..k + 1], owner, scope, now) == if Held(rows[k], owner, scope, now) then s + {k} else s;
  }

  lemma ExpiredNext(rows: seq<Lock>, cutoff: int, k: nat)
    requires k < |rows|
    ensures |ExpiredRows(rows[..k + 1], cutoff)| ==
            |ExpiredRows(rows[..k], cutoff)| + if Expired(rows[k], cutoff) then 1 else 0
  {
    var s := ExpiredRows(rows[..k], cutoff);
    assert ExpiredRows(rows[..k + 1], cutoff) == if Expired(rows[k], cutoff) then s + {k} else s;
  }

  // ---- Steps and runs ----

  ghost predicate Reservable(rows: seq<Lock>, request: Lock, row: Lock, now: int) {
    && Admissible(request.pattern) && !Blocked(rows, request, now)
    && row.kind in KINDS && forall i :: 0 <= i < |rows| ==> rows[i].id != row.id
  }

  ghost predicate ReserveStep(rows: seq<Lock>, after: seq<Lock>, now: int) {
    exists request: Lock, freshId: string, created: int ::
      created <= now && freshId != "" && Reserved(rows, request, Stored(request, freshId, created), after, now)
  }

  ghost predicate Reserved(rows: seq<Lock>, request: Lock, row: Lock, after: seq<Lock>, now: int) {
    Reservable(rows, request, row, now) && after == SweptRows(rows, now, now) + [row]
  }

  // Any set of unreleased rows is released: Release and each part of Sweep.
  ghost predicate ReleaseStep(rows: seq<Lock>, after: seq<Lock>, now: int) {
    |after| == |rows| && forall i :: 0 <= i < |rows| ==>
      after[i] == rows[i] || (rows[i].releasedAt.None? && after[i] == rows[i].(releasedAt := Some(now)))
  }

  ghost predicate TransferStep(rows: seq<Lock>, after: seq<Lock>, now: int) {
    exists from, to, scope :: after == TransferredRows(rows, from, to, scope, now)
  }

  ghost predicate Step(rows: seq<Lock>, after: seq<Lock>, now: int) {
    ReserveStep(rows, after, now) || ReleaseStep(rows, after, now) || TransferStep(rows, after, now)
  }

  lemma StutterStep(rows: seq<Lock>, now: int)
    ensures Step(rows, rows, now)
  {
    assert ReleaseStep(rows, rows, now);
  }

  datatype World = World(rows: seq<Lock>, now: int)

  // Transactions of any clients in commit order, read off a clock that never goes back.
  ghost predicate Run(run: seq<World>) {
    && run != [] && run[0].rows == []
    && forall k :: 0 < k < |run| ==> run[k - 1].now <= run[k].now && Step(run[k - 1].rows, run[k].rows, run[k].now)
  }

  // ---- Safety ----

  ghost predicate Compatible(a: Lock, b: Lock, now: int) {
    Active(a, now) && Active(b, now) && a.scope == b.scope && a.owner != b.owner && Overlap(a.pattern, b.pattern) ==>
      !a.exclusive && !b.exclusive
  }

  ghost predicate Safe(rows: seq<Lock>, now: int) {
    forall i, j :: 0 <= i < j < |rows| ==> Compatible(rows[i], rows[j], now)
  }

  lemma ReserveKeepsSafe(rows: seq<Lock>, after: seq<Lock>, before: int, now: int)
    requires Table(rows) && Safe(rows, before) && before <= now && ReserveStep(rows, after, now)
    ensures Table(after) && Safe(after, now)
  {
    var request: Lock, freshId: string, created: int :|
      created <= now && freshId != "" && Reserved(rows, request, Stored(request, freshId, created), after, now);
    var row := Stored(request, freshId, created);
    var swept := SweptRows(rows, now, now);
    TableKept(rows, swept);
    assert forall i :: 0 <= i < |rows| ==> swept[i].id == rows[i].id;
    InsertKeepsTable(swept, row);
    assert ReleaseStep(rows, swept, now);
    OthersKeepSafe(rows, swept, before, now);
    SweptBlocksNothing(rows, request, now);
    forall i | 0 <= i < |swept|
      ensures Compatible(swept[i], row, now)
    {
      UnblockedIsCompatible(swept[i], request, freshId, created, now);
    }
    InsertKeepsSafe(swept, row, now);
  }

  lemma UnblockedIsCompatible(e: Lock, request: Lock, freshId: string, created: int, now: int)
    requires !Blocks(e, request, now)
    ensures Compatible(e, Stored(request, freshId, created), now)
  {
    OverlapSymmetric(e.pattern, request.pattern);
  }

  lemma InsertKeepsSafe(rows: seq<Lock>, row: Lock, now: int)
    requires Safe(rows, now) && forall i :: 0 <= i < |rows| ==> Compatible(rows[i], row, now)
    ensures Safe(rows + [row], now)
  {
  }

  // Later, and after any releases or any change of owner, nothing new is active.
  lemma OthersKeepSafe(rows: seq<Lock>, after: seq<Lock>, before: int, now: int)
    requires Table(rows) && Safe(rows, before) && before <= now
    requires ReleaseStep(rows, after, now) || TransferStep(rows, after, now)
    ensures Table(after) && Safe(after, now)
  {
    if ReleaseStep(rows, after, now) {
      ReleaseKeepsSafe(rows, after, before, now);
    } else {
      var from, to, scope :| after == TransferredRows(rows, from, to, scope, now);
      TransferKeepsSafe(rows, from, to, scope, before, now);
    }
  }

  lemma ReleaseKeepsSafe(rows: seq<Lock>, after: seq<Lock>, before: int, now: int)
    requires Table(rows) && Safe(rows, before) && before <= now && ReleaseStep(rows, after, now)
    ensures Table(after) && Safe(after, now)
  {
    TableKept(rows, after);
    forall i, j | 0 <= i < j < |after|
      ensures Compatible(after[i], after[j], now)
    {
      assert Compatible(rows[i], rows[j], before);
    }
  }

  lemma TransferKeepsSafe(rows: seq<Lock>, from: string, to: string, scope: string, before: int, now: int)
    requires Table(rows) && Safe(rows, before) && before <= now
    ensures var after := TransferredRows(rows, from, to, scope, now); Table(after) && Safe(after, now)
  {
    var after := TransferredRows(rows, from, to, scope, now);
    TableKept(rows, after);
    forall i, j | 0 <= i < j < |after|
      ensures Compatible(after[i], after[j], now)
    {
      assert Compatible(rows[i], rows[j], before);
      TransferredCompatible(rows[i], rows[j], from, to, scope, before, now);
    }
  }

  // Rows that come to differ in owner did so before: one owner's rows move together.
  lemma TransferredCompatible(a: Lock, b: Lock, from: string, to: string, scope: string, before: int, now: int)
    requires Compatible(a, b, before) && before <= now
    ensures Compatible(Transferred(a, from, to, scope, now), Transferred(b, from, to, scope, now), now)
  {
  }

  lemma {:induction false} ReachableSafe(run: seq<World>, k: nat)
    requires Run(run) && k < |run|
    ensures Table(run[k].rows) && Safe(run[k].rows, run[k].now)
  {
    if k > 0 {
      ReachableSafe(run, k - 1);
      if ReserveStep(run[k - 1].rows, run[k].rows, run[k].now) {
        ReserveKeepsSafe(run[k - 1].rows, run[k].rows, run[k - 1].now, run[k].now);
      } else {
        OthersKeepSafe(run[k - 1].rows, run[k].rows, run[k - 1].now, run[k].now);
      }
    }
  }

  // Whoever else holds an active lock on a path may only share it.
  lemma MutualExclusion(run: seq<World>, k: nat, i: nat, j: nat, path: Text)
    requires Run(run) && k < |run| && i < |run[k].rows| && j < |run[k].rows|
    requires var a, b := run[k].rows[i], run[k].rows[j];
      && Active(a, run[k].now) && Active(b, run[k].now)
      && a.scope == b.scope && a.owner != b.owner
      && PatternMatches(a.pattern, path) && PatternMatches(b.pattern, path)
    ensures !run[k].rows[i].exclusive && !run[k].rows[j].exclusive
  {
    ReachableSafe(run, k);
    var rows := run[k].rows;
    assert Overlap(rows[i].pattern, rows[j].pattern) && Overlap(rows[j].pattern, rows[i].pattern);
    if i < j {
      assert Compatible(rows[i], rows[j], run[k].now);
    } else {
      assert Compatible(rows[j], rows[i], run[k].now);
    }
  }

  // ---- Conservation and staleness ----

  // What no transaction changes in a row; a released row is frozen.
  predicate SameLock(a: Lock, b: Lock) {
    && b == a.(owner := b.owner, releasedAt := b.releasedAt)
    && (a.releasedAt.Some? ==> b == a)
  }

  lemma {:induction false} RowsPersist(run: seq<World>, k: nat, m: nat, i: nat)
    requires Run(run) && k <= m < |run| && i < |run[k].rows|
    ensures i < |run[m].rows| && SameLock(run[k].rows[i], run[m].rows[i])
    ensures run[k].now <= run[m].now
    ensures !Active(run[k].rows[i], run[k].now) ==>
      !Active(run[m].rows[i], run[m].now) && run[m].rows[i].owner == run[k].rows[i].owner
    decreases m
  {
    if k < m {
      RowsPersist(run, k, m - 1, i);
      var rows, after := run[m - 1].rows, run[m].rows;
      assert Step(rows, after, run[m].now);
    }
  }

  // The rows a sweep read at world k may be released at any later world m, between
  // other clients' transactions: by then they block no reservation.
  lemma SweepNeverReleasesABlocker(run: seq<World>, k: nat, m: nat, i: nat, olderThan: int, request: Lock)
    requires Run(run) && k <= m < |run| && i < |run[k].rows|
    requires Expired(run[k].rows[i], if olderThan > 0 then run[k].now - olderThan else run[k].now)
    ensures i < |run[m].rows| && run[m].rows[i].id == run[k].rows[i].id
    ensures !Active(run[m].rows[i], run[m].now) && !Blocks(run[m].rows[i], request, run[m].now)
  {
    RowsPersist(run, k, m, i);
  }

  // A second within the life of a lock granted at `created`.
  predicate Lives(lock: Lock, created: int, now: int) {
    if lock.ttlSeconds > 0 then now < created + lock.ttlSeconds else lock.expiresAt == None || now < lock.expiresAt.value
  }

  // What was granted at world k keeps off exactly the incompatible requests of others, in
  // every later world, until its time to live is over or it is released; a transfer only
  // changes whom it keeps off.
  lemma GrantKeepsOthersOff(run: seq<World>, k: nat, m: nat, lock: Lock, freshId: string, created: int, other: Lock, now: int)
    requires Run(run) && 0 < k <= m < |run| && run[m].now <= now
    requires Reserved(run[k - 1].rows, lock, Stored(lock, freshId, created), run[k].rows, run[k].now)
    ensures |run[k - 1].rows| < |run[m].rows|
    ensures var e := run[m].rows[|run[k - 1].rows|];
      Blocks(e, other, now) <==>
        && e.releasedAt == None && Lives(lock, created, now) && e.owner != other.owner
        && other.scope == lock.scope && (other.exclusive || lock.exclusive) && Overlap(other.pattern, lock.pattern)
  {
    var i := |run[k - 1].rows|;
    assert run[k].rows[i] == Stored(lock, freshId, created);
    RowsPersist(run, k, m, i);
  }

  // So until then another owner's incompatible request is not granted.
  lemma GrantedIsRefusedToOthers(run: seq<World>, k: nat, m: nat, lock: Lock, freshId: string, created: int, other: Lock, row: Lock, now: int)
    requires Run(run) && 0 < k <= m < |run| && run[m].now <= now
    requires Reserved(run[k - 1].rows, lock, Stored(lock, freshId, created), run[k].rows, run[k].now)
    requires var i := |run[k - 1].rows|;
      i < |run[m].rows| ==> run[m].rows[i].releasedAt == None && run[m].rows[i].owner != other.owner
    requires Lives(lock, created, now) && other.scope == lock.scope && (other.exclusive || lock.exclusive)
    requires Overlap(other.pattern, lock.pattern)
    ensures Blocked(run[m].rows, other, now) && !Reservable(run[m].rows, other, row, now)
  {
    GrantKeepsOthersOff(run, k, m, lock, freshId, created, other, now);
  }

  // The kinds of the CHECK constraint.
  lemma ThreeKinds(kind: string)
    ensures kind in KINDS <==> kind == "file_reservation" || kind == "named_lock" || kind == "write_set"
  {
  }

  // A transfer only changes owners of active rows; with no force it joins no two
  // exclusive locks on a common path.
  lemma TransferConserves(rows: seq<Lock>, from: string, to: string, scope: string, now: int)
    ensures var after := TransferredRows(rows, from, to, scope, now);
      && |after| == |rows|
      && forall i :: 0 <= i < |rows| ==>
        && after[i].(owner := rows[i].owner) == rows[i]
        && (after[i] != rows[i] ==> Held(rows[i], from, scope, now) && Held(after[i], to, scope, now))
        && (from != to ==> !Held(after[i], from, scope, now))
    ensures !TransferConflict(rows, from, to, scope, now) ==>
      forall i, j, path | 0 <= i < |rows| && 0 <= j < |rows|
        && Held(rows[i], from, scope, now) && Held(rows[j], to, scope, now)
        && PatternMatches(rows[i].pattern, path) && PatternMatches(rows[j].pattern, path)
        :: !rows[i].exclusive || !rows[j].exclusive
  {
    if !TransferConflict(rows, from, to, scope, now) {
      forall i, j, path | 0 <= i < |rows| && 0 <= j < |rows|
        && Held(rows[i], from, scope, now) && Held(rows[j], to, scope, now)
        && PatternMatches(rows[i].pattern, path) && PatternMatches(rows[j].pattern, path)
        ensures !rows[i].exclusive || !rows[j].exclusive
      {
        assert Overlap(rows[i].pattern, rows[j].pattern);
        assert !JoinConflict(rows[i], rows[j], from, to, scope, now);
      }
    }
  }

  // ---- Check against Reserve ----

  lemma {:induction false} ListingMembers(rows: seq<Lock>, scope: string, pattern: Text, excludeOwner: string, now: int)
    ensures forall l :: l in Listing(rows, scope, pattern, excludeOwner, now) <==>
      l in rows && Listed(l, scope, pattern, excludeOwner, now)
  {
    if rows != [] {
      var front, last := rows[..|rows| - 1], rows[|rows| - 1];
      ListingMembers(front, scope, pattern, excludeOwner, now);
      assert rows == front + [last];
    }
  }

  // Check excluding the requester lists every blocker; empty, it promises no conflict.
  // Listed rows that do not block are exactly the shared ones a shared request may join.
  lemma CheckAgreesWithReserve(rows: seq<Lock>, request: Lock, now: int)
    ensures var listing := Listing(rows, request.scope, request.pattern, request.owner, now);
      && (forall e :: e in rows && Blocks(e, request, now) ==> e in listing)
      && (listing == [] ==> !Blocked(rows, request, now))
      && (forall e :: e in listing && e.owner != request.owner ==>
            (Blocks(e, request, now) <==> request.exclusive || e.exclusive))
  {
    ListingMembers(rows, request.scope, request.pattern, request.owner, now);
    forall i | 0 <= i < |rows|
      ensures Blocks(rows[i], request, now) ==> rows[i] in Listing(rows, request.scope, request.pattern, request.owner, now)
    {
      assert rows[i] in rows;
    }
  }
}
