// Walking the parent links of dispatches: ListRetryChain of internal/dispatch/retry.go.
module DispatchChains {
  import opened Basics
  import opened DispatchModel
  import opened DispatchOutcomes
  import opened DispatchLimits
  import opened DispatchStore

  // What List(scope) selects.
  predicate Listed(rows: seq<Dispatch>, scope: Option<string>, k: nat)
    requires k < |rows|
  {
    scope.Some? ==> rows[k].scope == scope
  }

  predicate Rows(rows: seq<Dispatch>, s: seq<nat>) {
    forall m :: 0 <= m < |s| ==> s[m] < |rows|
  }

  // Each row is the parent of the next one.
  predicate Linked(rows: seq<Dispatch>, s: seq<nat>) {
    Rows(rows, s) && forall m {:trigger Link(rows, s, m)} :: 0 < m < |s| ==> Link(rows, s, m)
  }

  predicate Link(rows: seq<Dispatch>, s: seq<nat>, m: nat)
    requires Rows(rows, s) && 0 < m < |s|
  {
    rows[s[m]].parent == rows[s[m - 1]].id
  }

  // No listed sibling of row c was created before it.
  predicate Eldest(rows: seq<Dispatch>, scope: Option<string>, c: nat) {
    && c < |rows| && Listed(rows, scope, c)
    && forall k :: 0 <= k < |rows| && Listed(rows, scope, k) && rows[k].parent == rows[c].parent ==>
         rows[c].createdAt <= rows[k].createdAt
  }

  predicate StrictlyEldest(rows: seq<Dispatch>, scope: Option<string>, c: nat) {
    && c < |rows| && Listed(rows, scope, c)
    && forall k :: 0 <= k < |rows| && k != c && Listed(rows, scope, k) && rows[k].parent == rows[c].parent ==>
         rows[c].createdAt < rows[k].createdAt
  }

  predicate Childless(rows: seq<Dispatch>, scope: Option<string>, c: nat)
    requires c < |rows|
  {
    forall k :: 0 <= k < |rows| && Listed(rows, scope, k) ==> rows[k].parent != rows[c].id
  }

  // ---- Creation order along links ----

  ghost function Age(t: Tables, k: nat): nat
    requires Forest(t) && k < |t.rows|
  {
    assert BornIn(t.log, t.rows[k]);
    BirthIndex(t.log, t.rows[k].id)
  }

  // A chain of parent links runs forward in creation order, so it repeats nothing.
  lemma {:induction false} LinksRunForward(t: Tables, s: seq<nat>, i: nat, j: nat)
    requires Forest(t) && Linked(t.rows, s) && i < j < |s|
    ensures Age(t, s[i]) < Age(t, s[j])
    ensures t.rows[s[i]].id != t.rows[s[j]].id
  {
    assert Link(t.rows, s, j);
    ChildIsYounger(t, s[j - 1], s[j]);
    if i < j - 1 {
      LinksRunForward(t, s, i, j - 1);
    }
  }

  // Two chains from one root that share a row share everything up to it.
  lemma {:induction false} SharedRow(t: Tables, a: seq<nat>, b: seq<nat>, i: nat, j: nat)
    requires Forest(t) && Linked(t.rows, a) && Linked(t.rows, b) && i < |a| && j < |b|
    requires a[0] == b[0] && a[i] == b[j]
    ensures i == j && a[..i + 1] == b[..j + 1]
  {
    if i == 0 && j > 0 {
      LinksRunForward(t, b, 0, j);
    } else if j == 0 && i > 0 {
      LinksRunForward(t, a, 0, i);
    } else if i > 0 {
      assert Link(t.rows, a, i) && Link(t.rows, b, j);
      UniqueRow(t.rows, a[i - 1], b[j - 1]);
      SharedRow(t, a, b, i - 1, j - 1);
      assert a[..i + 1] == a[..i] + [a[i]] && b[..j + 1] == b[..j] + [b[j]];
    }
  }

  // ---- The walk ----

  // SELECT ... ORDER BY created_at DESC
  method List(s: Store, scope: Option<string>) returns (all: seq<nat>)
    ensures Rows(s.db.rows, all)
    ensures forall m :: 0 <= m < |all| ==> Listed(s.db.rows, scope, all[m])
    ensures forall k :: 0 <= k < |s.db.rows| && Listed(s.db.rows, scope, k) ==> k in all
    ensures NewestFirst(s.db.rows, all)
    ensures forall k: nat :: k in all <==> k < |s.db.rows| && (scope == None || s.db.rows[k].scope == scope)
  {
    var rows := s.db.rows;
    all := [];
    for k := 0 to |rows|
      invariant Rows(rows, all) && NewestFirst(rows, all)
      invariant forall m :: 0 <= m < |all| ==> Listed(rows, scope, all[m])
      invariant forall i :: 0 <= i < k && Listed(rows, scope, i) ==> i in all
    {
      if Listed(rows, scope, k) {
        ghost var was := all;
        all := InsertByTime(rows, all, k);
        assert forall m :: 0 <= m < |all| ==> all[m] in was || all[m] == k;
      }
    }
  }

  method InsertByTime(rows: seq<Dispatch>, all: seq<nat>, k: nat) returns (r: seq<nat>)
    requires k < |rows| && Rows(rows, all) && NewestFirst(rows, all)
    ensures Rows(rows, r) && NewestFirst(rows, r)
    ensures forall x :: x in r <==> x in all || x == k
  {
    var at := PlaceByTime(rows, all, rows[k].createdAt);
    CutByTime(rows, all, at, rows[k].createdAt);
    SplicedInOrder(rows, all[..at], k, all[at..]);
    r := all[..at] + [k] + all[at..];
  }

  // Where a row of this time goes.
  method PlaceByTime(rows: seq<Dispatch>, all: seq<nat>, time: int) returns (at: nat)
    requires Rows(rows, all)
    ensures at <= |all| && Bounded(rows, all[..at], time, true)
    ensures at < |all| ==> rows[all[at]].createdAt < time
  {
    at := 0;
    while at < |all| && rows[all[at]].createdAt >= time
      invariant at <= |all| && Bounded(rows, all[..at], time, true)
    {
      assert all[..at + 1] == all[..at] + [all[at]];
      at := at + 1;
    }
  }

  lemma CutByTime(rows: seq<Dispatch>, all: seq<nat>, at: nat, time: int)
    requires Rows(rows, all) && NewestFirst(rows, all) && at <= |all|
    requires at < |all| ==> rows[all[at]].createdAt < time
    ensures Rows(rows, all[..at]) && NewestFirst(rows, all[..at])
    ensures Rows(rows, all[at..]) && NewestFirst(rows, all[at..]) && Bounded(rows, all[at..], time, false)
    ensures forall x :: x in all <==> x in all[..at] || x in all[at..]
  {
    var older := all[at..];
    assert all == all[..at] + older;
    forall i | 0 <= i < |older|
      ensures rows[older[i]].createdAt <= time
    {
      assert older[i] == all[at + i];
    }
  }

  // Every listed row is no older than this time, or every one is no newer.
  predicate Bounded(rows: seq<Dispatch>, s: seq<nat>, time: int, newer: bool) {
    forall i :: 0 <= i < |s| ==> s[i] < |rows| && if newer then rows[s[i]].createdAt >= time else rows[s[i]].createdAt <= time
  }

  lemma SplicedInOrder(rows: seq<Dispatch>, newer: seq<nat>, k: nat, older: seq<nat>)
    requires k < |rows| && Rows(rows, newer) && Rows(rows, older) && NewestFirst(rows, newer) && NewestFirst(rows, older)
    requires Bounded(rows, newer, rows[k].createdAt, true) && Bounded(rows, older, rows[k].createdAt, false)
    ensures Rows(rows, newer + [k] + older) && NewestFirst(rows, newer + [k] + older)
  {
  }

  predicate NewestFirst(rows: seq<Dispatch>, s: seq<nat>)
    requires Rows(rows, s)
  {
    forall i, j :: 0 <= i < j < |s| ==> rows[s[i]].createdAt >= rows[s[j]].createdAt
  }

  // The child map after these rows were read, newest first.
  predicate Maps(rows: seq<Dispatch>, read: seq<nat>, children: map<string, nat>)
    requires Rows(rows, read)
  {
    && (forall k :: k in read && rows[k].parent != "" ==> rows[k].parent in children)
    && forall p :: p in children ==> p != "" && EldestRead(rows, read, p, children[p])
  }

  predicate EldestRead(rows: seq<Dispatch>, read: seq<nat>, p: string, c: nat)
    requires Rows(rows, read)
  {
    && c in read && rows[c].parent == p
    && forall k :: k in read && rows[k].parent == p ==> rows[c].createdAt <= rows[k].createdAt
  }

  lemma MapsNext(rows: seq<Dispatch>, read: seq<nat>, k: nat, children: map<string, nat>)
    requires Rows(rows, read) && k < |rows| && Maps(rows, read, children)
    requires Bounded(rows, read, rows[k].createdAt, true)
    ensures Maps(rows, read + [k], if rows[k].parent == "" then children else children[rows[k].parent := k])
  {
    var longer := read + [k];
    var after := if rows[k].parent == "" then children else children[rows[k].parent := k];
    forall p | p in after
      ensures p != "" && EldestRead(rows, longer, p, after[p])
    {
      assert p != rows[k].parent ==> EldestRead(rows, read, p, children[p]);
    }
  }

  // The last one listed for a parent is kept, and the list ends with the oldest.
  method ChildMap(s: Store, scope: Option<string>) returns (children: map<string, nat>)
    ensures forall p :: p in children ==>
      Eldest(s.db.rows, scope, children[p]) && s.db.rows[children[p]].parent == p
    ensures forall k :: 0 <= k < |s.db.rows| && Listed(s.db.rows, scope, k) && s.db.rows[k].parent != "" ==>
      s.db.rows[k].parent in children
  {
    var rows := s.db.rows;
    var all := List(s, scope);
    children := map[];
    for m := 0 to |all|
      invariant Maps(rows, all[..m], children)
    {
      var d := rows[all[m]];
      assert Bounded(rows, all[..m], d.createdAt, true);
      MapsNext(rows, all[..m], all[m], children);
      assert all[..m + 1] == all[..m] + [all[m]];
      if d.parent != "" {
        children := children[d.parent := all[m]];
      }
    }
    assert all[..|all|] == all;
    forall p | p in children
      ensures Eldest(rows, scope, children[p]) && rows[children[p]].parent == p
    {
      assert EldestRead(rows, all, p, children[p]);
    }
  }

  // From a dispatch up to the topmost ancestor still retained.
  method ClimbToRoot(s: Store, id: string) returns (up: seq<nat>)
    requires Forest(s.db)
    ensures up == [] <==> id == "" || !Holds(s.db.rows, id)
    ensures Linked(s.db.rows, up)
    ensures up != [] ==> s.db.rows[up[|up| - 1]].id == id && !Holds(s.db.rows, s.db.rows[up[0]].parent)
  {
    var rows := s.db.rows;
    up := [];
    var seen: set<string> := {};
    var current := id;
    var gone := false;
    while !gone && current != "" && current !in seen
      invariant Linked(rows, up)
      invariant up == [] ==> current == id && seen <= (if gone then {id} else {})
      invariant up != [] ==> rows[up[|up| - 1]].id == id && current == rows[up[0]].parent
      invariant !gone ==> Visited(rows, up, seen)
      invariant gone ==> !Holds(rows, current)
      decreases if gone then 0 else if Holds(rows, current) then BirthIndexOf(s.db, current) + 2 else 1
    {
      seen := seen + {current};
      var found := s.FindRow(current);
      if found.None? {
        gone := true;
      } else {
        ghost var was := up;
        ghost var age := Age(s.db, found.value);
        up := [found.value] + up;
        current := rows[found.value].parent;
        Prepend(rows, found.value, was);
        assert up[0] == found.value && (was != [] ==> up[|up| - 1] == was[|was| - 1]);
        if Holds(rows, current) {
          var p :| 0 <= p < |rows| && rows[p].id == current;
          ChildIsYounger(s.db, p, found.value);
        }
      }
    }
    if up != [] && !gone {
      EmptyIsNoRow(s.db);
      if current in seen {
        var m :| 0 <= m < |up| && rows[up[m]].id == current;
        ChildIsYounger(s.db, up[m], up[0]);
        if m > 0 {
          LinksRunForward(s.db, up, 0, m);
        }
      }
    }
  }

  predicate Visited(rows: seq<Dispatch>, s: seq<nat>, seen: set<string>)
    requires Rows(rows, s)
  {
    forall x :: x in seen ==> exists m :: 0 <= m < |s| && rows[s[m]].id == x
  }

  lemma Prepend(rows: seq<Dispatch>, k: nat, s: seq<nat>)
    requires Linked(rows, s) && k < |rows| && (s != [] ==> rows[s[0]].parent == rows[k].id)
    ensures Linked(rows, [k] + s)
    ensures forall seen :: Visited(rows, s, seen) ==> Visited(rows, [k] + s, seen + {rows[k].id})
  {
    var r := [k] + s;
    assert r[0] == k && forall m :: 0 <= m < |s| ==> s[m] == r[m + 1];
    forall m | 0 < m < |r|
      ensures Link(rows, r, m)
    {
      assert m > 1 ==> Link(rows, s, m - 1);
    }
  }

  lemma Extend(rows: seq<Dispatch>, s: seq<nat>, k: nat)
    requires Linked(rows, s) && k < |rows| && s != [] && rows[k].parent == rows[s[|s| - 1]].id
    ensures Linked(rows, s + [k])
  {
    var r := s + [k];
    forall m | 0 < m < |r|
      ensures Link(rows, r, m)
    {
      assert m < |s| ==> Link(rows, s, m);
    }
  }

  ghost function BirthIndexOf(t: Tables, id: string): nat
    requires Forest(t) && Holds(t.rows, id)
  {
    var k: nat :| k < |t.rows| && t.rows[k].id == id;
    Age(t, k)
  }

  lemma EmptyIsNoRow(t: Tables)
    requires Forest(t)
    ensures !Holds(t.rows, "")
  {
    forall k | 0 <= k < |t.rows|
      ensures t.rows[k].id != ""
    {
      assert BornIn(t.log, t.rows[k]);
    }
  }

  // From the root, an oldest listed child at a time, to a row that has none.
  predicate RetryChain(rows: seq<Dispatch>, scope: Option<string>, root: nat, chain: seq<nat>) {
    && chain != [] && chain[0] == root && Linked(rows, chain)
    && (forall m :: 0 < m < |chain| ==> Eldest(rows, scope, chain[m]))
    && Childless(rows, scope, chain[|chain| - 1])
  }

  // The unguarded walk down ends because each child is younger than its parent.
  method FollowChildren(s: Store, root: nat, scope: Option<string>) returns (chain: seq<nat>)
    requires Forest(s.db) && root < |s.db.rows|
    ensures RetryChain(s.db.rows, scope, root, chain)
  {
    var rows := s.db.rows;
    chain := [root];
    var children := ChildMap(s, scope);
    var cur := rows[root].id;
    while cur in children
      invariant |chain| > 0 && chain[0] == root && Linked(rows, chain)
      invariant cur == rows[chain[|chain| - 1]].id
      invariant forall m :: 0 < m < |chain| ==> Eldest(rows, scope, chain[m])
      decreases |s.db.log| - Age(s.db, chain[|chain| - 1])
    {
      var child := children[cur];
      ChildIsYounger(s.db, chain[|chain| - 1], child);
      Extend(rows, chain, child);
      chain := chain + [child];
      cur := rows[child].id;
    }
    EmptyIsNoRow(s.db);
  }

  method ListRetryChain(s: Store, id: string) returns (chain: seq<nat>, ghost up: seq<nat>, ghost scope: Option<string>)
    requires Forest(s.db)
    ensures chain == [] <==> id == "" || !Holds(s.db.rows, id)
    // `up` is the way from the topmost retained ancestor to the dispatch asked for.
    ensures Linked(s.db.rows, up) && (up == [] <==> chain == [])
    ensures chain != [] ==>
      && s.db.rows[up[|up| - 1]].id == id && !Holds(s.db.rows, s.db.rows[up[0]].parent)
      && scope == s.db.rows[up[0]].scope && RetryChain(s.db.rows, scope, up[0], chain)
    ensures Linked(s.db.rows, chain)
    ensures forall i, j :: 0 <= i < j < |chain| ==> s.db.rows[chain[i]].id != s.db.rows[chain[j]].id
    // A dispatch with a retained parent and an older listed sibling is in no chain.
    ensures forall c :: c in chain && Holds(s.db.rows, s.db.rows[c].parent) ==> Eldest(s.db.rows, scope, c)
    // The dispatch asked for is in the chain only if no step of the way has an older sibling.
    ensures chain != [] && up[|up| - 1] in chain ==>
      up <= chain && forall m :: 0 < m < |up| ==> Eldest(s.db.rows, scope, up[m])
    ensures (forall m :: 0 < m < |up| ==> StrictlyEldest(s.db.rows, scope, up[m])) ==> up <= chain
  {
    var path := ClimbToRoot(s, id);
    up, chain, scope := path, [], None;
    if path == [] {
      return;
    }
    scope := s.db.rows[path[0]].scope;
    chain := FollowChildren(s, path[0], s.db.rows[path[0]].scope);
    WayAndChain(s.db, up, chain, scope);
  }

  lemma WayAndChain(t: Tables, up: seq<nat>, chain: seq<nat>, scope: Option<string>)
    requires Forest(t) && Linked(t.rows, up) && Linked(t.rows, chain) && up != [] && chain != [] && up[0] == chain[0]
    requires forall m :: 0 < m < |chain| ==> Eldest(t.rows, scope, chain[m])
    requires Childless(t.rows, scope, chain[|chain| - 1])
    ensures forall i, j :: 0 <= i < j < |chain| ==> t.rows[chain[i]].id != t.rows[chain[j]].id
    ensures up[|up| - 1] in chain ==> up <= chain && forall m :: 0 < m < |up| ==> Eldest(t.rows, scope, up[m])
    ensures (forall m :: 0 < m < |up| ==> StrictlyEldest(t.rows, scope, up[m])) ==> up <= chain
  {
    forall i, j | 0 <= i < j < |chain|
      ensures t.rows[chain[i]].id != t.rows[chain[j]].id
    {
      LinksRunForward(t, chain, i, j);
    }
    if up[|up| - 1] in chain {
      var j :| 0 <= j < |chain| && chain[j] == up[|up| - 1];
      SharedRow(t, up, chain, |up| - 1, j);
      assert up == up[..|up|];
      assert forall m :: 0 <= m < |up| ==> up[m] == chain[..j + 1][m];
    }
    if forall m :: 0 < m < |up| ==> StrictlyEldest(t.rows, scope, up[m]) {
      EldestWay(t, up, chain, scope, |up|);
    }
  }

  lemma {:induction false} EldestWay(t: Tables, up: seq<nat>, chain: seq<nat>, scope: Option<string>, n: nat)
    requires Forest(t) && Linked(t.rows, up) && Linked(t.rows, chain) && 0 < n <= |up| && |chain| > 0 && up[0] == chain[0]
    requires forall m :: 0 < m < |up| ==> StrictlyEldest(t.rows, scope, up[m])
    requires forall m :: 0 < m < |chain| ==> Eldest(t.rows, scope, chain[m])
    requires Childless(t.rows, scope, chain[|chain| - 1])
    ensures n <= |chain| && up[..n] == chain[..n]
  {
    if n == 1 {
      assert up[..1] == [up[0]] && chain[..1] == [chain[0]];
    } else {
      EldestWay(t, up, chain, scope, n - 1);
      assert up[n - 2] == up[..n - 1][n - 2] == chain[..n - 1][n - 2] == chain[n - 2];
      assert StrictlyEldest(t.rows, scope, up[n - 1]);
      assert Link(t.rows, up, n - 1);
      assert Listed(t.rows, scope, up[n - 1]) && t.rows[up[n - 1]].parent != t.rows[chain[|chain| - 1]].id;
      assert Eldest(t.rows, scope, chain[n - 1]);
      assert Link(t.rows, chain, n - 1);
      assert up[n - 1] == chain[n - 1];
      assert up[..n] == up[..n - 1] + [up[n - 1]] && chain[..n] == chain[..n - 1] + [chain[n - 1]];
    }
  }

  // ---- A retry that its own chain misses ----

  const UNLIMITED: Kernel := Kernel(Absent, Absent, map[])

  function Spawn(parent: string, agent: string): Request {
    Request(None, parent, "", false, agent, 0, NO_POLICY)
  }

  // Without scopes and limits any request with its parent at hand is admitted.
  lemma Admits(t: Tables, q: Request, parent: Option<nat>, id: string, now: int)
    requires parent.Some? ==> parent.value < |t.rows| && t.rows[parent.value].id == q.parent && t.rows[parent.value].scope == None
    requires (q.parent == "" <==> parent.None?) && q.scope == None && q.policy == NO_POLICY
    requires id != "" && !Holds(t.rows, id) && !Holds(t.log, id)
    ensures Enabled(t, UNLIMITED, Admit(q, parent, id, now))
  {
  }

  // Admit p, spawn c under it, record that p failed, retry p as r.
  function RetryingOps(p: string, c: string, r: string, agent: string, outcome: Terminal): seq<Op> {
    var root := NewRow(Spawn("", agent), None, p, 10);
    [Admit(Spawn("", agent), None, p, 10),
     Admit(Spawn(p, agent), Some(0), c, 20),
     Op.Terminalize(0, outcome),
     Admit(RetryRequest(root), Some(0), r, 30)]
  }

  function RetryingStates(p: string, c: string, r: string, agent: string, outcome: Terminal): seq<Tables> {
    var root := NewRow(Spawn("", agent), None, p, 10);
    var child := NewRow(Spawn(p, agent), Some(root), c, 20);
    var failed := WithFields(root, outcome.fields).(status := outcome.status);
    var retry := NewRow(RetryRequest(root), Some(failed), r, 30);
    var record := TerminalRecord(root, outcome, 1);
    [EMPTY,
     EMPTY.(rows := [root], log := [root]),
     EMPTY.(rows := [root, child], log := [root, child]),
     Tables([failed, child], map[p := record], [TerminalEvent(root, outcome)], {}, [], [root, child]),
     Tables([failed, child, retry], map[p := record], [TerminalEvent(root, outcome)], {}, [], [root, child, retry])]
  }

  lemma FirstAdmissions(p: string, c: string, r: string, agent: string, outcome: Terminal)
    requires p != "" && c != "" && p != c
    ensures var ops, states := RetryingOps(p, c, r, agent, outcome), RetryingStates(p, c, r, agent, outcome);
      StepAt(UNLIMITED, ops, states, 0) && StepAt(UNLIMITED, ops, states, 1)
  {
    var states := RetryingStates(p, c, r, agent, outcome);
    Admits(states[0], Spawn("", agent), None, p, 10);
    Admits(states[1], Spawn(p, agent), Some(0), c, 20);
  }

  lemma ThenFailsAndIsRetried(p: string, c: string, r: string, agent: string, outcome: Terminal)
    requires p != "" && c != "" && r != "" && p != c && p != r && c != r
    requires ValidTerminal(outcome)
    ensures var ops, states := RetryingOps(p, c, r, agent, outcome), RetryingStates(p, c, r, agent, outcome);
      StepAt(UNLIMITED, ops, states, 2) && StepAt(UNLIMITED, ops, states, 3)
  {
    var states := RetryingStates(p, c, r, agent, outcome);
    var root := NewRow(Spawn("", agent), None, p, 10);
    assert Enabled(states[2], UNLIMITED, Op.Terminalize(0, outcome));
    Admits(states[3], RetryRequest(root), Some(0), r, 30);
  }

  // In the table this run reaches r is a retry of p, and every chain from p is p, c.
  lemma OlderChildHidesRetry(p: string, c: string, r: string, agent: string, outcome: Terminal)
    requires p != "" && c != "" && r != "" && p != c && p != r && c != r
    requires ValidTerminal(outcome) && outcome.status.Failed? && outcome.fields == NO_FIELDS && agent != "flere"
    ensures var ops, states := RetryingOps(p, c, r, agent, outcome), RetryingStates(p, c, r, agent, outcome);
      && Run(UNLIMITED, ops, states)
      && ShouldRetry(states[3].rows[0], 1, false)
      && states[4].rows[2].viaRetry && states[4].rows[2].parent == states[4].rows[0].id
      && forall chain: seq<nat> :: RetryChain(states[4].rows, None, 0, chain) ==> chain == [0, 1]
  {
    FirstAdmissions(p, c, r, agent, outcome);
    ThenFailsAndIsRetried(p, c, r, agent, outcome);
    var rows := RetryingStates(p, c, r, agent, outcome)[4].rows;
    forall chain: seq<nat> | RetryChain(rows, None, 0, chain)
      ensures chain == [0, 1]
    {
      OnlyTheOlderChild(rows, chain);
    }
  }

  // Row 1 is the older of the two children of row 0 and has none itself.
  lemma OnlyTheOlderChild(rows: seq<Dispatch>, chain: seq<nat>)
    requires |rows| == 3 && RetryChain(rows, None, 0, chain)
    requires rows[1].parent == rows[0].id == rows[2].parent && rows[1].createdAt < rows[2].createdAt
    requires rows[0].parent == "" && rows[0].id != "" && rows[1].id != "" && rows[0].id != rows[1].id
    ensures chain == [0, 1]
  {
    assert Listed(rows, None, 1);
    assert !Eldest(rows, None, 2);
    if |chain| > 1 {
      assert Link(rows, chain, 1) && Eldest(rows, None, chain[1]);
      assert chain[1] == 1;
      assert |chain| > 2 ==> Link(rows, chain, 2);
    }
  }
}
