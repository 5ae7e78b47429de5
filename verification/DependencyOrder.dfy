/** GetDependencyOrder of internal/task/task.go: Kahn's algorithm over the names
    of one schema, each with at most one predecessor. */
module DependencyOrder {
  import opened Text
  import opened TaskGraph

  // ---- What the order is about ----

  predicate Within(n: Node, database: string, schema: string) {
    n.database == database && n.schema == schema
  }

  predicate Mentions(n: Node, database: string, schema: string, k: string) {
    Within(n, database, schema) && (n.name == k || (n.predecessor != "" && n.predecessor == k))
  }

  predicate Follower(n: Node, database: string, schema: string, k: string) {
    Within(n, database, schema) && n.name == k && n.predecessor != ""
  }

  /** nodes are the task names of the schema and the names they give as
      predecessor, tasks or not; pred has the predecessor of each that has one. */
  ghost predicate Network(ts: Tasks, database: string, schema: string, nodes: set<string>, pred: map<string, string>) {
    NodesAre(ts, database, schema, nodes) && PredIs(ts, database, schema, pred)
  }

  ghost predicate NodesAre(ts: Tasks, database: string, schema: string, nodes: set<string>) {
    forall k :: k in nodes <==> exists t :: t in ts && Mentions(ts[t], database, schema, k)
  }

  ghost predicate PredIs(ts: Tasks, database: string, schema: string, pred: map<string, string>) {
    && (forall k :: k in pred <==> exists t :: t in ts && Follower(ts[t], database, schema, k))
    && (forall t :: t in ts && Follower(ts[t], database, schema, ts[t].name) ==>
          ts[t].name in pred && pred[ts[t].name] == ts[t].predecessor)
  }

  /** The task names of the schema and the names they give as predecessor. */
  ghost function NodesIn(ts: Tasks, database: string, schema: string): set<string> {
    set t, k | t in ts && k in {ts[t].name, ts[t].predecessor} && Mentions(ts[t], database, schema, k) :: k
  }

  ghost predicate HasPredecessor(ts: Tasks, database: string, schema: string, k: string) {
    exists t :: t in ts && Follower(ts[t], database, schema, k)
  }

  /** The predecessor of each task of the schema that has one. */
  ghost function PredIn(ts: Tasks, database: string, schema: string): map<string, string> {
    map k | k in NodesIn(ts, database, schema) && HasPredecessor(ts, database, schema, k) ::
      var t :| t in ts && Follower(ts[t], database, schema, k); ts[t].predecessor
  }

  lemma NetworkIs(
      ts: Tasks, database: string, schema: string, nodes: set<string>, pred: map<string, string>)
    requires Network(ts, database, schema, nodes, pred)
    ensures nodes == NodesIn(ts, database, schema) && pred == PredIn(ts, database, schema)
  {
    NodesAreIn(ts, database, schema, nodes);
    PredIsIn(ts, database, schema, pred);
  }

  lemma NodesAreIn(ts: Tasks, database: string, schema: string, nodes: set<string>)
    requires NodesAre(ts, database, schema, nodes)
    ensures nodes == NodesIn(ts, database, schema)
  {
    forall k ensures k in nodes <==> k in NodesIn(ts, database, schema) {
      if k in nodes {
        var t :| t in ts && Mentions(ts[t], database, schema, k);
        assert k in {ts[t].name, ts[t].predecessor};
      }
    }
  }

  lemma PredIsIn(ts: Tasks, database: string, schema: string, pred: map<string, string>)
    requires PredIs(ts, database, schema, pred)
    ensures pred == PredIn(ts, database, schema)
  {
    var p := PredIn(ts, database, schema);
    forall k ensures k in pred <==> k in p {
      if k in pred {
        var t :| t in ts && Follower(ts[t], database, schema, k);
        assert k in {ts[t].name, ts[t].predecessor} && Mentions(ts[t], database, schema, k);
      }
    }
    forall k | k in pred ensures pred[k] == p[k] {
      var t :| t in ts && Follower(ts[t], database, schema, k) && p[k] == ts[t].predecessor;
      assert Follower(ts[t], database, schema, ts[t].name);
    }
  }

  /** n predecessors up. */
  function Up(pred: map<string, string>, k: string, n: nat): Option<string>
    decreases n
  {
    if n == 0 then Some(k) else if k in pred then Up(pred, pred[k], n - 1) else None
  }

  /** Going up from k ends. */
  ghost predicate Rooted(pred: map<string, string>, k: string) {
    exists n: nat :: Up(pred, k, n) == None
  }

  ghost predicate OnCycle(pred: map<string, string>, c: string) {
    exists n: nat :: n > 0 && Up(pred, c, n) == Some(c)
  }

  /** k is on a cycle or downstream of one. */
  ghost predicate BelowCycle(pred: map<string, string>, k: string) {
    exists n: nat :: Up(pred, k, n).Some? && OnCycle(pred, Up(pred, k, n).value)
  }

  lemma {:induction false} UpTwice(pred: map<string, string>, k: string, m: nat, n: nat)
    requires Up(pred, k, m).Some?
    ensures Up(pred, k, m + n) == Up(pred, Up(pred, k, m).value, n)
    decreases m
  {
    if m > 0 { UpTwice(pred, pred[k], m - 1, n); }
  }

  lemma UpStays(pred: map<string, string>, k: string, m: nat, n: nat)
    requires m <= n && Up(pred, k, n).Some?
    ensures Up(pred, k, m).Some?
    decreases m
  {
    if m > 0 { UpStays(pred, pred[k], m - 1, n - 1); }
  }

  lemma {:induction false} CycleForever(pred: map<string, string>, c: string, n: nat, m: nat)
    requires n > 0 && Up(pred, c, n) == Some(c)
    ensures Up(pred, c, m).Some?
    decreases m
  {
    if m <= n {
      UpStays(pred, c, m, n);
    } else {
      CycleForever(pred, c, n, m - n);
      UpTwice(pred, c, n, m - n);
    }
  }

  /** Going up ends exactly if it never meets a cycle. */
  lemma RootedIffNoCycle(pred: map<string, string>, k: string)
    ensures Rooted(pred, k) <==> !BelowCycle(pred, k)
  {
    if BelowCycle(pred, k) {
      var m: nat :| Up(pred, k, m).Some? && OnCycle(pred, Up(pred, k, m).value);
      var c := Up(pred, k, m).value;
      var n: nat :| n > 0 && Up(pred, c, n) == Some(c);
      forall j: nat ensures Up(pred, k, j).Some? {
        CycleForever(pred, c, n, j);
        UpTwice(pred, k, m, j);
        UpStays(pred, k, j, m + j);
      }
    } else if !Rooted(pred, k) {
      EndlessMeetsCycle(pred, k);
    }
  }

  lemma EndlessMeetsCycle(pred: map<string, string>, k: string)
    requires !Rooted(pred, k)
    ensures BelowCycle(pred, k)
  {
    var path := seq(|pred| + 1, (n: nat) requires n <= |pred| => Up(pred, k, n).value);
    forall n | 0 <= n < |path| ensures path[n] in pred.Keys {
      assert Up(pred, k, n + 1) != None;
      UpTwice(pred, k, n, 1);
    }
    var i, j := Repeated(path, pred.Keys);
    UpTwice(pred, k, i, j - i);
    assert OnCycle(pred, path[i]);
  }

  /** More entries than values: one value is repeated. */
  lemma {:induction false} Repeated(s: seq<string>, values: set<string>) returns (i: nat, j: nat)
    requires |s| > |values| && forall n :: 0 <= n < |s| ==> s[n] in values
    ensures i < j < |s| && s[i] == s[j]
    decreases |s|
  {
    var last := |s| - 1;
    if n :| 0 <= n < last && s[n] == s[last] {
      return n, last;
    }
    assert s[last] in values;
    i, j := Repeated(s[..last], values - {s[last]});
  }

  // ---- Building the graph ----

  /** The two maps describe the graph. */
  ghost predicate Wired(
      adj: map<string, seq<string>>, inDegree: map<string, int>, nodes: set<string>, pred: map<string, string>) {
    && inDegree.Keys == nodes && pred.Keys <= nodes
    && (forall k :: k in pred ==> pred[k] in nodes && pred[k] in adj)
    && (forall k :: k in nodes ==> inDegree[k] == if k in pred then 1 else 0)
    && (forall p :: p in adj ==> Distinct(adj[p]) && forall k :: k in adj[p] <==> k in pred && pred[k] == p)
  }

  /** One task's turn in the building loop. */
  method AddTask(
      adj: map<string, seq<string>>, inDegree: map<string, int>, name: string, predecessor: string,
      ghost nodes: set<string>, ghost pred: map<string, string>)
      returns (adj': map<string, seq<string>>, inDegree': map<string, int>)
    requires Wired(adj, inDegree, nodes, pred) && name !in pred
    ensures predecessor == "" ==> Wired(adj', inDegree', nodes + {name}, pred)
    ensures predecessor != "" ==> Wired(adj', inDegree', nodes + {name} + {predecessor}, pred[name := predecessor])
  {
    adj', inDegree' := adj, inDegree;
    if name !in inDegree' { inDegree' := inDegree'[name := 0]; }
    if predecessor != "" {
      var list := if predecessor in adj' then adj'[predecessor] else [];
      adj' := adj'[predecessor := list + [name]];
      inDegree' := inDegree'[name := inDegree'[name] + 1];
      if predecessor !in inDegree' { inDegree' := inDegree'[predecessor := 0]; }
      EdgeAdded(adj, inDegree, name, predecessor, nodes, pred, adj', inDegree',
                nodes + {name} + {predecessor}, pred[name := predecessor], list);
    }
  }

  lemma EdgeAdded(
      adj: map<string, seq<string>>, inDegree: map<string, int>, name: string, predecessor: string,
      nodes: set<string>, pred: map<string, string>, adj': map<string, seq<string>>, inDegree': map<string, int>,
      nodes': set<string>, pred': map<string, string>, list: seq<string>)
    requires Wired(adj, inDegree, nodes, pred) && name !in pred
    requires list == if predecessor in adj then adj[predecessor] else []
    requires adj' == adj[predecessor := list + [name]]
    requires inDegree'.Keys == nodes' && name in inDegree' && inDegree'[name] == 1
    requires forall k :: k in inDegree' && k != name ==> inDegree'[k] == if k in nodes then inDegree[k] else 0
    requires nodes' == nodes + {name} + {predecessor} && pred' == pred[name := predecessor]
    ensures Wired(adj', inDegree', nodes', pred')
  {
    assert forall k :: k in list <==> k in pred && pred[k] == predecessor;
    forall p | p in adj' ensures Distinct(adj'[p]) && forall k :: k in adj'[p] <==> k in pred' && pred'[k] == p {
      if p != predecessor { assert adj'[p] == adj[p]; }
    }
  }

  /** The graph with one more task. */
  lemma NetworkGrows(
      ts: Tasks, t: string, n: Node, database: string, schema: string, nodes: set<string>, pred: map<string, string>,
      nodes': set<string>, pred': map<string, string>)
    requires Network(ts, database, schema, nodes, pred) && t !in ts
    requires Within(n, database, schema) ==> n.name !in pred
    requires nodes' ==
      if !Within(n, database, schema) then nodes
      else nodes + {n.name} + if n.predecessor == "" then {} else {n.predecessor}
    requires pred' ==
      if Within(n, database, schema) && n.predecessor != "" then pred[n.name := n.predecessor] else pred
    ensures Network(ts[t := n], database, schema, nodes', pred')
  {
    var ts' := ts[t := n];
    forall k
      ensures k in nodes' <==> k in nodes || Mentions(n, database, schema, k)
      ensures k in pred' <==> k in pred || Follower(n, database, schema, k)
    {
    }
    NodesGrow(ts, t, n, ts', database, schema, nodes, nodes');
    PredGrows(ts, t, n, ts', database, schema, pred, pred');
  }

  lemma NodesGrow(
      ts: Tasks, t: string, n: Node, ts': Tasks, database: string, schema: string, nodes: set<string>,
      nodes': set<string>)
    requires NodesAre(ts, database, schema, nodes) && t !in ts && ts' == ts[t := n]
    requires forall k :: k in nodes' <==> k in nodes || Mentions(n, database, schema, k)
    ensures NodesAre(ts', database, schema, nodes')
  {
    forall k ensures k in nodes' <==> exists u :: u in ts' && Mentions(ts'[u], database, schema, k) {
      MentionsGrow(ts, t, n, ts', database, schema, k);
    }
  }

  lemma PredGrows(
      ts: Tasks, t: string, n: Node, ts': Tasks, database: string, schema: string, pred: map<string, string>,
      pred': map<string, string>)
    requires PredIs(ts, database, schema, pred) && t !in ts && ts' == ts[t := n]
    requires Within(n, database, schema) ==> n.name !in pred
    requires pred' ==
      if Within(n, database, schema) && n.predecessor != "" then pred[n.name := n.predecessor] else pred
    ensures PredIs(ts', database, schema, pred')
  {
    forall k ensures k in pred' <==> exists u :: u in ts' && Follower(ts'[u], database, schema, k) {
      FollowersGrow(ts, t, n, ts', database, schema, k);
    }
    forall u | u in ts' && Follower(ts'[u], database, schema, ts'[u].name)
      ensures ts'[u].name in pred' && pred'[ts'[u].name] == ts'[u].predecessor
    {
      if u != t { assert ts'[u] == ts[u]; }
    }
  }

  lemma MentionsGrow(ts: Tasks, t: string, n: Node, ts': Tasks, database: string, schema: string, k: string)
    requires t !in ts && ts' == ts[t := n]
    ensures (exists u :: u in ts' && Mentions(ts'[u], database, schema, k)) <==>
      Mentions(n, database, schema, k) || exists u :: u in ts && Mentions(ts[u], database, schema, k)
  {
    assert ts'[t] == n;
    forall u | u in ts ensures ts'[u] == ts[u] { }
  }

  lemma FollowersGrow(ts: Tasks, t: string, n: Node, ts': Tasks, database: string, schema: string, k: string)
    requires t !in ts && ts' == ts[t := n]
    ensures (exists u :: u in ts' && Follower(ts'[u], database, schema, k)) <==>
      Follower(n, database, schema, k) || exists u :: u in ts && Follower(ts[u], database, schema, k)
  {
    assert ts'[t] == n;
    forall u | u in ts ensures ts'[u] == ts[u] { }
  }

  /** Names are used once: a task not yet added has no predecessor yet. */
  lemma NotYet(
      ts: Tasks, sub: Tasks, t: string, database: string, schema: string, nodes: set<string>, pred: map<string, string>)
    requires Wellnamed(ts) && t in ts && t !in sub && Within(ts[t], database, schema)
    requires forall u :: u in sub ==> u in ts && sub[u] == ts[u]
    requires Network(sub, database, schema, nodes, pred)
    ensures ts[t].name !in pred
  {
    forall u | u in sub ensures !Follower(sub[u], database, schema, ts[t].name) {
      assert u != t && (SamePlace(ts[u], ts[t]) ==> ts[u].name != ts[t].name);
    }
  }

  /** Halfway through building the graph: sub has been added. */
  ghost predicate Building(
      ts: Tasks, sub: Tasks, database: string, schema: string,
      adj: map<string, seq<string>>, inDegree: map<string, int>, nodes: set<string>, pred: map<string, string>) {
    && Wellnamed(ts) && (forall u :: u in sub ==> u in ts && sub[u] == ts[u])
    && Network(sub, database, schema, nodes, pred) && Wired(adj, inDegree, nodes, pred)
  }

  lemma Built(
      ts: Tasks, sub: Tasks, database: string, schema: string,
      adj: map<string, seq<string>>, inDegree: map<string, int>, nodes: set<string>, pred: map<string, string>)
    requires Building(ts, sub, database, schema, adj, inDegree, nodes, pred)
    requires forall u :: u in ts ==> u in sub
    ensures Network(ts, database, schema, nodes, pred) && Wired(adj, inDegree, nodes, pred)
  {
    assert sub == ts;
  }

  // ---- Kahn's algorithm ----

  /** done have been put in order, all has also those waiting in the queue: exactly
      the nodes whose predecessor, if any, is done have in-degree zero and are in
      all, behind their predecessor. */
  ghost predicate Sound(
      inDegree: map<string, int>, all: seq<string>, done: seq<string>, nodes: set<string>, pred: map<string, string>) {
    && inDegree.Keys == nodes
    && (forall k :: k in nodes ==> inDegree[k] == if k in pred && pred[k] !in done then 1 else 0)
    && (forall k :: k in all <==> k in nodes && inDegree[k] == 0)
    && Distinct(all)
    && (forall i :: 0 <= i < |all| && all[i] in pred ==> pred[all[i]] in all[..i])
  }

  /** Halfway through the successors of curr, where those in rest are to come. */
  ghost predicate SoundBut(
      inDegree: map<string, int>, all: seq<string>, done: seq<string>, curr: string, rest: seq<string>,
      nodes: set<string>, pred: map<string, string>) {
    && inDegree.Keys == nodes
    && (forall k :: k in nodes ==>
          inDegree[k] == if k in pred && (pred[k] !in done || k in rest) then 1 else 0)
    && (forall k :: k in all <==> k in nodes && inDegree[k] == 0)
    && Distinct(all)
    && (forall i :: 0 <= i < |all| && all[i] in pred ==> pred[all[i]] in all[..i])
  }

  /** The inner loop: every successor of the task just ordered loses its only
      incoming edge and joins the queue. */
  method Release(
      list: seq<string>, inDegree: map<string, int>, queue: seq<string>, curr: string,
      ghost done: seq<string>, ghost nodes: set<string>, ghost pred: map<string, string>)
      returns (inDegree': map<string, int>, queue': seq<string>)
    requires Distinct(list) && (forall k :: k in list <==> k in pred && pred[k] == curr)
    requires pred.Keys <= nodes && done != [] && done[|done| - 1] == curr
    requires SoundBut(inDegree, done + queue, done, curr, list, nodes, pred)
    ensures Sound(inDegree', done + queue', done, nodes, pred)
  {
    inDegree', queue' := inDegree, queue;
    for i := 0 to |list|
      invariant SoundBut(inDegree', done + queue', done, curr, list[i..], nodes, pred)
    {
      var succ := list[i];
      assert list[i..] == [succ] + list[i + 1..] && succ in list;
      assert succ !in list[i + 1..];
      inDegree' := inDegree'[succ := inDegree'[succ] - 1];
      assert inDegree'[succ] == 0;
      assert done + (queue' + [succ]) == (done + queue') + [succ];
      ghost var all := done + queue';
      if inDegree'[succ] == 0 { queue' := queue' + [succ]; }
      assert forall k :: 0 <= k <= |all| ==> (all + [succ])[..k] == all[..k];
      assert curr in all;
    }
  }

  lemma {:induction false} RootedIsOrdered(
      inDegree: map<string, int>, done: seq<string>, nodes: set<string>, pred: map<string, string>, k: string, n: nat)
    requires Sound(inDegree, done, done, nodes, pred) && k in nodes && Up(pred, k, n) == None
    requires forall j :: j in pred ==> pred[j] in nodes
    ensures k in done
    decreases n
  {
    if k in pred { RootedIsOrdered(inDegree, done, nodes, pred, pred[k], n - 1); }
  }

  lemma {:induction false} OrderedIsRooted(order: seq<string>, pred: map<string, string>, i: nat) returns (n: nat)
    requires i < |order| && forall j :: 0 <= j < |order| && order[j] in pred ==> pred[order[j]] in order[..j]
    ensures Up(pred, order[i], n) == None
  {
    if order[i] in pred {
      var j :| 0 <= j < i && order[j] == pred[order[i]];
      var m := OrderedIsRooted(order, pred, j);
      n := m + 1;
    } else {
      n := 1;
    }
  }

  /** An order without repetition, each name behind its predecessor, of exactly
      the nodes that are neither on a cycle nor downstream of one. */
  ghost predicate Ordered(order: seq<string>, nodes: set<string>, pred: map<string, string>) {
    && Distinct(order)
    && (forall i :: 0 <= i < |order| && order[i] in pred ==> pred[order[i]] in order[..i])
    && (forall k :: k in order <==> k in nodes && !BelowCycle(pred, k))
  }

  /** The orders of the tasks of a schema. */
  ghost function OrdersOf(ts: Tasks, database: string, schema: string): iset<seq<string>> {
    iset order: seq<string> | Ordered(order, NodesIn(ts, database, schema), PredIn(ts, database, schema))
  }

  lemma KahnOrders(
      ts: Tasks, database: string, schema: string, nodes: set<string>, pred: map<string, string>, order: seq<string>)
    requires Network(ts, database, schema, nodes, pred) && Ordered(order, nodes, pred)
    ensures order in OrdersOf(ts, database, schema)
  {
    NetworkIs(ts, database, schema, nodes, pred);
  }

  lemma OrderComplete(
      inDegree: map<string, int>, order: seq<string>, nodes: set<string>, pred: map<string, string>)
    requires Sound(inDegree, order, order, nodes, pred)
    requires forall j :: j in pred ==> pred[j] in nodes
    ensures Ordered(order, nodes, pred)
  {
    forall k | k in nodes ensures k in order <==> !BelowCycle(pred, k) {
      RootedIffNoCycle(pred, k);
      if k in order {
        var i :| 0 <= i < |order| && order[i] == k;
        var n := OrderedIsRooted(order, pred, i);
      } else if Rooted(pred, k) {
        var n: nat :| Up(pred, k, n) == None;
        RootedIsOrdered(inDegree, order, nodes, pred, k, n);
      }
    }
  }

  /** The order is never longer than the node set. */
  lemma {:induction false} DistinctFits(s: seq<string>, nodes: set<string>)
    requires Distinct(s) && forall k :: k in s ==> k in nodes
    ensures |s| <= |nodes|
  {
    if s != [] {
      var last := s[|s| - 1];
      forall k | k in s[..|s| - 1] ensures k in nodes - {last} { }
      DistinctFits(s[..|s| - 1], nodes - {last});
    }
  }

  /** The main loop. */
  method Kahn(
      adj: map<string, seq<string>>, inDegree0: map<string, int>,
      ghost nodes: set<string>, ghost pred: map<string, string>)
      returns (order: seq<string>)
    requires Wired(adj, inDegree0, nodes, pred)
    ensures Ordered(order, nodes, pred)
  {
    var inDegree := inDegree0;
    var queue := Sources(inDegree, nodes, pred);
    order := [];
    while queue != []
      invariant Sound(inDegree, order + queue, order, nodes, pred)
      decreases |nodes| - |order|
    {
      DistinctFits(order + queue, nodes);
      var curr := queue[0];
      ghost var all := order + queue;
      queue := queue[1..];
      ghost var before := order;
      order := order + [curr];
      assert order + queue == all;
      assert curr !in before by {
        assert all[|before|] == curr;
        assert forall j :: 0 <= j < |before| ==> all[j] == before[j];
      }
      var successors := if curr in adj then adj[curr] else [];
      Taken(inDegree, all, before, curr, successors, nodes, pred);
      inDegree, queue := Release(successors, inDegree, queue, curr, order, nodes, pred);
    }
    assert order + queue == order;
    OrderComplete(inDegree, order, nodes, pred);
  }

  /** Kahn's loop on the graph of a schema. */
  method Ordering(
      adj: map<string, seq<string>>, inDegree: map<string, int>, ghost ts: Tasks, ghost database: string,
      ghost schema: string, ghost nodes: set<string>, ghost pred: map<string, string>)
      returns (order: seq<string>)
    requires Network(ts, database, schema, nodes, pred) && Wired(adj, inDegree, nodes, pred)
    ensures order in OrdersOf(ts, database, schema)
  {
    order := Kahn(adj, inDegree, nodes, pred);
    KahnOrders(ts, database, schema, nodes, pred, order);
  }

  /** Taking a task off the queue leaves its successors to be released. */
  lemma Taken(
      inDegree: map<string, int>, all: seq<string>, before: seq<string>, curr: string, successors: seq<string>,
      nodes: set<string>, pred: map<string, string>)
    requires Sound(inDegree, all, before, nodes, pred) && curr !in before
    requires forall k :: k in successors <==> k in pred && pred[k] == curr
    ensures SoundBut(inDegree, all, before + [curr], curr, successors, nodes, pred)
  {
  }

  /** The initial queue, in whatever order the map yields it. */
  method Sources(inDegree: map<string, int>, ghost nodes: set<string>, ghost pred: map<string, string>)
      returns (queue: seq<string>)
    requires inDegree.Keys == nodes && forall k :: k in nodes ==> inDegree[k] == if k in pred then 1 else 0
    ensures Sound(inDegree, [] + queue, [], nodes, pred)
  {
    queue := [];
    var todo := inDegree.Keys;
    while todo != {}
      invariant todo <= nodes && SourcesOf(inDegree, queue, nodes - todo)
      decreases todo
    {
      var k :| k in todo;
      ghost var seen := nodes - todo;
      todo := todo - {k};
      SourcesNext(inDegree, queue, seen, k);
      assert nodes - todo == seen + {k};
      if inDegree[k] == 0 { queue := queue + [k]; }
    }
    assert nodes - todo == nodes;
    SourcesSound(inDegree, queue, nodes, pred);
  }

  /** queue has the nodes without incoming edge among those seen. */
  ghost predicate SourcesOf(inDegree: map<string, int>, queue: seq<string>, seen: set<string>) {
    && seen <= inDegree.Keys && Distinct(queue)
    && forall k :: k in queue <==> k in seen && inDegree[k] == 0
  }

  lemma SourcesNext(inDegree: map<string, int>, queue: seq<string>, seen: set<string>, k: string)
    requires SourcesOf(inDegree, queue, seen) && k in inDegree && k !in seen
    ensures SourcesOf(inDegree, if inDegree[k] == 0 then queue + [k] else queue, seen + {k})
  {
  }

  lemma SourcesSound(
      inDegree: map<string, int>, queue: seq<string>, nodes: set<string>, pred: map<string, string>)
    requires inDegree.Keys == nodes && forall k :: k in nodes ==> inDegree[k] == if k in pred then 1 else 0
    requires SourcesOf(inDegree, queue, nodes)
    ensures Sound(inDegree, [] + queue, [], nodes, pred)
  {
    assert [] + queue == queue;
    assert forall i :: 0 <= i < |queue| ==> queue[i] in queue;
  }
}
