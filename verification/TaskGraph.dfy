/** The tree a run of the task scheduler walks: tasks with at most one
    predecessor each, and what a walk from the roots has done so far. */
module TaskGraph {
  /** Names are folded to lower case, as all comparisons of names are. */
  datatype Node = Node(
    database: string, schema: string, name: string, predecessor: string, schedule: string, started: bool, when: When)

  /** A WHEN condition, and the place that it names streams in; as they were spelled. */
  datatype When = When(condition: string, database: string, schema: string)

  /** Tasks by key. */
  type Tasks = map<string, Node>

  predicate SamePlace(a: Node, b: Node) {
    a.database == b.database && a.schema == b.schema
  }

  /** c is a started task that runs after p. */
  predicate Follows(ts: Tasks, p: string, c: string) {
    && p in ts && c in ts && ts[c].started
    && SamePlace(ts[p], ts[c]) && ts[c].predecessor == ts[p].name
  }

  /** Names are not empty, and within one schema they differ. */
  predicate Wellnamed(ts: Tasks) {
    && (forall k :: k in ts ==> ts[k].name != "")
    && forall j, k :: j in ts && k in ts && SamePlace(ts[j], ts[k]) && ts[j].name == ts[k].name ==> j == k
  }

  lemma OnePredecessor(ts: Tasks, p: string, q: string, c: string)
    requires Wellnamed(ts) && Follows(ts, p, c) && Follows(ts, q, c)
    ensures p == q
  {
    assert SamePlace(ts[p], ts[q]);
  }

  predicate Roots(ts: Tasks, roots: set<string>) {
    forall r :: r in roots ==> r in ts && ts[r].predecessor == ""
  }

  lemma RootFollowsNone(ts: Tasks, p: string, r: string)
    requires Wellnamed(ts) && p in ts && r in ts && ts[r].predecessor == ""
    ensures !Follows(ts, p, r)
  {
  }

  /** A root with an empty name would come after itself, so that a walk over its
      successors would not end; this is why names are not empty. */
  lemma UnnamedFollowsItself(ts: Tasks, r: string)
    requires r in ts && ts[r].started && ts[r].predecessor == ""
    ensures Follows(ts, r, r) <==> ts[r].name == ""
  {
  }

  /** A look at a WHEN condition: its outcome, and its number among all looks. */
  datatype Look = Look(ok: bool, at: nat)

  /** The looks so far, by task, the tasks run so far, and the number of the first look. */
  datatype Walk = Walk(seen: map<string, Look>, run: seq<string>, from: nat)

  /** A task not at a root was looked at because its predecessor had run. */
  ghost predicate Caused(ts: Tasks, roots: set<string>, run: seq<string>, k: string) {
    k in roots || exists p :: p in run && Follows(ts, p, k)
  }

  /** Exactly the tasks seen with outcome true have run, each once, and each
      after the task that led to it. */
  ghost predicate Grounded(ts: Tasks, roots: set<string>, w: Walk) {
    && w.seen.Keys <= ts.Keys
    && (forall k :: k in w.seen ==> Caused(ts, roots, w.run, k))
    && (forall k :: k in w.run <==> k in w.seen && w.seen[k].ok)
    && (forall i, j :: 0 <= i < j < |w.run| ==> w.run[i] != w.run[j])
    && (forall i :: 0 <= i < |w.run| ==> Caused(ts, roots, w.run[..i], w.run[i]))
  }

  /** The outcome of one more task, which runs if it is true. */
  function Seen(w: Walk, k: string, look: Look): Walk {
    Walk(w.seen[k := look], if look.ok then w.run + [k] else w.run, w.from)
  }

  lemma SeenGrounded(ts: Tasks, roots: set<string>, w: Walk, k: string, look: Look)
    requires Grounded(ts, roots, w) && k in ts && k !in w.seen && Caused(ts, roots, w.run, k)
    ensures Grounded(ts, roots, Seen(w, k, look))
  {
    var v := Seen(w, k, look);
    forall j | j in v.seen ensures Caused(ts, roots, v.run, j) {
      assert Caused(ts, roots, w.run, j);
    }
    forall i | 0 <= i < |v.run| ensures Caused(ts, roots, v.run[..i], v.run[i]) {
      assert v.run[..i] == w.run[..i];
      assert w.run[..|w.run|] == w.run;
    }
  }

  /** Look n was at some task. */
  ghost predicate Spent(w: Walk, n: nat) {
    exists k :: k in w.seen && w.seen[k].at == n
  }

  /** Every outcome is what its condition says, and the looks up to this number were
      at these tasks, one each. */
  ghost predicate Truthful(ts: Tasks, w: Walk, told: (When, nat) -> bool, upto: nat) {
    && w.from <= upto
    && (forall k :: k in w.seen && k in ts ==> w.seen[k].ok == told(ts[k].when, w.seen[k].at))
    && (forall k :: k in w.seen ==> w.from <= w.seen[k].at < upto)
    && (forall j, k :: j in w.seen && k in w.seen && w.seen[j].at == w.seen[k].at ==> j == k)
    && (forall n: nat :: w.from <= n < upto ==> Spent(w, n))
  }

  lemma SeenTruthful(ts: Tasks, w: Walk, k: string, look: Look, told: (When, nat) -> bool, upto: nat, next: nat)
    requires Truthful(ts, w, told, upto) && k in ts && k !in w.seen
    requires look.at == upto && look.ok == told(ts[k].when, upto) && next == upto + 1
    ensures Truthful(ts, Seen(w, k, look), told, next)
  {
    var v := Seen(w, k, look);
    forall n: nat | w.from <= n < next ensures Spent(v, n) {
      if n == upto {
        assert k in v.seen;
      } else {
        assert Spent(w, n);
        var j :| j in w.seen && w.seen[j].at == n;
        assert j in v.seen;
      }
    }
  }

  /** w' continues w. */
  predicate Extends(w: Walk, w': Walk) {
    && w.run <= w'.run && w'.from == w.from
    && forall k :: k in w.seen ==> k in w'.seen && w'.seen[k] == w.seen[k]
  }

  /** Every successor of p has been looked at. */
  ghost predicate Finished(ts: Tasks, w: Walk, p: string) {
    forall s :: Follows(ts, p, s) ==> s in w.seen
  }

  /** No successor of p has been looked at. */
  ghost predicate Untouched(ts: Tasks, w: Walk, p: string) {
    forall s :: Follows(ts, p, s) ==> s !in w.seen
  }

  /** The successors of a task that has not run are untouched. */
  lemma UntouchedBelow(ts: Tasks, roots: set<string>, w: Walk, k: string)
    requires Wellnamed(ts) && Roots(ts, roots) && Grounded(ts, roots, w) && k in ts && k !in w.run
    ensures Untouched(ts, w, k)
  {
    forall s | Follows(ts, k, s) ensures s !in w.seen {
      if s in w.seen {
        assert Caused(ts, roots, w.run, s);
        if s in roots {
          RootFollowsNone(ts, k, s);
        } else {
          var p :| p in w.run && Follows(ts, p, s);
          OnePredecessor(ts, p, k, s);
        }
      }
    }
  }

  /** From w to w' only what lies below p was looked at, and completely. */
  ghost predicate Swept(ts: Tasks, w: Walk, w': Walk, p: string) {
    && Extends(w, w')
    && Finished(ts, w', p)
    && Swept'(ts, w, w', p)
  }

  ghost predicate Swept'(ts: Tasks, w: Walk, w': Walk, p: string) {
    && (forall k :: k in w'.run && k !in w.run ==> Finished(ts, w', k))
    && (forall k :: k in w'.seen && k !in w.seen ==>
          exists q :: Follows(ts, q, k) && (q == p || (q in w'.run && q !in w.run)))
  }

  /** Nothing that runs after p was touched by sweeping below another task. */
  lemma SiblingUntouched(ts: Tasks, w: Walk, w': Walk, s: string, p: string, t: string)
    requires Wellnamed(ts) && Swept'(ts, w, w', s) && p in w.run && p != s
    requires Follows(ts, p, t) && t !in w.seen
    ensures t !in w'.seen
  {
    if t in w'.seen {
      var q :| Follows(ts, q, t) && (q == s || (q in w'.run && q !in w.run));
      OnePredecessor(ts, p, q, t);
    }
  }

  /** One successor s of p, looked at and swept below if it ran. */
  lemma SweptStep(ts: Tasks, w: Walk, v: Walk, s: string, look: Look, v': Walk, p: string)
    requires Extends(w, v) && Swept'(ts, w, v, p) && Follows(ts, p, s) && s !in v.seen
    requires if look.ok then Swept(ts, Seen(v, s, look), v', s) else v' == Seen(v, s, look)
    requires forall k :: k in v.run ==> k in v.seen
    ensures Extends(w, v') && Swept'(ts, w, v', p) && s in v'.seen && Extends(v, v')
  {
    var u := Seen(v, s, look);
    assert Extends(v, u) && Extends(u, v');
    forall k | k in v'.run && k !in w.run ensures Finished(ts, v', k) {
      if k in v.run { assert Finished(ts, v, k); }
    }
    forall k | k in v'.seen && k !in w.seen
      ensures exists q :: Follows(ts, q, k) && (q == p || (q in v'.run && q !in w.run))
    {
      if k == s {
      } else if k in v.seen {
        var q :| Follows(ts, q, k) && (q == p || (q in v.run && q !in w.run));
        assert q in v.run ==> q in v'.run;
      } else {
        var q :| Follows(ts, q, k) && (q == s || (q in v'.run && q !in u.run));
        if q == s { assert s in u.run && s in v'.run; }
        assert q !in w.run;
      }
    }
  }

  /** After i of the successors of p: these have been looked at, the others not. */
  ghost predicate Halfway(ts: Tasks, w: Walk, v: Walk, list: seq<string>, i: int, p: string) {
    && Extends(w, v) && Swept'(ts, w, v, p)
    && (forall j :: 0 <= j < |list| ==> (list[j] in v.seen <==> j < i))
  }

  /** One turn keeps this. */
  lemma Turn(ts: Tasks, w: Walk, v: Walk, v': Walk, list: seq<string>, i: int, look: Look, p: string)
    requires Wellnamed(ts) && Halfway(ts, w, v, list, i, p) && 0 <= i < |list| && p in w.run
    requires forall j :: 0 <= j < |list| ==> Follows(ts, p, list[j])
    requires forall j, k :: 0 <= j < k < |list| ==> list[j] != list[k]
    requires forall k :: k in v.run ==> k in v.seen
    requires if look.ok then Swept(ts, Seen(v, list[i], look), v', list[i]) else v' == Seen(v, list[i], look)
    ensures Halfway(ts, w, v', list, i + 1, p) && Extends(v, v')
  {
    var s := list[i];
    SweptStep(ts, w, v, s, look, v', p);
    assert p in v.run && p != s;
    forall j | i < j < |list| ensures list[j] !in v'.seen {
      if look.ok { SiblingUntouched(ts, Seen(v, s, look), v', s, p, list[j]); }
    }
  }

  lemma Halfway0(ts: Tasks, w: Walk, list: seq<string>, p: string)
    requires Untouched(ts, w, p) && forall j :: 0 <= j < |list| ==> Follows(ts, p, list[j])
    ensures Halfway(ts, w, w, list, 0, p)
  {
  }

  lemma AllTheWay(ts: Tasks, w: Walk, v: Walk, list: seq<string>, p: string)
    requires Halfway(ts, w, v, list, |list|, p)
    requires forall k :: Follows(ts, p, k) ==> k in list
    ensures Swept(ts, w, v, p)
  {
  }

  // ---- What a complete walk has run ----

  /** A chain from a root down to its last task, all of it seen with outcome true. */
  predicate Chain(ts: Tasks, roots: set<string>, seen: map<string, Look>, c: seq<string>) {
    && c != [] && c[0] in roots
    && (forall i :: 0 <= i < |c| ==> c[i] in seen && seen[c[i]].ok)
    && (forall i :: 0 <= i < |c| - 1 ==> Follows(ts, c[i], c[i + 1]))
  }

  ghost predicate Enabled(ts: Tasks, roots: set<string>, seen: map<string, Look>, k: string) {
    exists c :: Chain(ts, roots, seen, c) && c[|c| - 1] == k
  }

  ghost predicate Complete(ts: Tasks, roots: set<string>, w: Walk) {
    && Grounded(ts, roots, w)
    && (forall r :: r in roots ==> r in w.seen)
    && (forall p :: p in w.run ==> Finished(ts, w, p))
  }

  lemma ChainOn(ts: Tasks, roots: set<string>, seen: map<string, Look>, p: string, k: string)
    requires Enabled(ts, roots, seen, p) && Follows(ts, p, k) && k in seen && seen[k].ok
    ensures Enabled(ts, roots, seen, k)
  {
    var c :| Chain(ts, roots, seen, c) && c[|c| - 1] == p;
    assert Chain(ts, roots, seen, c + [k]);
  }

  lemma {:induction false} RunHasChain(ts: Tasks, roots: set<string>, w: Walk, i: nat)
    requires Grounded(ts, roots, w) && i < |w.run|
    ensures Enabled(ts, roots, w.seen, w.run[i])
  {
    var k := w.run[i];
    assert k in w.run;
    assert Caused(ts, roots, w.run[..i], k);
    if k in roots {
      assert Chain(ts, roots, w.seen, [k]);
    } else {
      var p :| p in w.run[..i] && Follows(ts, p, k);
      var j :| 0 <= j < i && w.run[j] == p;
      RunHasChain(ts, roots, w, j);
      ChainOn(ts, roots, w.seen, p, k);
    }
  }

  /** In a complete walk every successor of a task that ran was looked at; so a
      task runs exactly when its whole chain up to a root was seen enabled, and is
      looked at exactly when everything above it was. */
  lemma RunIffChain(ts: Tasks, roots: set<string>, w: Walk, k: string)
    requires Complete(ts, roots, w)
    ensures k in w.run <==> Enabled(ts, roots, w.seen, k)
    ensures k in w.seen <==>
      k in roots || exists p :: Enabled(ts, roots, w.seen, p) && Follows(ts, p, k)
  {
    forall i | 0 <= i < |w.run| ensures Enabled(ts, roots, w.seen, w.run[i]) { RunHasChain(ts, roots, w, i); }
    forall p | Enabled(ts, roots, w.seen, p) ensures p in w.run { }
    if k in w.seen { assert Caused(ts, roots, w.run, k); }
    if exists p :: Enabled(ts, roots, w.seen, p) && Follows(ts, p, k) {
      var p :| Enabled(ts, roots, w.seen, p) && Follows(ts, p, k);
      assert Finished(ts, w, p);
    }
  }
}
