/** The role graph of internal/rbac/rbac.go as a value: its operations, the
    invariant they keep, and who can reach what. Names are upper-case keys. */
module RoleGraph {
  import opened Text

  datatype Grant = Grant(privilege: string, objectType: string, objectName: string, withGrant: bool)

  predicate SameGrant(a: Grant, b: Grant) {
    a.privilege == b.privilege && a.objectType == b.objectType && a.objectName == b.objectName
  }

  /** A privilege asked for on an object. */
  datatype Want = Want(privilege: string, objectType: string, objectName: string)

  datatype RoleData = RoleData(grants: seq<Grant>, parents: seq<string>)

  datatype Graph = Graph(roles: map<string, RoleData>, users: map<string, seq<string>>)

  // ---- Operations ----

  function Without(s: seq<string>, x: string): (r: seq<string>)
    ensures forall y :: y in r <==> y in s && y != x
    ensures |r| <= |s|
  {
    if s == [] then [] else (if s[0] == x then [] else [s[0]]) + Without(s[1..], x)
  }

  function WithoutGrant(s: seq<Grant>, x: Grant): (r: seq<Grant>)
    ensures forall y :: y in r <==> y in s && !SameGrant(y, x)
  {
    if s == [] then [] else (if SameGrant(s[0], x) then [] else [s[0]]) + WithoutGrant(s[1..], x)
  }

  predicate HasGrant(s: seq<Grant>, x: Grant) {
    exists i :: 0 <= i < |s| && SameGrant(s[i], x)
  }

  function UserRoles(g: Graph, user: string): seq<string> {
    if user in g.users then g.users[user] else []
  }

  function Created(g: Graph, role: string): Result<Graph> {
    if role in g.roles then Err("role already exists")
    else Ok(Graph(g.roles[role := RoleData([], [])], g.users))
  }

  /** The graph without one role and without any mention of it. */
  function Minus(g: Graph, role: string): Graph {
    Graph(
      map r | r in g.roles && r != role :: RoleData(g.roles[r].grants, Without(g.roles[r].parents, role)),
      map u | u in g.users :: Without(g.users[u], role))
  }

  function Dropped(g: Graph, role: string): Result<Graph> {
    if role !in g.roles then Err("role does not exist") else Ok(Minus(g, role))
  }

  function PrivilegeGranted(g: Graph, x: Grant, role: string): Result<Graph> {
    if role !in g.roles then Err("role does not exist")
    else
      var d := g.roles[role];
      Ok(if HasGrant(d.grants, x) then g else g.(roles := g.roles[role := RoleData(d.grants + [x], d.parents)]))
  }

  function PrivilegeRevoked(g: Graph, x: Grant, role: string): Result<Graph> {
    if role !in g.roles then Err("role does not exist")
    else if !HasGrant(g.roles[role].grants, x) then Err("grant not found")
    else
      var d := g.roles[role];
      Ok(g.(roles := g.roles[role := RoleData(WithoutGrant(d.grants, x), d.parents)]))
  }

  function RoleAssigned(g: Graph, role: string, user: string): Result<Graph> {
    if role !in g.roles then Err("role does not exist")
    else if role in UserRoles(g, user) then Ok(g)
    else Ok(g.(users := g.users[user := UserRoles(g, user) + [role]]))
  }

  function ParentAdded(g: Graph, child: string, parent: string): Result<Graph> {
    if child !in g.roles then Err("child role does not exist")
    else if parent !in g.roles then Err("parent role does not exist")
    else if parent in g.roles[child].parents then Ok(g)
    else
      var d := g.roles[child];
      Ok(g.(roles := g.roles[child := RoleData(d.grants, d.parents + [parent])]))
  }

  datatype Op =
    | CreateRole(role: string)
    | DropRole(role: string)
    | GrantPrivilege(grant: Grant, role: string)
    | RevokePrivilege(grant: Grant, role: string)
    | GrantRoleToUser(role: string, user: string)
    | GrantRoleToRole(child: string, parent: string)

  function Outcome(g: Graph, op: Op): Result<Graph> {
    match op
    case CreateRole(r) => Created(g, r)
    case DropRole(r) => Dropped(g, r)
    case GrantPrivilege(x, r) => PrivilegeGranted(g, x, r)
    case RevokePrivilege(x, r) => PrivilegeRevoked(g, x, r)
    case GrantRoleToUser(r, u) => RoleAssigned(g, r, u)
    case GrantRoleToRole(c, p) => ParentAdded(g, c, p)
  }

  /** A failed operation changes nothing. */
  function Apply(g: Graph, op: Op): Graph {
    match Outcome(g, op) case Ok(h) => h case Err(_) => g
  }

  function Run(g: Graph, ops: seq<Op>): Graph
    decreases |ops|
  {
    if ops == [] then g else Run(Apply(g, ops[0]), ops[1..])
  }

  // ---- The invariant ----

  predicate DistinctGrants(s: seq<Grant>) {
    forall i, j :: 0 <= i < j < |s| ==> !SameGrant(s[i], s[j])
  }

  predicate Known(g: Graph, names: seq<string>) {
    forall i :: 0 <= i < |names| ==> names[i] in g.roles
  }

  /** Every mention of a role names an existing one, and nothing is listed twice. */
  predicate Inv(g: Graph) {
    && (forall r :: r in g.roles ==>
          var d := g.roles[r];
          Known(g, d.parents) && Distinct(d.parents) && DistinctGrants(d.grants))
    && (forall u :: u in g.users ==> Known(g, g.users[u]) && Distinct(g.users[u]))
  }

  lemma {:induction false} WithoutDistinct(s: seq<string>, x: string)
    requires Distinct(s)
    ensures Distinct(Without(s, x))
  {
    if s != [] {
      WithoutDistinct(s[1..], x);
      var w := Without(s[1..], x);
      assert s[0] !in w by { assert s[0] !in s[1..]; }
      assert forall j :: 0 <= j < |w| ==> w[j] in w;
    }
  }

  lemma {:induction false} WithoutGrantDistinct(s: seq<Grant>, x: Grant)
    requires DistinctGrants(s)
    ensures DistinctGrants(WithoutGrant(s, x))
  {
    if s != [] {
      WithoutGrantDistinct(s[1..], x);
      assert forall y :: y in s[1..] ==> !SameGrant(s[0], y);
    }
  }

  lemma MinusInv(g: Graph, role: string)
    requires Inv(g)
    ensures Inv(Minus(g, role))
  {
    var h := Minus(g, role);
    forall r | r in h.roles ensures Known(h, h.roles[r].parents) && Distinct(h.roles[r].parents) {
      WithoutDistinct(g.roles[r].parents, role);
      KnownWithout(g, g.roles[r].parents, role);
    }
    forall u | u in h.users ensures Known(h, h.users[u]) && Distinct(h.users[u]) {
      WithoutDistinct(g.users[u], role);
      KnownWithout(g, g.users[u], role);
    }
  }

  lemma KnownWithout(g: Graph, names: seq<string>, role: string)
    requires Known(g, names)
    ensures Known(Minus(g, role), Without(names, role))
  {
    var w := Without(names, role);
    forall i | 0 <= i < |w| ensures w[i] in Minus(g, role).roles {
      assert w[i] in w;
    }
  }

  /** Every operation keeps the invariant. */
  lemma ApplyKeepsInv(g: Graph, op: Op)
    requires Inv(g)
    ensures Inv(Apply(g, op))
  {
    match op
    case DropRole(r) => MinusInv(g, r);
    case RevokePrivilege(x, r) =>
      if r in g.roles { WithoutGrantDistinct(g.roles[r].grants, x); }
    case _ =>
  }

  /** So it holds after any run from a graph that has it, in particular the empty one. */
  lemma {:induction false} RunKeepsInv(g: Graph, ops: seq<Op>)
    requires Inv(g)
    ensures Inv(Run(g, ops))
    decreases |ops|
  {
    if ops != [] {
      ApplyKeepsInv(g, ops[0]);
      RunKeepsInv(Apply(g, ops[0]), ops[1..]);
    }
  }

  // ---- Reachability ----

  function Parents(g: Graph, r: string): seq<string> {
    if r in g.roles then g.roles[r].parents else []
  }

  predicate Path(g: Graph, p: seq<string>) {
    p != [] && forall i :: 0 <= i < |p| - 1 ==> p[i + 1] in Parents(g, p[i])
  }

  /** b is a or one of the roles that a is granted to, directly or indirectly. */
  ghost predicate Reaches(g: Graph, a: string, b: string) {
    exists p :: Path(g, p) && p[0] == a && p[|p| - 1] == b
  }

  /** A grant of the privilege, or of ALL, on the object. */
  predicate Meets(x: Grant, w: Want) {
    (x.privilege == w.privilege || x.privilege == "ALL") && x.objectType == w.objectType && x.objectName == w.objectName
  }

  predicate Allows(g: Graph, r: string, w: Want) {
    r in g.roles && exists i :: 0 <= i < |g.roles[r].grants| && Meets(g.roles[r].grants[i], w)
  }

  /** The user holds the role, directly or upwards from an assigned role, and the
      role holds the privilege, itself or upwards from a role that does. */
  ghost predicate Access(
      g: Graph, user: string, role: string, w: Want) {
    && (exists r :: r in UserRoles(g, user) && Reaches(g, r, role))
    && (exists q :: Reaches(g, q, role) && Allows(g, q, w))
  }

  lemma ReachesSelf(g: Graph, a: string)
    ensures Reaches(g, a, a)
  {
    assert Path(g, [a]);
  }

  lemma ReachesUp(g: Graph, a: string, c: string, b: string)
    requires c in Parents(g, a) && Reaches(g, c, b)
    ensures Reaches(g, a, b)
  {
    var p :| Path(g, p) && p[0] == c && p[|p| - 1] == b;
    assert Path(g, [a] + p);
  }

  lemma ReachesOn(g: Graph, a: string, c: string, b: string)
    requires Reaches(g, a, c) && b in Parents(g, c)
    ensures Reaches(g, a, b)
  {
    var p :| Path(g, p) && p[0] == a && p[|p| - 1] == c;
    assert Path(g, p + [b]);
  }

  ghost predicate ClosedUp(g: Graph, s: set<string>) {
    forall a, b :: a in s && b in Parents(g, a) ==> b in s
  }

  ghost predicate ClosedDown(g: Graph, s: set<string>) {
    forall a, b :: b in s && b in Parents(g, a) ==> a in s
  }

  lemma NoEscapeUp(g: Graph, s: set<string>, a: string, b: string)
    requires ClosedUp(g, s) && a in s && Reaches(g, a, b)
    ensures b in s
  {
    var p :| Path(g, p) && p[0] == a && p[|p| - 1] == b;
    PathUp(g, s, p, |p| - 1);
  }

  lemma {:induction false} PathUp(g: Graph, s: set<string>, p: seq<string>, k: nat)
    requires ClosedUp(g, s) && Path(g, p) && p[0] in s && k < |p|
    ensures p[k] in s
  {
    if k > 0 { PathUp(g, s, p, k - 1); }
  }

  lemma NoEscapeDown(g: Graph, s: set<string>, a: string, b: string)
    requires ClosedDown(g, s) && b in s && Reaches(g, a, b)
    ensures a in s
  {
    var p :| Path(g, p) && p[0] == a && p[|p| - 1] == b;
    PathDown(g, s, p, 0);
  }

  lemma {:induction false} PathDown(g: Graph, s: set<string>, p: seq<string>, k: nat)
    requires ClosedDown(g, s) && Path(g, p) && p[|p| - 1] in s && k < |p|
    ensures p[k] in s
    decreases |p| - k
  {
    if k < |p| - 1 { PathDown(g, s, p, k + 1); }
  }

  // ---- What operations do to access ----

  ghost predicate ReachesAvoiding(g: Graph, a: string, b: string, x: string) {
    exists p :: Path(g, p) && p[0] == a && p[|p| - 1] == b && x !in p
  }

  lemma MinusPath(g: Graph, x: string, p: seq<string>)
    requires x !in p
    ensures Path(Minus(g, x), p) <==> Path(g, p)
  {
    forall i | 0 <= i < |p| - 1
      ensures p[i + 1] in Parents(Minus(g, x), p[i]) <==> p[i + 1] in Parents(g, p[i])
    {
      assert p[i] in p && p[i + 1] in p;
    }
  }

  lemma {:induction false} MinusPathAvoids(g: Graph, x: string, p: seq<string>, k: nat)
    requires Path(Minus(g, x), p) && p[0] != x && k < |p|
    ensures p[k] != x
  {
    if k > 0 { assert p[k] in Parents(Minus(g, x), p[k - 1]); }
  }

  /** Without a role, exactly the routes that avoided it remain. */
  lemma DropReaches(g: Graph, x: string, a: string, b: string)
    requires a != x
    ensures Reaches(Minus(g, x), a, b) <==> ReachesAvoiding(g, a, b, x)
  {
    if Reaches(Minus(g, x), a, b) {
      var p :| Path(Minus(g, x), p) && p[0] == a && p[|p| - 1] == b;
      forall k | 0 <= k < |p| ensures p[k] != x { MinusPathAvoids(g, x, p, k); }
      MinusPath(g, x, p);
    }
    if ReachesAvoiding(g, a, b, x) {
      var p :| Path(g, p) && p[0] == a && p[|p| - 1] == b && x !in p;
      MinusPath(g, x, p);
    }
  }

  /** Dropping a role takes away exactly the access that went through it. */
  lemma DropAccess(g: Graph, x: string, user: string, role: string, w: Want)
    requires role != x
    ensures Access(Minus(g, x), user, role, w) <==>
      (exists r :: r in UserRoles(g, user) && r != x && ReachesAvoiding(g, r, role, x)) &&
      (exists q :: q != x && ReachesAvoiding(g, q, role, x) && Allows(g, q, w))
  {
    var h := Minus(g, x);
    forall r ensures r in UserRoles(h, user) <==> r in UserRoles(g, user) && r != x { }
    forall q | q != x
      ensures Allows(h, q, w) == Allows(g, q, w)
      ensures Reaches(h, q, role) <==> ReachesAvoiding(g, q, role, x)
    {
      DropReaches(g, x, q, role);
    }
    assert forall q :: Allows(h, q, w) ==> q != x;
    if Access(h, user, role, w) {
      var r :| r in UserRoles(h, user) && Reaches(h, r, role);
      assert ReachesAvoiding(g, r, role, x);
    }
  }

  /** A role without parents, children, grants and users changes no one's access. */
  lemma FreshRoleAccess(g: Graph, x: string, user: string, role: string, w: Want)
    requires Inv(g) && x !in g.roles
    ensures var h := Created(g, x).value;
      Access(h, user, role, w) <==> Access(g, user, role, w)
    ensures !Access(Created(g, x).value, user, x, w)
  {
    var h := Created(g, x).value;
    forall a ensures Parents(h, a) == Parents(g, a) { }
    forall a, b ensures Reaches(h, a, b) <==> Reaches(g, a, b) { SameParents(g, h, a, b); SameParents(h, g, a, b); }
    forall q ensures Allows(h, q, w) == Allows(g, q, w) { }
    forall r | r in UserRoles(h, user) && Reaches(h, r, x) ensures false {
      NoEscapeUp(h, g.roles.Keys, r, x);
    }
  }

  lemma SameParents(g: Graph, h: Graph, a: string, b: string)
    requires Reaches(g, a, b) ==> forall c :: Parents(h, c) == Parents(g, c)
    ensures Reaches(g, a, b) ==> Reaches(h, a, b)
  {
    if Reaches(g, a, b) {
      var p :| Path(g, p) && p[0] == a && p[|p| - 1] == b;
      assert Path(h, p);
    }
  }

  lemma RunTwo(g: Graph, a: Op, b: Op)
    ensures Run(g, [a, b]) == Apply(Apply(g, a), b)
  {
    var h := Apply(g, a);
    assert [a, b][1..] == [b] && [b][1..] == [];
    assert Run(h, [b]) == Run(Apply(h, b), []);
  }

  /** Dropping a role and creating it again revives no access: everyone has what
      they had without the role, and the new role gives nothing to anyone. */
  lemma RecreatedRoleIsBare(g: Graph, x: string, user: string, role: string, w: Want)
    requires Inv(g) && x in g.roles
    ensures var h := Run(g, [DropRole(x), CreateRole(x)]);
      && Inv(h)
      && (Access(h, user, role, w) <==>
          Access(Minus(g, x), user, role, w))
      && !Access(h, user, x, w)
  {
    MinusInv(g, x);
    RunTwo(g, DropRole(x), CreateRole(x));
    RunKeepsInv(g, [DropRole(x), CreateRole(x)]);
    FreshRoleAccess(Minus(g, x), x, user, role, w);
  }

  /** Revoking a privilege just granted for the first time restores the graph. */
  lemma {:induction false} RevokeUndoesGrant(g: Graph, x: Grant, role: string)
    requires role in g.roles && !HasGrant(g.roles[role].grants, x)
    ensures Run(g, [GrantPrivilege(x, role), RevokePrivilege(x, role)]) == g
  {
    var s := g.roles[role].grants;
    RunTwo(g, GrantPrivilege(x, role), RevokePrivilege(x, role));
    WithoutLast(s, x);
    assert SameGrant((s + [x])[|s|], x);
    assert g.roles[role := RoleData(s, g.roles[role].parents)] == g.roles;
  }

  lemma {:induction false} WithoutLast(s: seq<Grant>, x: Grant)
    requires !HasGrant(s, x)
    ensures WithoutGrant(s + [x], x) == s
  {
    if s == [] {
      assert s + [x] == [x];
    } else {
      assert (s + [x])[1..] == s[1..] + [x];
      assert !SameGrant(s[0], x);
      forall i | 0 <= i < |s[1..]| ensures !SameGrant(s[1..][i], x) { assert s[1..][i] == s[i + 1]; }
      WithoutLast(s[1..], x);
    }
  }
}
