/** What each grant of internal/rbac/rbac.go gives, in terms of who reaches what and
    who has access. */
module RoleGrants {
  import opened Text
  import opened RoleGraph

  // ---- A role granted to a role ----

  /** Upwards from a with one more edge, from c to p. */
  ghost predicate ReachesWith(g: Graph, c: string, p: string, a: string, b: string) {
    Reaches(g, a, b) || (Reaches(g, a, c) && Reaches(g, p, b))
  }

  lemma ReachesTwice(g: Graph, a: string, c: string, b: string)
    requires Reaches(g, a, c) && Reaches(g, c, b)
    ensures Reaches(g, a, b)
  {
    var s :| Path(g, s) && s[0] == a && s[|s| - 1] == c;
    var t :| Path(g, t) && t[0] == c && t[|t| - 1] == b;
    var u := s + t[1..];
    forall i | 0 <= i < |u| - 1 ensures u[i + 1] in Parents(g, u[i]) {
      if i >= |s| - 1 { assert u[i] == t[i - (|s| - 1)]; }
    }
    assert u[|u| - 1] == b;
  }

  /** h is g with the edge from c to p. */
  ghost predicate OneMoreEdge(g: Graph, h: Graph, c: string, p: string) {
    forall a, b :: b in Parents(h, a) <==> b in Parents(g, a) || (a == c && b == p)
  }

  lemma EdgeKeeps(g: Graph, h: Graph, c: string, p: string, a: string, b: string)
    requires OneMoreEdge(g, h, c, p) && Reaches(g, a, b)
    ensures Reaches(h, a, b)
  {
    var s :| Path(g, s) && s[0] == a && s[|s| - 1] == b;
    assert Path(h, s);
  }

  lemma {:induction false} EdgePath(g: Graph, h: Graph, c: string, p: string, s: seq<string>, k: nat)
    requires OneMoreEdge(g, h, c, p) && Path(h, s) && k < |s|
    ensures ReachesWith(g, c, p, s[0], s[k])
  {
    if k == 0 {
      ReachesSelf(g, s[0]);
    } else {
      var last := k - 1;
      EdgePath(g, h, c, p, s, last);
      assert s[last + 1] in Parents(h, s[last]);
      EdgeStep(g, c, p, s[0], s[last], s[k]);
    }
  }

  lemma EdgeStep(g: Graph, c: string, p: string, a: string, x: string, y: string)
    requires ReachesWith(g, c, p, a, x) && (y in Parents(g, x) || (x == c && y == p))
    ensures ReachesWith(g, c, p, a, y)
  {
    if y in Parents(g, x) {
      if Reaches(g, a, x) { ReachesOn(g, a, x, y); } else { ReachesOn(g, p, x, y); }
    } else {
      ReachesSelf(g, p);
    }
  }

  lemma EdgeReaches(g: Graph, h: Graph, c: string, p: string, a: string, b: string)
    requires OneMoreEdge(g, h, c, p)
    ensures Reaches(h, a, b) <==> ReachesWith(g, c, p, a, b)
  {
    if Reaches(h, a, b) {
      var s :| Path(h, s) && s[0] == a && s[|s| - 1] == b;
      EdgePath(g, h, c, p, s, |s| - 1);
    }
    if Reaches(g, a, b) { EdgeKeeps(g, h, c, p, a, b); }
    if Reaches(g, a, c) && Reaches(g, p, b) {
      EdgeKeeps(g, h, c, p, a, c);
      EdgeKeeps(g, h, c, p, p, b);
      ReachesOn(h, a, c, p);
      ReachesTwice(h, a, p, b);
    }
  }

  /** Users and grants are as they were. */
  predicate SameGrants(g: Graph, h: Graph) {
    && g.users == h.users && g.roles.Keys == h.roles.Keys
    && forall r :: r in g.roles ==> g.roles[r].grants == h.roles[r].grants
  }

  /** Granting the child to the parent fails exactly if one of them does not exist;
      otherwise it adds exactly the routes through that grant, and nothing else. */
  lemma RoleGrantReaches(g: Graph, c: string, p: string, a: string, b: string)
    ensures Outcome(g, GrantRoleToRole(c, p)).Ok? <==> c in g.roles && p in g.roles
    ensures var h := Apply(g, GrantRoleToRole(c, p));
      && SameGrants(g, h)
      && (Reaches(h, a, b) <==>
            Reaches(g, a, b) || (c in g.roles && p in g.roles && Reaches(g, a, c) && Reaches(g, p, b)))
  {
    var h := Apply(g, GrantRoleToRole(c, p));
    if c in g.roles && p in g.roles {
      assert OneMoreEdge(g, h, c, p);
      EdgeReaches(g, h, c, p, a, b);
    }
  }

  /** So whoever reached the child now reaches what the parent reaches, and what the
      child's members hold now serves there as well. */
  lemma RoleGrantAccess(g: Graph, c: string, p: string, user: string, role: string, w: Want)
    requires c in g.roles && p in g.roles
    ensures Access(Apply(g, GrantRoleToRole(c, p)), user, role, w) <==>
      (exists r :: r in UserRoles(g, user) && ReachesWith(g, c, p, r, role)) &&
      (exists q :: ReachesWith(g, c, p, q, role) && Allows(g, q, w))
  {
    var h := Apply(g, GrantRoleToRole(c, p));
    forall a ensures Reaches(h, a, role) <==> ReachesWith(g, c, p, a, role) { RoleGrantReaches(g, c, p, a, role); }
    RoleGrantReaches(g, c, p, c, p);
    forall q ensures Allows(h, q, w) == Allows(g, q, w) { }
  }

  // ---- A role granted to a user ----

  /** Assigning a role gives the user exactly what is above that role, where some role
      below it holds the privilege, and changes nothing for anyone else. */
  lemma UserGrantAccess(g: Graph, x: string, u: string, user: string, role: string, w: Want)
    ensures Outcome(g, GrantRoleToUser(x, u)).Ok? <==> x in g.roles
    ensures var h := Apply(g, GrantRoleToUser(x, u));
      && h.roles == g.roles
      && (Access(h, user, role, w) <==>
            Access(g, user, role, w) ||
            (x in g.roles && user == u && Reaches(g, x, role) && exists q :: Reaches(g, q, role) && Allows(g, q, w)))
  {
    var h := Apply(g, GrantRoleToUser(x, u));
    forall r ensures r in UserRoles(h, user) <==> r in UserRoles(g, user) || (x in g.roles && user == u && r == x) { }
    forall a ensures Reaches(h, a, role) <==> Reaches(g, a, role) {
      SameParents(g, h, a, role);
      SameParents(h, g, a, role);
    }
    forall q ensures Allows(h, q, w) == Allows(g, q, w) { }
  }

  // ---- A privilege granted to a role, and revoked from it ----

  /** The users and the edges are as they were. */
  predicate SameRoutes(g: Graph, h: Graph) {
    && g.users == h.users && g.roles.Keys == h.roles.Keys
    && forall r :: r in g.roles ==> g.roles[r].parents == h.roles[r].parents
  }

  lemma SameRoutesReach(g: Graph, h: Graph, a: string, b: string)
    requires SameRoutes(g, h)
    ensures Reaches(h, a, b) <==> Reaches(g, a, b)
  {
    forall c ensures Parents(h, c) == Parents(g, c) { }
    SameParents(g, h, a, b);
    SameParents(h, g, a, b);
  }

  /** A privilege granted to a role gives exactly those privileges that the grant
      meets, to exactly those users that hold a role above it. */
  lemma PrivilegeGrantAccess(g: Graph, x: Grant, r: string, user: string, role: string, w: Want)
    ensures Outcome(g, GrantPrivilege(x, r)).Ok? <==> r in g.roles
    ensures var h := Apply(g, GrantPrivilege(x, r));
      && SameRoutes(g, h)
      && (Access(h, user, role, w) <==>
            Access(g, user, role, w) ||
            (r in g.roles && Reaches(g, r, role) &&
             (x.privilege == w.privilege || x.privilege == "ALL") &&
             x.objectType == w.objectType && x.objectName == w.objectName &&
             exists a :: a in UserRoles(g, user) && Reaches(g, a, role)))
  {
    var h := Apply(g, GrantPrivilege(x, r));
    forall a ensures Reaches(h, a, role) <==> Reaches(g, a, role) { SameRoutesReach(g, h, a, role); }
    forall q ensures Allows(h, q, w) <==> Allows(g, q, w) || (q == r && r in g.roles && Meets(x, w)) {
      GrantAllows(g, x, r, q, w);
    }
  }

  /** Grants are the same exactly if they give the same; WITH GRANT OPTION aside. */
  lemma SameGrantGives(x: Grant, y: Grant)
    ensures SameGrant(x, y) <==> forall w :: Meets(x, w) <==> Meets(y, w)
  {
    var own := Want(x.privilege, x.objectType, x.objectName);
    var other := Want(y.privilege, y.objectType, y.objectName);
    var third := Want(x.privilege + y.privilege + "*", x.objectType, x.objectName);
    assert Meets(x, own) && Meets(y, other);
    assert |third.privilege| > |x.privilege| && |third.privilege| > |y.privilege|;
    assert Meets(x, third) <==> x.privilege == "ALL";
  }

  lemma GrantAllows(g: Graph, x: Grant, r: string, q: string, w: Want)
    ensures Allows(Apply(g, GrantPrivilege(x, r)), q, w) <==> Allows(g, q, w) || (q == r && r in g.roles && Meets(x, w))
  {
    var h := Apply(g, GrantPrivilege(x, r));
    if r in g.roles && q == r {
      var s, t := g.roles[r].grants, h.roles[r].grants;
      if HasGrant(s, x) {
        var i :| 0 <= i < |s| && SameGrant(s[i], x);
        assert Meets(s[i], w) <==> Meets(x, w);
      } else {
        assert t == s + [x] && t[|s|] == x;
        assert forall i :: 0 <= i < |s| ==> t[i] == s[i];
      }
    }
  }

  /** Some grant of s other than the left-out one meets w. */
  predicate MeetsBut(s: seq<Grant>, x: Grant, out: bool, w: Want) {
    exists i :: 0 <= i < |s| && Meets(s[i], w) && !(out && SameGrant(s[i], x))
  }

  /** A role holds the privilege by a grant other than x on r. */
  predicate AllowsBut(g: Graph, x: Grant, r: string, q: string, w: Want) {
    q in g.roles && MeetsBut(g.roles[q].grants, x, q == r, w)
  }

  /** Revoking fails exactly if there is no such grant, and otherwise leaves exactly the
      access that rests on another one. */
  lemma PrivilegeRevokeAccess(g: Graph, x: Grant, r: string, user: string, role: string, w: Want)
    ensures Outcome(g, RevokePrivilege(x, r)).Ok? <==> r in g.roles && HasGrant(g.roles[r].grants, x)
    ensures var h := Apply(g, RevokePrivilege(x, r));
      && SameRoutes(g, h)
      && (Access(h, user, role, w) <==>
            (exists a :: a in UserRoles(g, user) && Reaches(g, a, role)) &&
            (exists q :: Reaches(g, q, role) && AllowsBut(g, x, r, q, w)))
  {
    var h := Apply(g, RevokePrivilege(x, r));
    forall a ensures Reaches(h, a, role) <==> Reaches(g, a, role) { SameRoutesReach(g, h, a, role); }
    forall q ensures Allows(h, q, w) <==> AllowsBut(g, x, r, q, w) { RevokeAllows(g, x, r, q, w); }
  }

  lemma RevokedGrants(g: Graph, x: Grant, r: string, q: string)
    requires q in g.roles
    ensures var h := Apply(g, RevokePrivilege(x, r));
      && q in h.roles
      && forall y :: y in h.roles[q].grants <==> y in g.roles[q].grants && !(q == r && SameGrant(y, x))
  {
  }

  lemma MeetsAlike(s: seq<Grant>, t: seq<Grant>, x: Grant, out: bool, w: Want)
    requires forall y :: y in t <==> y in s && !(out && SameGrant(y, x))
    ensures MeetsBut(t, x, false, w) <==> MeetsBut(s, x, out, w)
  {
    if MeetsBut(t, x, false, w) {
      var j :| 0 <= j < |t| && Meets(t[j], w);
      assert t[j] in t;
    }
    if MeetsBut(s, x, out, w) {
      var i :| 0 <= i < |s| && Meets(s[i], w) && !(out && SameGrant(s[i], x));
      assert s[i] in t;
    }
  }

  lemma RevokeAllows(g: Graph, x: Grant, r: string, q: string, w: Want)
    ensures Allows(Apply(g, RevokePrivilege(x, r)), q, w) <==> AllowsBut(g, x, r, q, w)
  {
    var h := Apply(g, RevokePrivilege(x, r));
    if q in g.roles {
      RevokedGrants(g, x, r, q);
      MeetsAlike(g.roles[q].grants, h.roles[q].grants, x, q == r, w);
    }
  }
}
