/** The engine of internal/rbac/rbac.go: roles updated in place, and the two
    searches that share a set of visited roles. */
module Rbac {
  import opened Text
  import opened RoleGraph

  class Role {
    const name: string
    var grants: seq<Grant>
    var parents: seq<string>

    constructor (name: string)
      ensures this.name == name && grants == [] && parents == []
    {
      this.name := name;
      grants, parents := [], [];
    }
  }

  class Engine {
    var roles: map<string, Role>
    var userRoles: map<string, seq<string>>

    /** The graph the engine holds. */
    ghost function View(): Graph
      reads this, roles.Values
    {
      Graph(map k | k in roles :: RoleData(roles[k].grants, roles[k].parents), userRoles)
    }

    /** Keys are role names, distinct roles are distinct objects, and the graph
        satisfies its invariant. */
    ghost predicate Valid()
      reads this, roles.Values
    {
      && (forall k :: k in roles ==> roles[k].name == k)
      && (forall j, k :: j in roles && k in roles && j != k ==> roles[j] != roles[k])
      && Inv(View())
    }

    constructor ()
      ensures Valid() && View() == Graph(map[], map[])
    {
      roles, userRoles := map[], map[];
    }

    method CreateRole(name: string) returns (ok: bool)
      requires Valid()
      modifies this
      ensures Valid() && View() == Apply(old(View()), RoleGraph.CreateRole(ToUpper(name)))
      ensures ok == Outcome(old(View()), RoleGraph.CreateRole(ToUpper(name))).Ok?
    {
      var key := ToUpper(name);
      ghost var before := View();
      if key in roles { return false; }
      var r := new Role(key);
      roles := roles[key := r];
      CreatedShape(before, key, View());
      return true;
    }

    /** The compaction loop over one list. */
    static method Compact(s: seq<string>, key: string) returns (filtered: seq<string>)
      ensures filtered == Without(s, key)
    {
      filtered := [];
      for i := 0 to |s|
        invariant filtered == Without(s[..i], key)
      {
        assert s[..i + 1] == s[..i] + [s[i]];
        WithoutAppend(s[..i], s[i], key);
        if s[i] != key { filtered := filtered + [s[i]]; }
      }
      assert s[..|s|] == s;
    }

    method DropRole(name: string) returns (ok: bool)
      requires Valid()
      modifies this, roles.Values
      ensures Valid() && View() == Apply(old(View()), RoleGraph.DropRole(ToUpper(name)))
      ensures ok == Outcome(old(View()), RoleGraph.DropRole(ToUpper(name))).Ok?
    {
      var key := ToUpper(name);
      ghost var before := View();
      if key !in roles { return false; }
      roles := roles - {key};
      DropFromParents(key);
      DropFromUsers(key);
      MinusShape(before, key, View());
      return true;
    }

    method DropFromParents(key: string)
      requires forall j, k :: j in roles && k in roles && j != k ==> roles[j] != roles[k]
      modifies roles.Values
      ensures forall k :: k in roles ==>
        roles[k].grants == old(roles[k].grants) && roles[k].parents == Without(old(roles[k].parents), key)
    {
      var todo := roles.Keys;
      while todo != {}
        invariant todo <= roles.Keys
        invariant forall k :: k in roles ==> roles[k].grants == old(roles[k].grants)
        invariant forall k :: k in todo ==> roles[k].parents == old(roles[k].parents)
        invariant forall k :: k in roles && k !in todo ==> roles[k].parents == Without(old(roles[k].parents), key)
        decreases todo
      {
        var k :| k in todo;
        todo := todo - {k};
        var filtered := Compact(roles[k].parents, key);
        roles[k].parents := filtered;
      }
    }

    method DropFromUsers(key: string)
      modifies `userRoles
      ensures userRoles.Keys == old(userRoles.Keys)
      ensures forall u :: u in userRoles ==> userRoles[u] == Without(old(userRoles)[u], key)
    {
      ghost var before := userRoles;
      var users := userRoles.Keys;
      while users != {}
        invariant users <= userRoles.Keys == before.Keys
        invariant forall u :: u in users ==> userRoles[u] == before[u]
        invariant forall u :: u in userRoles && u !in users ==> userRoles[u] == Without(before[u], key)
        decreases users
      {
        var u :| u in users;
        users := users - {u};
        var filtered := Compact(userRoles[u], key);
        userRoles := userRoles[u := filtered];
      }
    }

    method GrantPrivilege(privilege: string, objectType: string, objectName: string, roleName: string, withGrant: bool)
        returns (ok: bool)
      requires Valid()
      modifies roles.Values
      ensures var op := RoleGraph.GrantPrivilege(
                Grant(privilege, objectType, ToUpper(objectName), withGrant), ToUpper(roleName));
        Valid() && View() == Apply(old(View()), op) && ok == Outcome(old(View()), op).Ok?
    {
      var key := ToUpper(roleName);
      var x := Grant(privilege, objectType, ToUpper(objectName), withGrant);
      ghost var before := View();
      ApplyKeepsInv(before, RoleGraph.GrantPrivilege(x, key));
      if key !in roles { return false; }
      var role := roles[key];
      for i := 0 to |role.grants|
        invariant forall k :: 0 <= k < i ==> !SameGrant(role.grants[k], x)
      {
        var y := role.grants[i];
        if y.privilege == x.privilege && y.objectType == x.objectType && y.objectName == x.objectName { return true; }
      }
      role.grants := role.grants + [x];
      assert View().roles == before.roles[key := RoleData(before.roles[key].grants + [x], before.roles[key].parents)];
      return true;
    }

    method RevokePrivilege(privilege: string, objectType: string, objectName: string, roleName: string)
        returns (ok: bool)
      requires Valid()
      modifies roles.Values
      ensures var op := RoleGraph.RevokePrivilege(
                Grant(privilege, objectType, ToUpper(objectName), false), ToUpper(roleName));
        Valid() && View() == Apply(old(View()), op) && ok == Outcome(old(View()), op).Ok?
    {
      var key := ToUpper(roleName);
      var x := Grant(privilege, objectType, ToUpper(objectName), false);
      ghost var before := View();
      if key !in roles { return false; }
      var role := roles[key];
      assert before.roles[key].grants == role.grants;
      var found, filtered := CompactGrants(role.grants, x);
      if !found { return false; }
      role.grants := filtered;
      RevokedShape(before, x, key, View());
      return true;
    }

    static method CompactGrants(s: seq<Grant>, x: Grant) returns (found: bool, filtered: seq<Grant>)
      ensures filtered == WithoutGrant(s, x) && found == HasGrant(s, x)
    {
      found, filtered := false, [];
      for i := 0 to |s|
        invariant Compacted(s, i, x, found, filtered)
      {
        CompactedNext(s, i, x, found, filtered);
        if SameGrant(s[i], x) { found := true; } else { filtered := filtered + [s[i]]; }
      }
      CompactedAll(s, x, found, filtered);
    }

    method GrantRoleToUser(roleName: string, userName: string) returns (ok: bool)
      requires Valid()
      modifies this
      ensures var op := RoleGraph.GrantRoleToUser(ToUpper(roleName), ToUpper(userName));
        Valid() && View() == Apply(old(View()), op) && ok == Outcome(old(View()), op).Ok?
    {
      var role, user := ToUpper(roleName), ToUpper(userName);
      ghost var before := View();
      ApplyKeepsInv(before, RoleGraph.GrantRoleToUser(role, user));
      if role !in roles { return false; }
      var held := if user in userRoles then userRoles[user] else [];
      if role in held { return true; }
      userRoles := userRoles[user := held + [role]];
      assert View().roles == before.roles;
      return true;
    }

    method GrantRoleToRole(childRole: string, parentRole: string) returns (ok: bool)
      requires Valid()
      modifies roles.Values
      ensures var op := RoleGraph.GrantRoleToRole(ToUpper(childRole), ToUpper(parentRole));
        Valid() && View() == Apply(old(View()), op) && ok == Outcome(old(View()), op).Ok?
    {
      var child, parent := ToUpper(childRole), ToUpper(parentRole);
      ghost var before := View();
      ApplyKeepsInv(before, RoleGraph.GrantRoleToRole(child, parent));
      if child !in roles { return false; }
      if parent !in roles { return false; }
      var role := roles[child];
      if parent in role.parents { return true; }
      role.parents := role.parents + [parent];
      assert View().roles ==
        before.roles[child := RoleData(before.roles[child].grants, before.roles[child].parents + [parent])];
      return true;
    }

    // ---- The searches ----

    /** The engine holds the graph g, and each role knows its key. */
    ghost predicate Shows(g: Graph)
      reads this, roles.Values
    {
      && g.users == userRoles
      && g.roles.Keys == roles.Keys
      && forall k :: k in roles ==>
           roles[k].name == k && g.roles[k].grants == roles[k].grants && g.roles[k].parents == roles[k].parents
    }

    /** roleInheritsLocked: depth-first search upwards for target. */
    method RoleInherits(target: string, current: string, visited: set<string>, ghost g: Graph)
        returns (found: bool, visited': set<string>)
      requires Shows(g)
      ensures found ==> Reaches(g, current, target)
      ensures !found ==> Exhausted(g, target, visited, visited') && current in visited'
      decreases roles.Keys - visited
    {
      visited' := visited;
      if current == target {
        ReachesSelf(g, current);
        return true, visited';
      }
      if current in visited { return false, visited'; }
      visited' := visited + {current};
      if current !in roles { return false, visited'; }
      var parents := roles[current].parents;
      for i := 0 to |parents|
        invariant Exhausted(g, target, visited + {current}, visited')
        invariant forall k :: 0 <= k < i ==> parents[k] in visited'
      {
        ghost var seen := visited';
        found, visited' := RoleInherits(target, parents[i], visited', g);
        if found {
          ReachesUp(g, current, parents[i], target);
          return true, visited';
        }
        ExhaustedTwice(g, target, visited + {current}, seen, visited');
      }
      ExhaustedFrom(g, target, current, visited, visited');
      return false, visited';
    }

    method UserHasRole(user: string, role: string, ghost g: Graph) returns (has: bool)
      requires Shows(g)
      ensures has <==> exists r :: r in UserRoles(g, user) && Reaches(g, r, role)
    {
      var held := if user in userRoles then userRoles[user] else [];
      for i := 0 to |held|
        invariant forall k :: 0 <= k < i ==> !Reaches(g, held[k], role)
      {
        if held[i] == role {
          ReachesSelf(g, role);
          return true;
        }
        var found, visited := RoleInherits(role, held[i], {}, g);
        if found { return true; }
        ExhaustedMisses(g, role, held[i], visited);
      }
      return false;
    }

    /** roleHasPrivilegeLocked: depth-first search downwards for a grant; the
        roles are visited in whatever order the map yields them. */
    method RoleHasPrivilege(key: string, w: Want, visited: set<string>, ghost g: Graph)
        returns (found: bool, visited': set<string>)
      requires Shows(g) && key in roles
      ensures found ==> Holds(g, key, w)
      ensures !found ==> Fruitless(g, w, visited, visited') && key in visited'
      decreases roles.Keys - visited, 1
    {
      visited' := visited;
      if key in visited { return false, visited'; }
      visited' := visited + {key};
      var grants := roles[key].grants;
      for i := 0 to |grants|
        invariant forall k :: 0 <= k < i ==> !Meets(grants[k], w)
      {
        var x := grants[i];
        if (x.privilege == w.privilege || x.privilege == "ALL") &&
           x.objectType == w.objectType && x.objectName == w.objectName {
          ReachesSelf(g, key);
          assert Allows(g, key, w);
          return true, visited';
        }
      }
      var todo := roles.Keys;
      while todo != {}
        invariant todo <= roles.Keys
        invariant Fruitless(g, w, visited + {key}, visited')
        invariant forall c :: c in roles.Keys - todo && key in Parents(g, c) ==> c in visited'
        decreases todo
      {
        var k :| k in todo;
        todo := todo - {k};
        ghost var seen := visited';
        found, visited' := VisitChild(key, k, w, visited', g);
        if found { return true, visited'; }
        FruitlessTwice(g, w, visited + {key}, seen, visited');
      }
      FruitlessFrom(g, w, key, visited, visited');
      return false, visited';
    }

    /** The inner loop: one recursive search for every mention of key among the
        role's parents; all but the first return at once. */
    method VisitChild(key: string, k: string, w: Want, visited: set<string>, ghost g: Graph)
        returns (found: bool, visited': set<string>)
      requires Shows(g) && k in roles && key in visited && key in roles
      ensures found ==> Holds(g, key, w)
      ensures !found ==> Fruitless(g, w, visited, visited') && (key in Parents(g, k) ==> k in visited')
      decreases roles.Keys - (visited - {key}), 0
    {
      visited' := visited;
      var parents := roles[k].parents;
      for i := 0 to |parents|
        invariant Fruitless(g, w, visited, visited')
        invariant forall m :: 0 <= m < i && parents[m] == key ==> k in visited'
      {
        if parents[i] == key {
          ghost var seen := visited';
          found, visited' := RoleHasPrivilege(roles[k].name, w, visited', g);
          if found {
            HoldsUp(g, k, key, w);
            return true, visited';
          }
          FruitlessTwice(g, w, visited, seen, visited');
        }
      }
      return false, visited';
    }

    /** CheckAccess decides access, whatever the shape of the graph, cycles
        included, and whatever order the map of roles is walked in. */
    method CheckAccess(userName: string, roleName: string, privilege: string, objectType: string, objectName: string)
        returns (granted: bool)
      requires Valid()
      ensures granted <==>
        Access(View(), ToUpper(userName), ToUpper(roleName), Want(privilege, objectType, ToUpper(objectName)))
    {
      var user, role := ToUpper(userName), ToUpper(roleName);
      var w := Want(privilege, objectType, ToUpper(objectName));
      ghost var g := View();
      assert Shows(g);
      var has := UserHasRole(user, role, g);
      if !has { return false; }
      HeldRoleExists(g, user, role);
      var visited;
      granted, visited := RoleHasPrivilege(role, w, {}, g);
      if !granted { FruitlessMisses(g, w, role, visited); }
    }
  }

  // ---- What the searches leave behind ----

  /** Everything newly visited has had its parents visited, and target is not there. */
  ghost predicate Exhausted(g: Graph, target: string, before: set<string>, after: set<string>) {
    && before <= after && target !in after - before
    && forall n, p :: n in after - before && p in Parents(g, n) ==> p in after
  }

  lemma ExhaustedTwice(g: Graph, target: string, a: set<string>, b: set<string>, c: set<string>)
    requires Exhausted(g, target, a, b) && Exhausted(g, target, b, c)
    ensures Exhausted(g, target, a, c)
  {
    forall n, p | n in c - a && p in Parents(g, n) ensures p in c {
      if n in b { assert n in b - a; } else { assert n in c - b; }
    }
  }

  lemma ExhaustedFrom(g: Graph, target: string, current: string, a: set<string>, b: set<string>)
    requires Exhausted(g, target, a + {current}, b) && current != target && current in g.roles
    requires forall k :: 0 <= k < |g.roles[current].parents| ==> g.roles[current].parents[k] in b
    ensures Exhausted(g, target, a, b)
  {
    forall n, p | n in b - a && p in Parents(g, n) ensures p in b {
      if n != current { assert n in b - (a + {current}); }
    }
  }

  lemma ExhaustedMisses(g: Graph, target: string, start: string, b: set<string>)
    requires Exhausted(g, target, {}, b) && start in b
    ensures !Reaches(g, start, target)
  {
    assert b - {} == b;
    if Reaches(g, start, target) { NoEscapeUp(g, b, start, target); }
  }

  ghost predicate Holds(g: Graph, role: string, w: Want) {
    exists q :: Reaches(g, q, role) && Allows(g, q, w)
  }

  lemma HoldsUp(g: Graph, k: string, key: string, w: Want)
    requires Holds(g, k, w) && key in Parents(g, k)
    ensures Holds(g, key, w)
  {
    var q :| Reaches(g, q, k) && Allows(g, q, w);
    ReachesOn(g, q, k, key);
  }

  /** Everything newly visited grants nothing and has had its children visited. */
  ghost predicate Fruitless(g: Graph, w: Want, before: set<string>, after: set<string>) {
    && before <= after
    && (forall n :: n in after - before ==> !Allows(g, n, w))
    && forall n, c :: n in after - before && n in Parents(g, c) ==> c in after
  }

  lemma FruitlessTwice(g: Graph, w: Want, a: set<string>, b: set<string>, c: set<string>)
    requires Fruitless(g, w, a, b) && Fruitless(g, w, b, c)
    ensures Fruitless(g, w, a, c)
  {
    forall n | n in c - a
      ensures !Allows(g, n, w)
      ensures forall d :: n in Parents(g, d) ==> d in c
    {
      if n in b { assert n in b - a; } else { assert n in c - b; }
    }
  }

  lemma FruitlessFrom(g: Graph, w: Want, key: string, a: set<string>, b: set<string>)
    requires Fruitless(g, w, a + {key}, b) && key in g.roles
    requires forall i :: 0 <= i < |g.roles[key].grants| ==> !Meets(g.roles[key].grants[i], w)
    requires forall c :: c in g.roles.Keys && key in Parents(g, c) ==> c in b
    ensures Fruitless(g, w, a, b)
  {
    forall n | n in b - a
      ensures !Allows(g, n, w)
      ensures forall d :: n in Parents(g, d) ==> d in b
    {
      if n != key { assert n in b - (a + {key}); }
    }
  }

  lemma FruitlessMisses(g: Graph, w: Want, role: string, b: set<string>)
    requires Fruitless(g, w, {}, b) && role in b
    ensures !Holds(g, role, w)
  {
    assert b - {} == b;
    forall q | Reaches(g, q, role) ensures !Allows(g, q, w) { NoEscapeDown(g, b, q, role); }
  }

  lemma HeldRoleExists(g: Graph, user: string, role: string)
    requires Inv(g) && exists r :: r in UserRoles(g, user) && Reaches(g, r, role)
    ensures role in g.roles
  {
    var r :| r in UserRoles(g, user) && Reaches(g, r, role);
    NoEscapeUp(g, g.roles.Keys, r, role);
  }

  lemma CreatedShape(g: Graph, x: string, h: Graph)
    requires Inv(g) && x !in g.roles
    requires h.roles.Keys == g.roles.Keys + {x} && h.users == g.users && h.roles[x] == RoleData([], [])
    requires forall k :: k in g.roles ==> h.roles[k] == g.roles[k]
    ensures Inv(h) && Apply(g, RoleGraph.CreateRole(x)) == h && Outcome(g, RoleGraph.CreateRole(x)).Ok?
  {
    assert h.roles == g.roles[x := RoleData([], [])];
    ApplyKeepsInv(g, RoleGraph.CreateRole(x));
  }

  lemma RevokedShape(g: Graph, x: Grant, key: string, h: Graph)
    requires Inv(g) && key in g.roles && HasGrant(g.roles[key].grants, x)
    requires h.roles.Keys == g.roles.Keys && h.users == g.users
    requires h.roles[key] == RoleData(WithoutGrant(g.roles[key].grants, x), g.roles[key].parents)
    requires forall k :: k in g.roles && k != key ==> h.roles[k] == g.roles[k]
    ensures var op := RoleGraph.RevokePrivilege(x, key);
      Inv(h) && Apply(g, op) == h && Outcome(g, op).Ok?
  {
    ApplyKeepsInv(g, RoleGraph.RevokePrivilege(x, key));
    assert h.roles == g.roles[key := RoleData(WithoutGrant(g.roles[key].grants, x), g.roles[key].parents)];
  }

  lemma MinusShape(g: Graph, x: string, h: Graph)
    requires Inv(g) && x in g.roles
    requires h.roles.Keys == g.roles.Keys - {x} && h.users.Keys == g.users.Keys
    requires forall k :: k in h.roles ==>
      h.roles[k].grants == g.roles[k].grants && h.roles[k].parents == Without(g.roles[k].parents, x)
    requires forall u :: u in h.users ==> h.users[u] == Without(g.users[u], x)
    ensures Inv(h) && Apply(g, RoleGraph.DropRole(x)) == h && Outcome(g, RoleGraph.DropRole(x)).Ok?
  {
    MinusInv(g, x);
    assert h.roles == Minus(g, x).roles;
    assert h.users == Minus(g, x).users;
  }

  lemma WithoutFirst(s: seq<string>, x: string)
    requires s != []
    ensures Without(s, x) == (if s[0] == x then [] else [s[0]]) + Without(s[1..], x)
  {
  }

  lemma {:induction false} WithoutAppend(s: seq<string>, y: string, x: string)
    ensures Without(s + [y], x) == Without(s, x) + if y == x then [] else [y]
  {
    var t := s + [y];
    WithoutFirst(t, x);
    if s == [] {
      assert t == [y] && t[1..] == [];
    } else {
      var rest := s[1..];
      WithoutAppend(rest, y, x);
      WithoutFirst(s, x);
      assert t[0] == s[0] && t[1..] == rest + [y];
      AppendAssoc(if s[0] == x then [] else [s[0]], Without(rest, x), if y == x then [] else [y]);
    }
  }

  /** What the compaction of a grant list has after i entries. */
  predicate Compacted(s: seq<Grant>, i: int, x: Grant, found: bool, filtered: seq<Grant>) {
    0 <= i <= |s| && filtered == WithoutGrant(s[..i], x) && (found <==> HasGrant(s[..i], x))
  }

  lemma CompactedNext(s: seq<Grant>, i: nat, x: Grant, found: bool, filtered: seq<Grant>)
    requires i < |s| && Compacted(s, i, x, found, filtered)
    ensures if SameGrant(s[i], x) then Compacted(s, i + 1, x, true, filtered)
            else Compacted(s, i + 1, x, found, filtered + [s[i]])
  {
    WithoutGrantNext(s, i, x);
    HasGrantNext(s[..i], s[i], s[..i + 1], x);
  }

  lemma HasGrantNext(init: seq<Grant>, y: Grant, s: seq<Grant>, x: Grant)
    requires s == init + [y]
    ensures HasGrant(s, x) <==> HasGrant(init, x) || SameGrant(y, x)
  {
    assert s[|init|] == y && forall i :: 0 <= i < |init| ==> s[i] == init[i];
  }

  lemma CompactedAll(s: seq<Grant>, x: Grant, found: bool, filtered: seq<Grant>)
    requires Compacted(s, |s|, x, found, filtered)
    ensures filtered == WithoutGrant(s, x) && found == HasGrant(s, x)
  {
    assert s[..|s|] == s;
  }

  lemma WithoutGrantNext(s: seq<Grant>, i: nat, x: Grant)
    requires i < |s|
    ensures WithoutGrant(s[..i + 1], x) ==
      if SameGrant(s[i], x) then WithoutGrant(s[..i], x) else WithoutGrant(s[..i], x) + [s[i]]
  {
    var init := s[..i];
    assert s[..i + 1] == init + [s[i]];
    WithoutGrantAppend(init, s[i], x);
    assert WithoutGrant(init, x) + [] == WithoutGrant(init, x);
  }

  lemma {:induction false} WithoutGrantAppend(s: seq<Grant>, y: Grant, x: Grant)
    ensures WithoutGrant(s + [y], x) == WithoutGrant(s, x) + if SameGrant(y, x) then [] else [y]
  {
    if s == [] {
      assert s + [y] == [y];
    } else {
      assert (s + [y])[1..] == s[1..] + [y];
      WithoutGrantAppend(s[1..], y, x);
    }
  }
}
