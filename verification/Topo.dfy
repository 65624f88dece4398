/** The role order of an inference service (operator/internal/controller/topo.go):
    Kahn's algorithm over `dependsOn`, with the endpoint role deferred to the end. */
module Topo {

  /** One role: `dependsOn` may repeat a name. */
  datatype Role = Role(name: string, dependsOn: seq<string>)

  datatype Outcome =
    | Ordered(order: seq<string>)
    | UnknownRole(role: string, dep: string)
    | Cycle

  function Names(roles: seq<Role>): (names: seq<string>)
    ensures |names| == |roles|
    ensures forall i :: 0 <= i < |roles| ==> names[i] == roles[i].name
  {
    seq(|roles|, i requires 0 <= i < |roles| => roles[i].name)
  }

  ghost predicate UniqueNames(roles: seq<Role>) {
    forall i, j :: 0 <= i < j < |roles| ==> roles[i].name != roles[j].name
  }

  ghost predicate Known(roles: seq<Role>, name: string) {
    name in Names(roles)
  }

  /** Every dependency names a declared role. */
  ghost predicate Resolves(roles: seq<Role>) {
    forall r, d :: r in roles && d in r.dependsOn ==> Known(roles, d)
  }

  ghost predicate DependedOn(roles: seq<Role>, name: string) {
    exists r :: r in roles && name in r.dependsOn
  }

  /** A non-empty set of roles, each of which depends on a member of the set. */
  ghost predicate IsCycle(roles: seq<Role>, s: set<string>) {
    && s != {}
    && (forall x :: x in s ==> Known(roles, x))
    && (forall r :: r in roles && r.name in s ==> exists d :: d in r.dependsOn && d in s)
  }

  ghost predicate HasCycle(roles: seq<Role>) {
    exists s :: IsCycle(roles, s)
  }

  ghost predicate NoRepeat(s: seq<string>) {
    forall x :: Count(s, x) <= 1
  }

  /** Each role comes after everything it depends on. */
  ghost predicate DependenciesFirst(roles: seq<Role>, order: seq<string>) {
    forall i, r, d :: 0 <= i < |order| && r in roles && r.name == order[i] && d in r.dependsOn
      ==> d in order[..i]
  }

  /** A linear extension of `dependsOn`: what a successful call promises. */
  ghost predicate IsTopologicalOrder(roles: seq<Role>, order: seq<string>) {
    && multiset(order) == multiset(Names(roles))
    && DependenciesFirst(roles, order)
  }

  // ---------------------------------------------------------------- counting

  /** How many entries of `deps` are still outside `done`. */
  ghost function Pending(deps: seq<string>, done: seq<string>): (n: nat)
    ensures n == 0 <==> forall d :: d in deps ==> d in done
  {
    if deps == [] then 0
    else (if deps[0] in done then 0 else 1) + Pending(deps[1..], done)
  }

  ghost function Count(s: seq<string>, x: string): nat { multiset(s)[x] }

  lemma CountCons(s: seq<string>, x: string)
    requires s != []
    ensures Count(s, x) == (if s[0] == x then 1 else 0) + Count(s[1..], x)
  {
    assert s == [s[0]] + s[1..];
  }

  lemma CountSnoc(s: seq<string>, y: string, x: string)
    ensures Count(s + [y], x) == Count(s, x) + if x == y then 1 else 0
  {}

  /** Placing one more role lowers the count by its multiplicity. */
  lemma {:induction false} PendingPlace(deps: seq<string>, done: seq<string>, name: string)
    requires name !in done
    ensures Pending(deps, done + [name]) == Pending(deps, done) - Count(deps, name)
  {
    if deps != [] {
      PendingPlace(deps[1..], done, name);
      CountCons(deps, name);
    }
  }

  lemma {:induction false} PendingNone(deps: seq<string>)
    ensures Pending(deps, []) == |deps|
  {
    if deps != [] { PendingNone(deps[1..]); }
  }

  // ------------------------------------------------- orders and cycles exclude

  lemma InSlice(order: seq<string>, i: int, x: string) returns (j: int)
    requires 0 <= i <= |order| && x in order[..i]
    ensures 0 <= j < i && order[j] == x
  {
    j :| 0 <= j < i && order[..i][j] == x;
  }

  /** No member of a cycle can be placed by a dependency-first list. */
  lemma {:induction false} CycleNotPlaced(roles: seq<Role>, s: set<string>, order: seq<string>, i: nat)
    requires IsCycle(roles, s) && DependenciesFirst(roles, order) && i < |order|
    ensures order[i] !in s
    decreases i
  {
    if order[i] in s {
      var r :| r in roles && r.name == order[i];
      var d :| d in r.dependsOn && d in s;
      var j := InSlice(order, i, d);
      CycleNotPlaced(roles, s, order, j);
    }
  }

  /** A topological order and a cycle cannot both exist. */
  lemma OrderExcludesCycle(roles: seq<Role>, order: seq<string>)
    requires IsTopologicalOrder(roles, order)
    ensures !HasCycle(roles)
  {
    if HasCycle(roles) {
      var s :| IsCycle(roles, s);
      var x :| x in s;
      assert x in multiset(order);
      var i :| 0 <= i < |order| && order[i] == x;
      CycleNotPlaced(roles, s, order, i);
    }
  }

  // ---------------------------------------------------------------- the loop

  /** The sets and counters of the worklist loop agree with what is placed. */
  ghost predicate LoopInv(roles: seq<Role>, indegree: map<string, int>, queue: seq<string>, order: seq<string>) {
    && NoRepeat(queue + order)
    && (forall x :: x in queue + order ==> Known(roles, x))
    && (forall r :: r in roles ==> r.name in indegree && indegree[r.name] == Pending(r.dependsOn, order))
    && (forall r :: r in roles ==> (r.name in queue + order <==> Pending(r.dependsOn, order) == 0))
    && DependenciesFirst(roles, order)
  }

  lemma {:induction false} NamesNoRepeat(roles: seq<Role>)
    requires UniqueNames(roles)
    ensures NoRepeat(Names(roles))
  {
    if roles != [] {
      var t := roles[..|roles| - 1];
      NamesNoRepeat(t);
      var last := roles[|roles| - 1].name;
      assert Names(roles) == Names(t) + [last];
      assert forall x :: Count(Names(roles), x) == Count(Names(t), x) + if x == last then 1 else 0;
      assert last !in Names(t);
    }
  }

  lemma NoRepeatSubset(a: seq<string>, b: seq<string>)
    requires NoRepeat(a) && forall x :: x in a ==> x in b
    ensures |a| <= |b|
    ensures |a| == |b| ==> multiset(a) == multiset(b)
  {
    forall x ensures multiset(a)[x] <= multiset(b)[x] { assert Count(a, x) <= 1; if x in a { assert x in b; } }
    assert multiset(b) == multiset(a) + (multiset(b) - multiset(a));
    assert |multiset(a)| == |a| && |multiset(b)| == |b|;
    if |a| == |b| { assert |multiset(b) - multiset(a)| == 0; }
  }

  lemma KnownRole(roles: seq<Role>, name: string) returns (r: Role)
    requires Known(roles, name)
    ensures r in roles && r.name == name
  {
    var i :| 0 <= i < |roles| && Names(roles)[i] == name;
    r := roles[i];
  }

  lemma RoleKnown(roles: seq<Role>, r: Role)
    requires r in roles
    ensures Known(roles, r.name)
  {
    var i :| 0 <= i < |roles| && roles[i] == r;
    assert Names(roles)[i] == r.name;
  }

  /** When the queue runs dry before every role is placed, the rest is a cycle. */
  lemma LeftoverIsCycle(roles: seq<Role>, indegree: map<string, int>, order: seq<string>)
    requires Resolves(roles) && UniqueNames(roles)
    requires LoopInv(roles, indegree, [], order)
    ensures |order| <= |roles|
    ensures |order| == |roles| ==> IsTopologicalOrder(roles, order)
    ensures |order| != |roles| ==> HasCycle(roles)
  {
    assert [] + order == order;
    NoRepeatSubset(order, Names(roles));
    if |order| != |roles| {
      var rest := set r | r in roles && r.name !in order :: r.name;
      if rest == {} {
        forall x | x in Names(roles) ensures x in order {
          var r := KnownRole(roles, x);
          assert r.name !in rest;
        }
        NamesNoRepeat(roles);
        NoRepeatSubset(Names(roles), order);
        assert false;
      }
      forall r | r in roles && r.name in rest
        ensures exists d :: d in r.dependsOn && d in rest
      {
        assert Pending(r.dependsOn, order) != 0;
        var d :| d in r.dependsOn && d !in order;
        var _ := KnownRole(roles, d);
      }
      forall x | x in rest ensures Known(roles, x) {
        var r :| r in roles && r.name !in order && r.name == x;
        RoleKnown(roles, r);
      }
      assert IsCycle(roles, rest);
    }
  }

  function Lookup(m: map<string, seq<string>>, k: string): seq<string> {
    if k in m then m[k] else []
  }

  /** `dependents` reverses `dependsOn` of the first n roles, repeats included. */
  ghost predicate Reverses(roles: seq<Role>, n: nat, dependents: map<string, seq<string>>)
    requires n <= |roles|
  {
    && (forall i, d :: 0 <= i < n ==> Count(Lookup(dependents, d), roles[i].name) == Count(roles[i].dependsOn, d))
    && (forall d, x :: x in Lookup(dependents, d) ==> exists i :: 0 <= i < n && roles[i].name == x)
  }

  /** `after` has one more `name` per entry of `deps`, under that entry. */
  ghost predicate Appended(before: map<string, seq<string>>, after: map<string, seq<string>>, name: string,
                           deps: seq<string>) {
    && (forall d, x ::
          Count(Lookup(after, d), x) == Count(Lookup(before, d), x) + if x == name then Count(deps, d) else 0)
    && (forall d, x :: x in Lookup(after, d) ==> x in Lookup(before, d) || x == name)
  }

  lemma AppendedStep(before: map<string, seq<string>>, mid: map<string, seq<string>>, name: string, deps: seq<string>,
                     d: string)
    requires Appended(before, mid, name, deps)
    ensures Appended(before, mid[d := Lookup(mid, d) + [name]], name, deps + [d])
  {
    var after := mid[d := Lookup(mid, d) + [name]];
    forall e, x
      ensures Count(Lookup(after, e), x) == Count(Lookup(before, e), x) + if x == name then Count(deps + [d], e) else 0
    {
      CountSnoc(deps, d, e);
      CountSnoc(Lookup(mid, d), name, x);
      if e != d { assert Lookup(after, e) == Lookup(mid, e); }
    }
    forall e, x | x in Lookup(after, e) ensures x in Lookup(before, e) || x == name {
      if e != d { assert Lookup(after, e) == Lookup(mid, e); }
    }
  }

  /** One role's entries appended to `dependents`, one per `dependsOn` entry. */
  method AddRole(dependents0: map<string, seq<string>>, dependedOn0: set<string>, name: string, deps: seq<string>)
    returns (dependents: map<string, seq<string>>, dependedOn: set<string>)
    ensures Appended(dependents0, dependents, name, deps)
    ensures forall d :: d in dependedOn <==> d in dependedOn0 || d in deps
  {
    dependents, dependedOn := dependents0, dependedOn0;
    assert deps[..0] == [] && forall d :: Count([], d) == 0;
    for k := 0 to |deps|
      invariant Appended(dependents0, dependents, name, deps[..k])
      invariant forall d :: d in dependedOn <==> d in dependedOn0 || d in deps[..k]
    {
      var d := deps[k];
      assert deps[..k + 1] == deps[..k] + [d];
      AppendedStep(dependents0, dependents, name, deps[..k], d);
      dependents := dependents[d := Lookup(dependents, d) + [name]];
      dependedOn := dependedOn + {d};
    }
    assert deps[..|deps|] == deps;
  }

  method BuildGraph(roles: seq<Role>)
    returns (dependents: map<string, seq<string>>, indegree: map<string, int>, dependedOn: set<string>)
    requires UniqueNames(roles)
    ensures Reverses(roles, |roles|, dependents)
    ensures forall r :: r in roles ==> r.name in indegree && indegree[r.name] == |r.dependsOn|
    ensures forall x :: x in dependedOn <==> DependedOn(roles, x)
  {
    dependents, indegree, dependedOn := map[], map[], {};
    for n := 0 to |roles|
      invariant Reverses(roles, n, dependents)
      invariant forall i :: 0 <= i < n ==> roles[i].name in indegree && indegree[roles[i].name] == |roles[i].dependsOn|
      invariant forall x :: x in dependedOn <==> exists i :: 0 <= i < n && x in roles[i].dependsOn
    {
      ghost var before := dependents;
      indegree := indegree[roles[n].name := |roles[n].dependsOn|];
      dependents, dependedOn := AddRole(dependents, dependedOn, roles[n].name, roles[n].dependsOn);
      ReversesStep(roles, n, before, dependents);
    }
  }

  lemma ReversesStep(roles: seq<Role>, n: nat, before: map<string, seq<string>>, after: map<string, seq<string>>)
    requires n < |roles| && UniqueNames(roles) && Reverses(roles, n, before)
    requires Appended(before, after, roles[n].name, roles[n].dependsOn)
    ensures Reverses(roles, n + 1, after)
  {
    forall i, d | 0 <= i < n + 1
      ensures Count(Lookup(after, d), roles[i].name) == Count(roles[i].dependsOn, d)
    {
      if i == n { assert roles[n].name !in Lookup(before, d); }
    }
  }

  /** The state while the dependents of the role just placed are being released:
      `todo` are the entries not yet counted down. */
  ghost predicate Releasing(roles: seq<Role>, todo: seq<string>, indegree: map<string, int>,
                            queue: seq<string>, placed: seq<string>)
  {
    && NoRepeat(queue + placed)
    && (forall x :: x in queue + placed ==> Known(roles, x))
    && (forall r :: r in roles ==> r.name in indegree)
    && (forall r :: r in roles ==> indegree[r.name] == Pending(r.dependsOn, placed) + Count(todo, r.name))
    && (forall r :: r in roles ==> (r.name in queue + placed <==> indegree[r.name] == 0))
  }

  lemma ReleaseStart(roles: seq<Role>, todo: seq<string>, name: string, indegree: map<string, int>,
                     queue: seq<string>, order: seq<string>)
    requires forall r :: r in roles ==> Count(todo, r.name) == Count(r.dependsOn, name)
    requires LoopInv(roles, indegree, queue + [name], order)
    ensures Releasing(roles, todo, indegree, queue, order + [name])
  {
    var placed := order + [name];
    var all := (queue + [name]) + order;
    assert forall x :: Count(queue + placed, x) == Count(all, x);
    assert forall x :: x in queue + placed <==> x in all;
    assert name !in order by { assert Count(all, name) <= 1; }
    forall r | r in roles
      ensures Pending(r.dependsOn, placed) == Pending(r.dependsOn, order) - Count(r.dependsOn, name)
    {
      PendingPlace(r.dependsOn, order, name);
    }
  }

  lemma ReleaseStep(roles: seq<Role>, todo: seq<string>, indegree: map<string, int>,
                    queue: seq<string>, placed: seq<string>)
    requires UniqueNames(roles) && todo != [] && Known(roles, todo[0])
    requires Releasing(roles, todo, indegree, queue, placed)
    ensures todo[0] in indegree
    ensures var n := indegree[todo[0]] - 1;
            Releasing(roles, todo[1..], indegree[todo[0] := n], if n == 0 then queue + [todo[0]] else queue, placed)
  {
    var dep := todo[0];
    var r := KnownRole(roles, dep);
    var n := indegree[dep] - 1;
    forall q | q in roles ensures Count(todo, q.name) == (if q.name == dep then 1 else 0) + Count(todo[1..], q.name) {
      CountCons(todo, q.name);
    }
    assert dep !in queue + placed;
    var more := queue + [dep];
    assert forall x :: Count(more + placed, x) == Count(queue + placed, x) + if x == dep then 1 else 0;
    assert forall x :: x in more + placed <==> x == dep || x in queue + placed;
  }

  /** Placing `name` lowers the counters of its dependents and queues those that reach zero. */
  method Release(roles: seq<Role>, dependents: seq<string>, name: string, indegree0: map<string, int>,
                 queue0: seq<string>, order: seq<string>)
    returns (indegree: map<string, int>, queue: seq<string>)
    requires forall r :: r in roles ==> Count(dependents, r.name) == Count(r.dependsOn, name)
    requires forall x :: x in dependents ==> Known(roles, x)
    requires UniqueNames(roles)
    requires LoopInv(roles, indegree0, queue0 + [name], order)
    ensures LoopInv(roles, indegree, queue, order + [name])
    ensures dependents == [] ==> queue == queue0
  {
    indegree, queue := indegree0, queue0;
    ReleaseStart(roles, dependents, name, indegree, queue, order);
    for j := 0 to |dependents|
      invariant Releasing(roles, dependents[j..], indegree, queue, order + [name])
      invariant j == 0 ==> queue == queue0
    {
      var dep := dependents[j];
      assert dependents[j..][0] == dep && dependents[j..][1..] == dependents[j + 1..];
      ReleaseStep(roles, dependents[j..], indegree, queue, order + [name]);
      indegree := indegree[dep := indegree[dep] - 1];
      if indegree[dep] == 0 {
        queue := queue + [dep];
      }
    }
    PlaceKeepsOrder(roles, indegree0, queue0, name, order);
  }

  lemma PlaceKeepsOrder(roles: seq<Role>, indegree: map<string, int>, queue: seq<string>, name: string,
                        order: seq<string>)
    requires LoopInv(roles, indegree, queue + [name], order)
    ensures DependenciesFirst(roles, order + [name])
  {
    var placed := order + [name];
    forall i, r, d | 0 <= i < |placed| && r in roles && r.name == placed[i] && d in r.dependsOn
      ensures d in placed[..i]
    {
      if i < |order| {
        assert placed[..i] == order[..i];
      } else {
        assert name in (queue + [name]) + order;
        assert placed[..i] == order;
      }
    }
  }

  /** The unknown-reference scan: the first dependency that names no declared role. */
  method FindUnknown(roles: seq<Role>, known: set<string>) returns (found: bool, role: string, dep: string)
    requires forall x :: x in known <==> Known(roles, x)
    ensures found <==> !Resolves(roles)
    ensures found ==> exists r :: r in roles && r.name == role && dep in r.dependsOn && !Known(roles, dep)
  {
    for i := 0 to |roles|
      invariant forall j, d :: 0 <= j < i && d in roles[j].dependsOn ==> Known(roles, d)
    {
      var deps := roles[i].dependsOn;
      for k := 0 to |deps|
        invariant forall d :: d in deps[..k] ==> Known(roles, d)
      {
        if deps[k] !in known {
          assert roles[i] in roles;
          return true, roles[i].name, deps[k];
        }
      }
      assert deps[..|deps|] == deps;
    }
    return false, "", "";
  }

  method InitialQueue(roles: seq<Role>, indegree: map<string, int>) returns (queue: seq<string>)
    requires UniqueNames(roles)
    requires forall r :: r in roles ==> r.name in indegree && indegree[r.name] == |r.dependsOn|
    ensures LoopInv(roles, indegree, queue, [])
  {
    queue := [];
    for i := 0 to |roles|
      invariant NoRepeat(queue)
      invariant forall x :: x in queue <==> exists j :: 0 <= j < i && roles[j].name == x && roles[j].dependsOn == []
    {
      var name := roles[i].name;
      if indegree[name] == 0 {
        assert name !in queue;
        assert forall x :: Count(queue + [name], x) == Count(queue, x) + if x == name then 1 else 0;
        queue := queue + [name];
      }
    }
    assert queue + [] == queue;
    forall r | r in roles ensures Pending(r.dependsOn, []) == |r.dependsOn| { PendingNone(r.dependsOn); }
    forall x | x in queue ensures Known(roles, x) {
      var j :| 0 <= j < |roles| && roles[j].name == x;
      RoleKnown(roles, roles[j]);
    }
  }

  /** Moving the last queued role to the front changes nothing the loop relies on. */
  lemma Defer(roles: seq<Role>, indegree: map<string, int>, rest: seq<string>, name: string, order: seq<string>)
    requires LoopInv(roles, indegree, rest + [name], order)
    ensures LoopInv(roles, indegree, [name] + rest, order)
    ensures name !in rest
  {
    var a, b := (rest + [name]) + order, ([name] + rest) + order;
    assert forall x :: Count(b, x) == Count(a, x);
    assert forall x :: x in b <==> x in a;
    assert Count(a, name) <= 1;
  }

  lemma PlacedBound(roles: seq<Role>, indegree: map<string, int>, queue: seq<string>, order: seq<string>)
    requires LoopInv(roles, indegree, queue, order)
    ensures |order| <= |roles|
  {
    forall x ensures Count(order, x) <= Count(queue + order, x) {}
    assert forall x :: x in order ==> x in queue + order;
    NoRepeatSubset(order, Names(roles));
  }

  /** topoOrder: total for unique role names, and exact.  Repeated `dependsOn`
      entries are allowed and change nothing in what is promised. */
  method TopoOrder(roles: seq<Role>, endpointRole: string) returns (out: Outcome)
    requires UniqueNames(roles)
    ensures out.UnknownRole? <==> !Resolves(roles)
    ensures out.UnknownRole? ==>
              exists r :: r in roles && r.name == out.role && out.dep in r.dependsOn && !Known(roles, out.dep)
    ensures out.Cycle? <==> Resolves(roles) && HasCycle(roles)
    ensures out.Ordered? ==> IsTopologicalOrder(roles, out.order)
    ensures out.Ordered? && Known(roles, endpointRole) && !DependedOn(roles, endpointRole) ==>
              IsLast(endpointRole, out.order)
  {
    hide LoopInv, Reverses, IsCycle, DependenciesFirst;
    var known := set r | r in roles :: r.name;
    forall x ensures x in known <==> Known(roles, x) {
      if x in known { var r :| r in roles && r.name == x; RoleKnown(roles, r); }
      if Known(roles, x) { var r := KnownRole(roles, x); }
    }
    var found, role, dep := FindUnknown(roles, known);
    if found { return UnknownRole(role, dep); }
    var dependents, indegree, dependedOn := BuildGraph(roles);
    var queue := InitialQueue(roles, indegree);
    var order := [];
    while |queue| > 0
      invariant LoopInv(roles, indegree, queue, order)
      invariant |order| <= |roles|
      invariant endpointRole !in dependedOn && endpointRole in order ==> queue == [] && IsLast(endpointRole, order)
      decreases |roles| - |order|, if |queue| > 1 && queue[|queue| - 1] == endpointRole then 1 else 0
    {
      var name := queue[|queue| - 1];
      var rest := queue[..|queue| - 1];
      assert queue == rest + [name];
      if name == endpointRole && name !in dependedOn && |rest| > 0 {
        Defer(roles, indegree, rest, name, order);
        assert rest[|rest| - 1] in rest;
        queue := [name] + rest;
      } else {
        Dependents(roles, dependents, name);
        indegree, queue := Release(roles, Lookup(dependents, name), name, indegree, rest, order);
        order := order + [name];
        PlacedBound(roles, indegree, queue, order);
      }
    }
    LeftoverIsCycle(roles, indegree, order);
    if |order| != |roles| { return Cycle; }
    OrderExcludesCycle(roles, order);
    if Known(roles, endpointRole) { assert endpointRole in multiset(order); }
    return Ordered(order);
  }

  ghost predicate IsLast(name: string, order: seq<string>) {
    |order| > 0 && order[|order| - 1] == name
  }

  lemma Dependents(roles: seq<Role>, dependents: map<string, seq<string>>, name: string)
    requires Reverses(roles, |roles|, dependents)
    ensures !DependedOn(roles, name) ==> Lookup(dependents, name) == []
    ensures forall r :: r in roles ==> Count(Lookup(dependents, name), r.name) == Count(r.dependsOn, name)
    ensures forall x :: x in Lookup(dependents, name) ==> Known(roles, x)
  {
    var deps := Lookup(dependents, name);
    forall x | x in deps ensures Known(roles, x) && DependedOn(roles, name) {
      var i :| 0 <= i < |roles| && roles[i].name == x;
      RoleKnown(roles, roles[i]);
      assert Count(deps, x) > 0;
    }
    if deps != [] { assert deps[0] in deps; }
  }

  /** The same roles, in the same places, with the same dependencies; either list may repeat one. */
  ghost predicate SameDependencies(a: seq<Role>, b: seq<Role>) {
    && |a| == |b|
    && (forall i :: 0 <= i < |a| ==> a[i].name == b[i].name)
    && (forall i, d :: 0 <= i < |a| ==> (d in a[i].dependsOn <==> d in b[i].dependsOn))
  }

  lemma NeedsMatch(a: seq<Role>, b: seq<Role>, r: Role) returns (q: Role)
    requires SameDependencies(a, b) && r in a
    ensures q in b && q.name == r.name && forall d :: d in r.dependsOn <==> d in q.dependsOn
  {
    var i :| 0 <= i < |a| && a[i] == r;
    q := b[i];
  }

  lemma RepeatsKeep(a: seq<Role>, b: seq<Role>, s: set<string>, order: seq<string>)
    requires SameDependencies(a, b)
    ensures Resolves(a) ==> Resolves(b)
    ensures IsCycle(a, s) ==> IsCycle(b, s)
    ensures IsTopologicalOrder(a, order) ==> IsTopologicalOrder(b, order)
  {
    assert Names(a) == Names(b) && SameDependencies(b, a);
    if Resolves(a) {
      forall r, d | r in b && d in r.dependsOn ensures Known(b, d) {
        var q := NeedsMatch(b, a, r);
        assert Known(a, d) by { assert q in a && d in q.dependsOn; }
      }
    }
    if IsCycle(a, s) {
      forall r | r in b && r.name in s ensures exists d :: d in r.dependsOn && d in s { var q := NeedsMatch(b, a, r); }
    }
    if DependenciesFirst(a, order) {
      forall i, r, d | 0 <= i < |order| && r in b && r.name == order[i] && d in r.dependsOn ensures d in order[..i] {
        var q := NeedsMatch(b, a, r);
      }
    }
  }

  /** Repeated `dependsOn` entries do not matter: the same lists resolve, have a cycle, or are orders. */
  lemma RepeatsDoNotMatter(a: seq<Role>, b: seq<Role>, order: seq<string>)
    requires SameDependencies(a, b)
    ensures (Resolves(a) <==> Resolves(b)) && (HasCycle(a) <==> HasCycle(b))
    ensures IsTopologicalOrder(a, order) <==> IsTopologicalOrder(b, order)
  {
    RepeatsKeep(a, b, {}, order);
    RepeatsKeep(b, a, {}, order);
    if s :| IsCycle(a, s) { RepeatsKeep(a, b, s, order); }
    if s :| IsCycle(b, s) { RepeatsKeep(b, a, s, order); }
  }
}
