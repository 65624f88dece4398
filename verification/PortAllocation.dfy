/** Drawing ports from the shared L4 pool (devenvironment_controller.go:4226-4232, 4588-4607). */
module PortAllocation {
  import opened Wrappers

  ghost predicate InRange(lo: int, hi: int, p: int) { lo <= p <= hi }

  /** The ports of the range nobody uses. */
  function Free(lo: int, hi: int, used: set<int>): set<int> {
    set p | lo <= p <= hi && p !in used
  }

  function Lowest(lo: int, hi: int, used: set<int>): (p: int)
    requires 1 <= lo
    ensures p == 0 <==> Free(lo, hi, used) == {}
    ensures p != 0 ==> p in Free(lo, hi, used) && forall q :: q in Free(lo, hi, used) ==> p <= q
    decreases hi - lo + 1
  {
    if lo > hi then 0
    else if lo !in used then
      assert lo in Free(lo, hi, used);
      lo
    else
      assert Free(lo, hi, used) == Free(lo + 1, hi, used);
      Lowest(lo + 1, hi, used)
  }

  /** allocatePort: the endpoint's own port while it is free and in range, else the lowest free one, else 0. */
  function Pick(lo: int, hi: int, used: set<int>, held: map<string, int>, name: string): (p: int)
    requires 1 <= lo
    ensures p == 0 <==> Free(lo, hi, used) == {}
    ensures p != 0 ==> p in Free(lo, hi, used)
  {
    if name in held && lo <= held[name] <= hi && held[name] !in used then
      assert held[name] in Free(lo, hi, used);
      held[name]
    else Lowest(lo, hi, used)
  }

  /** The allocation loop: one port per name, in order, or nothing when the range runs out. */
  function Allocate(lo: int, hi: int, used: set<int>, held: map<string, int>, names: seq<string>): (r: Option<seq<int>>)
    requires 1 <= lo
    ensures r.Some? ==> |r.value| == |names|
  {
    if names == [] then Some([])
    else
      var last := |names| - 1;
      match Allocate(lo, hi, used, held, names[..last])
      case None => None
      case Some(ps) =>
        var p := Pick(lo, hi, used + Values(ps), held, names[last]);
        if p == 0 then None else Some(ps + [p])
  }

  function Values(ps: seq<int>): set<int> { set i | 0 <= i < |ps| :: ps[i] }

  ghost predicate Distinct(ps: seq<int>) {
    forall i, j :: 0 <= i < j < |ps| ==> ps[i] != ps[j]
  }

  /** Every port handed out is in range and unused, and no two are the same. */
  lemma {:induction false} AllocateSound(lo: int, hi: int, used: set<int>, held: map<string, int>, names: seq<string>)
    requires 1 <= lo
    ensures var r := Allocate(lo, hi, used, held, names);
            r.Some? ==> Distinct(r.value) && Values(r.value) <= Free(lo, hi, used) && |Values(r.value)| == |names|
  {
    if names != [] {
      hide Pick, Free;
      var last := |names| - 1;
      AllocateSound(lo, hi, used, held, names[..last]);
      var r := Allocate(lo, hi, used, held, names[..last]);
      if r.Some? { OneMoreSound(lo, hi, used, r.value, Pick(lo, hi, used + Values(r.value), held, names[last])); }
    }
  }

  lemma OneMoreSound(lo: int, hi: int, used: set<int>, ps: seq<int>, p: int)
    requires Distinct(ps) && Values(ps) <= Free(lo, hi, used) && |Values(ps)| == |ps|
    requires p != 0 ==> p in Free(lo, hi, used + Values(ps))
    ensures p != 0 ==> Distinct(ps + [p]) && Values(ps + [p]) <= Free(lo, hi, used) && |Values(ps + [p])| == |ps| + 1
  {
    ValuesSnoc(ps, p);
    if p != 0 {
      assert p !in Values(ps);
      assert forall i :: 0 <= i < |ps| ==> ps[i] in Values(ps);
    }
  }

  lemma ValuesSnoc(ps: seq<int>, p: int)
    ensures Values(ps + [p]) == Values(ps) + {p}
  {
    forall q ensures q in Values(ps + [p]) <==> q in Values(ps) + {p} {
      if q in Values(ps) {
        var i :| 0 <= i < |ps| && ps[i] == q;
        assert (ps + [p])[i] == q;
      }
      assert (ps + [p])[|ps|] == p;
    }
  }

  /** No spurious exhaustion: the loop fails exactly when the names outnumber the free ports. */
  lemma {:induction false} AllocateFailsIff(lo: int, hi: int, used: set<int>, held: map<string, int>,
                                            names: seq<string>)
    requires 1 <= lo
    ensures Allocate(lo, hi, used, held, names).None? <==> |names| > |Free(lo, hi, used)|
  {
    if names != [] {
      var last := |names| - 1;
      AllocateFailsIff(lo, hi, used, held, names[..last]);
      AllocateSound(lo, hi, used, held, names[..last]);
      var r := Allocate(lo, hi, used, held, names[..last]);
      if r.Some? {
        var free, taken := Free(lo, hi, used), Values(r.value);
        assert Free(lo, hi, used + taken) == free - taken;
        assert |free - taken| == |free| - last;
        assert free - taken == {} <==> |free - taken| == 0;
      }
    }
  }

  ghost predicate Holds(held: map<string, int>, names: seq<string>, ps: seq<int>) {
    |ps| == |names| && forall i :: 0 <= i < |names| ==> names[i] in held && held[names[i]] == ps[i]
  }

  /** Endpoints that hold distinct free ports keep them. */
  lemma {:induction false} AllocateKeeps(lo: int, hi: int, used: set<int>, held: map<string, int>, names: seq<string>,
                                         ps: seq<int>)
    requires 1 <= lo
    requires Holds(held, names, ps) && Distinct(ps) && Values(ps) <= Free(lo, hi, used)
    ensures Allocate(lo, hi, used, held, names) == Some(ps)
  {
    if names == [] {
      assert ps == [];
    } else {
      var last := |names| - 1;
      var before := ps[..last];
      assert ps == before + [ps[last]];
      ValuesSnoc(before, ps[last]);
      AllocateKeeps(lo, hi, used, held, names[..last], before);
      assert ps[last] !in Values(before);
      assert ps[last] in Free(lo, hi, used);
    }
  }

  /** An endpoint keeps the port it holds exactly when that port is in range, unused, and not handed
      to a name listed before it. */
  lemma KeepsIffNotTaken(lo: int, hi: int, used: set<int>, held: map<string, int>, names: seq<string>, i: nat)
    requires 1 <= lo && i < |names| && names[i] in held
    requires Allocate(lo, hi, used, held, names).Some?
    ensures var ps, p := Allocate(lo, hi, used, held, names).value, held[names[i]];
            ps[i] == p <==> p in Free(lo, hi, used) && p !in Values(ps[..i])
  {
    PrefixAllocates(lo, hi, used, held, names, i + 1);
    PrefixAllocates(lo, hi, used, held, names, i);
    var ps := Allocate(lo, hi, used, held, names).value;
    assert names[..i + 1][..i] == names[..i];
    assert ps[..i + 1][..i] == ps[..i];
    assert ps[..i + 1] == ps[..i] + [Pick(lo, hi, used + Values(ps[..i]), held, names[i])];
    assert ps[i] == ps[..i + 1][i];
  }

  ghost predicate HeldBySome(held: map<string, int>, names: seq<string>, q: int) {
    exists k :: 0 <= k < |names| && names[k] in held && held[names[k]] == q
  }

  /** The name holds no free port of its own, or one below `p`: it draws from the ports below `p` while
      there are any. */
  ghost predicate DrawsLow(free: set<int>, held: map<string, int>, before: seq<string>, name: string, p: int) {
    name !in held || held[name] !in free || held[name] < p || HeldBySome(held, before, held[name])
  }

  /** How many of the names do. */
  ghost function LowDraws(free: set<int>, held: map<string, int>, names: seq<string>, p: int): nat {
    if names == [] then 0
    else
      var before, name := names[..|names| - 1], names[|names| - 1];
      LowDraws(free, held, before, p) + if DrawsLow(free, held, before, name, p) then 1 else 0
  }

  function Below(free: set<int>, p: int): set<int> { set q | q in free && q < p }

  /** While no more names draw low than there are ports below `p`, the loop has handed out that many of
      those, and above `p` what the names hold; after that, `p` is gone. */
  ghost predicate LowFirst(free: set<int>, held: map<string, int>, names: seq<string>, p: int, taken: set<int>) {
    if LowDraws(free, held, names, p) <= |Below(free, p)| then
      && p !in taken
      && |Below(free, p) * taken| == LowDraws(free, held, names, p)
      && forall q :: q > p ==> (q in taken <==> q in free && HeldBySome(held, names, q))
    else
      p in taken
  }

  lemma HeldSnoc(held: map<string, int>, names: seq<string>, name: string)
    ensures forall q :: HeldBySome(held, names + [name], q) <==>
              HeldBySome(held, names, q) || (name in held && held[name] == q)
  {
    var all := names + [name];
    assert all[|names|] == name && forall k :: 0 <= k < |names| ==> all[k] == names[k];
    forall q | HeldBySome(held, names, q) ensures HeldBySome(held, all, q) {
      var k :| 0 <= k < |names| && names[k] in held && held[names[k]] == q;
      assert all[k] == names[k];
    }
  }

  lemma {:induction false} AllocatesLowFirst(lo: int, hi: int, used: set<int>, held: map<string, int>,
                                             names: seq<string>, p: int)
    requires 1 <= lo && p in Free(lo, hi, used) && !HeldBySome(held, names, p)
    requires Allocate(lo, hi, used, held, names).Some?
    ensures LowFirst(Free(lo, hi, used), held, names, p, Values(Allocate(lo, hi, used, held, names).value))
  {
    hide Free, Pick, HeldBySome, LowFirst;
    var free := Free(lo, hi, used);
    if names == [] {
      NothingTaken(free, held, p);
    } else {
      var last := |names| - 1;
      var init := names[..last];
      assert names == init + [names[last]];
      HeldSnoc(held, init, names[last]);
      AllocatesLowFirst(lo, hi, used, held, init, p);
      var ps := Allocate(lo, hi, used, held, init).value;
      var q := Pick(lo, hi, used + Values(ps), held, names[last]);
      ValuesSnoc(ps, q);
      AllocateSound(lo, hi, used, held, init);
      PicksOwnOrLeast(lo, hi, used, Values(ps), held, names[last]);
      LowFirstStep(free, held, init, names[last], p, Values(ps), q);
    }
  }

  lemma NothingTaken(free: set<int>, held: map<string, int>, p: int)
    ensures LowFirst(free, held, [], p, Values([]))
  {
    assert Below(free, p) * Values([]) == {};
  }

  lemma PicksOwnOrLeast(lo: int, hi: int, used: set<int>, taken: set<int>, held: map<string, int>, name: string)
    requires 1 <= lo
    ensures var rest, q := Free(lo, hi, used) - taken, Pick(lo, hi, used + taken, held, name);
            && (q != 0 ==> q in rest)
            && (if name in held && held[name] in rest then q == held[name] else forall r :: r in rest ==> q <= r)
  {
    assert Free(lo, hi, used + taken) == Free(lo, hi, used) - taken;
  }

  /** One draw: the own port when it is free, else the least free one. */
  lemma LowFirstStep(free: set<int>, held: map<string, int>, names: seq<string>, name: string, p: int, taken: set<int>,
                     q: int)
    requires p in free && taken <= free && q in free - taken && !HeldBySome(held, names + [name], p)
    requires if name in held && held[name] in free - taken then q == held[name]
             else forall r :: r in free - taken ==> q <= r
    requires LowFirst(free, held, names, p, taken)
    ensures LowFirst(free, held, names + [name], p, taken + {q})
  {
    hide HeldBySome;
    assert (names + [name])[..|names|] == names;
    HeldSnoc(held, names, name);
    var below := Below(free, p);
    if LowDraws(free, held, names, p) <= |below| {
      if DrawsLow(free, held, names, name, p) {
        DrawsFromBelow(free, held, names, name, p, taken, q);
      } else {
        assert below * (taken + {q}) == below * taken;
      }
    }
  }

  lemma SomeLeft(below: set<int>, taken: set<int>)
    ensures |below * taken| <= |below|
    ensures |below * taken| == |below| <==> below <= taken
  {
    assert below == below * taken + (below - taken);
    if below <= taken { assert below * taken == below; }
    if |below * taken| == |below| { assert below - taken == {}; }
  }

  lemma DrawsFromBelow(free: set<int>, held: map<string, int>, names: seq<string>, name: string, p: int,
                       taken: set<int>, q: int)
    requires p in free && p !in taken && q in free - taken && DrawsLow(free, held, names, name, p)
    requires forall r :: r > p && r in free && HeldBySome(held, names, r) ==> r in taken
    requires name in held ==> held[name] != p
    requires if name in held && held[name] in free - taken then q == held[name]
             else forall r :: r in free - taken ==> q <= r
    ensures var below := Below(free, p);
            && |below * taken| <= |below|
            && (|below * taken| < |below| ==> q in below && |below * (taken + {q})| == |below * taken| + 1)
            && (|below * taken| == |below| ==> q == p)
  {
    var below := Below(free, p);
    SomeLeft(below, taken);
    if |below * taken| < |below| {
      var r :| r in below && r !in taken;
      assert r in free - taken;
      assert below * (taken + {q}) == below * taken + {q};
    } else {
      assert p in free - taken;
    }
  }

  /** A free port that some name holds is handed out, to it or to another. */
  lemma {:induction false} HeldIsHandedOut(lo: int, hi: int, used: set<int>, held: map<string, int>, names: seq<string>,
                                           p: int)
    requires 1 <= lo && p in Free(lo, hi, used) && HeldBySome(held, names, p)
    requires Allocate(lo, hi, used, held, names).Some?
    ensures p in Values(Allocate(lo, hi, used, held, names).value)
  {
    hide HeldBySome, Free, Pick;
    var last := |names| - 1;
    if names == [] {
      NobodyHolds(held, p);
    } else {
      var init := names[..last];
      assert names == init + [names[last]];
      HeldSnoc(held, init, names[last]);
      if HeldBySome(held, init, p) { HeldIsHandedOut(lo, hi, used, held, init, p); }
      var ps := Allocate(lo, hi, used, held, init).value;
      ValuesSnoc(ps, Pick(lo, hi, used + Values(ps), held, names[last]));
      PicksOwnOrLeast(lo, hi, used, Values(ps), held, names[last]);
    }
  }

  lemma NobodyHolds(held: map<string, int>, p: int)
    ensures !HeldBySome(held, [], p)
  {}

  /** Which endpoints keep their ports, from the inputs alone: the one that holds `p` keeps it exactly when
      `p` is free, no name before it holds `p` too, and no more names before it draw low than there are
      free ports below `p`. */
  lemma KeepsIff(lo: int, hi: int, used: set<int>, held: map<string, int>, names: seq<string>, i: nat)
    requires 1 <= lo && i < |names| && names[i] in held
    requires Allocate(lo, hi, used, held, names).Some?
    ensures var free, p := Free(lo, hi, used), held[names[i]];
            Allocate(lo, hi, used, held, names).value[i] == p <==>
            p in free && !HeldBySome(held, names[..i], p) && LowDraws(free, held, names[..i], p) <= |Below(free, p)|
  {
    hide HeldBySome;
    var p := held[names[i]];
    KeepsIffNotTaken(lo, hi, used, held, names, i);
    if p in Free(lo, hi, used) {
      PrefixAllocates(lo, hi, used, held, names, i);
      if HeldBySome(held, names[..i], p) {
        HeldIsHandedOut(lo, hi, used, held, names[..i], p);
      } else {
        AllocatesLowFirst(lo, hi, used, held, names[..i], p);
      }
    }
  }

  lemma {:induction false} PrefixAllocates(lo: int, hi: int, used: set<int>, held: map<string, int>,
                                           names: seq<string>, n: nat)
    requires 1 <= lo && n <= |names| && Allocate(lo, hi, used, held, names).Some?
    ensures Allocate(lo, hi, used, held, names[..n]) == Some(Allocate(lo, hi, used, held, names).value[..n])
    decreases |names|
  {
    if n == |names| {
      assert names[..n] == names;
      assert Allocate(lo, hi, used, held, names).value[..n] == Allocate(lo, hi, used, held, names).value;
    } else {
      var last := |names| - 1;
      PrefixAllocates(lo, hi, used, held, names[..last], n);
      assert names[..last][..n] == names[..n];
      var ps := Allocate(lo, hi, used, held, names[..last]).value;
      assert Allocate(lo, hi, used, held, names).value[..n] == ps[..n];
    }
  }

  /** Exposing ssh on an environment that holds the lowest port for a tcp entry moves that entry:
      ssh is listed first, and the entry's held port is not reserved for it. */
  lemma EnablingSshMovesPorts()
    ensures var held := map["web" := 20000];
            && Allocate(20000, 20999, {}, held, ["web"]) == Some([20000])
            && Allocate(20000, 20999, {}, held, ["ssh", "web"]) == Some([20000, 20001])
  {
    var held := map["web" := 20000];
    assert [] + ["web"] == ["web"] && [] + ["ssh"] == ["ssh"] && ["ssh"] + ["web"] == ["ssh", "web"];
    assert [] + [20000] == [20000] && [20000] + [20001] == [20000, 20001];
    OneMore(20000, 20999, {}, held, [], [], "web");
    OneMore(20000, 20999, {}, held, [], [], "ssh");
    OneMore(20000, 20999, {}, held, ["ssh"], [20000], "web");
    assert Values([20000]) == {20000} by { ValuesSnoc([], 20000); }
    assert Lowest(20000, 20999, {}) == 20000;
    assert Lowest(20000, 20999, {20000}) == 20001;
  }

  /** One step of the loop. */
  lemma OneMore(lo: int, hi: int, used: set<int>, held: map<string, int>, names: seq<string>, ps: seq<int>,
                name: string)
    requires 1 <= lo && Allocate(lo, hi, used, held, names) == Some(ps)
    ensures var p := Pick(lo, hi, used + Values(ps), held, name);
            p != 0 ==> Allocate(lo, hi, used, held, names + [name]) == Some(ps + [p])
  {
    assert (names + [name])[..|names|] == names;
  }

  /** The ports one pass may not hand out: read once, then filled as it allocates. */
  class Pool {
    const lo: int
    const hi: int
    var used: set<int>

    constructor (lo: int, hi: int, used: set<int>)
      ensures this.lo == lo && this.hi == hi && this.used == used
    {
      this.lo, this.hi, this.used := lo, hi, used;
    }

    method AllocatePort(name: string, held: map<string, int>) returns (p: int)
      requires 1 <= lo
      modifies this`used
      ensures p == Pick(lo, hi, old(used), held, name)
      ensures used == if p == 0 then old(used) else old(used) + {p}
    {
      if name in held && lo <= held[name] <= hi && held[name] !in used {
        p := held[name];
        used := used + {p};
        return;
      }
      p := lo;
      while p <= hi
        invariant lo <= p && used == old(used)
        invariant Lowest(lo, hi, used) == Lowest(p, hi, used)
      {
        if p !in used {
          used := used + {p};
          return;
        }
        p := p + 1;
      }
      return 0;
    }

    /** The loop of publishRoutes over l4PortNames. */
    method AllocateAll(names: seq<string>, held: map<string, int>) returns (r: Option<seq<int>>)
      requires 1 <= lo
      modifies this`used
      ensures r == Allocate(lo, hi, old(used), held, names)
    {
      var ps := [];
      for i := 0 to |names|
        invariant Allocate(lo, hi, old(used), held, names[..i]) == Some(ps)
        invariant used == old(used) + Values(ps)
      {
        assert names[..i + 1][..i] == names[..i];
        var p := AllocatePort(names[i], held);
        if p == 0 {
          AllocateStops(lo, hi, old(used), held, names, i + 1);
          return None;
        }
        ValuesSnoc(ps, p);
        ps := ps + [p];
      }
      assert names[..|names|] == names;
      return Some(ps);
    }
  }

  lemma {:induction false} AllocateStops(lo: int, hi: int, used: set<int>, held: map<string, int>, names: seq<string>,
                                         n: nat)
    requires 1 <= lo && n <= |names| && Allocate(lo, hi, used, held, names[..n]).None?
    ensures Allocate(lo, hi, used, held, names).None?
    decreases |names|
  {
    if n < |names| {
      assert names[..|names| - 1][..n] == names[..n];
      AllocateStops(lo, hi, used, held, names[..|names| - 1], n);
    } else {
      assert names[..n] == names;
    }
  }
}
