/** The order in which the C++ back end emits pods and named arrays. */
module PodOrder {
  import opened NameOrder

  /** A member of a pod or named array; `named` for a named type, whose `typeString` has no dot when the
      type belongs to the same service definition. */
  datatype Member = Member(name: string, named: bool, typeString: string)
  datatype Entry = Entry(name: string, members: seq<Member>)

  type Pods = map<string, Entry>

  // ----- the map the loop works on

  /** `std::map::insert` keeps an entry that is already there. */
  function Insert(m: Pods, e: Entry): Pods {
    if e.name in m then m else m[e.name := e]
  }

  function InsertAll(m: Pods, es: seq<Entry>): Pods
    decreases es
  {
    if es == [] then m else InsertAll(Insert(m, es[0]), es[1..])
  }

  lemma {:induction false} InsertOneMore(m: Pods, es: seq<Entry>, e: Entry)
    ensures InsertAll(m, es + [e]) == Insert(InsertAll(m, es), e)
    decreases es
  {
    if es != [] {
      InsertOneMore(Insert(m, es[0]), es[1..], e);
      assert (es + [e])[1..] == es[1..] + [e];
    } else {
      assert ([] + [e])[1..] == [] && InsertAll(Insert(m, e), []) == Insert(m, e);
    }
  }

  /** The map holds, for each name, the first entry of that name: a named array before a pod. */
  lemma {:induction false} FirstEntryIsKept(m: Pods, es: seq<Entry>, i: nat)
    requires i < |es| && es[i].name !in m && forall j | 0 <= j < i :: es[j].name != es[i].name
    ensures es[i].name in InsertAll(m, es) && InsertAll(m, es)[es[i].name] == es[i]
    decreases es
  {
    if i == 0 {
      Kept(Insert(m, es[0]), es[1..], es[0].name);
    } else {
      FirstEntryIsKept(Insert(m, es[0]), es[1..], i - 1);
    }
  }

  lemma {:induction false} Kept(m: Pods, es: seq<Entry>, n: string)
    requires n in m
    ensures n in InsertAll(m, es) && InsertAll(m, es)[n] == m[n]
    decreases es
  {
    if es != [] {
      Kept(Insert(m, es[0]), es[1..], n);
    }
  }

  method CollectPods(namedArrays: seq<Entry>, podEntries: seq<Entry>) returns (pods: Pods)
    ensures pods == InsertAll(map[], namedArrays + podEntries)
  {
    pods := map[];
    for i := 0 to |namedArrays|
      invariant pods == InsertAll(map[], namedArrays[..i])
    {
      assert namedArrays[..i + 1] == namedArrays[..i] + [namedArrays[i]];
      InsertOneMore(map[], namedArrays[..i], namedArrays[i]);
      pods := Insert(pods, namedArrays[i]);
    }
    assert namedArrays[..|namedArrays|] == namedArrays == namedArrays + podEntries[..0];
    for i := 0 to |podEntries|
      invariant pods == InsertAll(map[], namedArrays + podEntries[..i])
    {
      assert namedArrays + podEntries[..i + 1] == namedArrays + podEntries[..i] + [podEntries[i]];
      InsertOneMore(map[], namedArrays + podEntries[..i], podEntries[i]);
      pods := Insert(pods, podEntries[i]);
    }
    assert namedArrays + podEntries[..|podEntries|] == namedArrays + podEntries;
  }

  // ----- references

  predicate LocalIn(m: Member, names: set<string>) {
    m.named && '.' !in m.typeString && m.typeString in names
  }

  /** The definition of `a` names the local pod or named array `b`. */
  predicate Refers(pods: Pods, a: string, b: string) {
    a in pods && exists m | m in pods[a].members :: LocalIn(m, pods.Keys) && m.typeString == b
  }

  /** `n` may be emitted next: nothing it names is still left. */
  predicate Free(pods: Pods, left: set<string>, n: string)
    requires left <= pods.Keys
  {
    n in left && forall m | m in pods[n].members :: !LocalIn(m, left)
  }

  function FreeNames(pods: Pods, left: set<string>): set<string>
    requires left <= pods.Keys
  {
    set n | n in left && Free(pods, left, n)
  }

  predicate Cycle(pods: Pods, p: seq<string>) {
    && p != []
    && (forall i | 0 <= i < |p| - 1 :: Refers(pods, p[i], p[i + 1]))
    && Refers(pods, p[|p| - 1], p[0])
  }

  ghost predicate Recursive(pods: Pods) {
    exists p :: Cycle(pods, p)
  }

  // ----- the loop

  function Left(pods: Pods, order: seq<string>): set<string> {
    pods.Keys - (set n | n in order)
  }

  /** Every name of `order` is the first, in name order, of those free when it was emitted. */
  ghost predicate Greedy(pods: Pods, order: seq<string>) {
    forall i | 0 <= i < |order| :: Least(order[i], FreeNames(pods, Left(pods, order[..i])))
  }

  datatype Outcome = Emitted(order: seq<string>) | RecursivePod(order: seq<string>)

  /** The member loop of one candidate. */
  method FindLocal(e: Entry, left: Pods) returns (localFound: bool)
    ensures localFound <==> exists m | m in e.members :: LocalIn(m, left.Keys)
  {
    localFound := false;
    for i := 0 to |e.members|
      invariant !localFound
      invariant forall j | 0 <= j < i :: !LocalIn(e.members[j], left.Keys)
    {
      if e.members[i].named {
        if '.' !in e.members[i].typeString {
          if e.members[i].typeString in left {
            assert LocalIn(e.members[i], left.Keys);
            return true;
          }
        }
      }
    }
  }

  /** One round: the first entry in name order that names nothing still left, if there is one. */
  method FindFree(pods: Pods, left: Pods) returns (found: bool, e2: string)
    requires left.Keys <= pods.Keys && forall n | n in left :: left[n] == pods[n]
    ensures found ==> Least(e2, FreeNames(pods, left.Keys))
    ensures !found ==> FreeNames(pods, left.Keys) == {}
  {
    found, e2 := false, "";
    var rest := left.Keys;
    while rest != {}
      invariant rest <= left.Keys
      invariant forall n | n in left.Keys - rest :: !Free(pods, left.Keys, n)
      invariant forall n, x | n in left.Keys - rest && x in rest :: Before(n, x)
      decreases rest
    {
      var n := First(rest);
      var localFound := FindLocal(left[n], left);
      if !localFound {
        assert Free(pods, left.Keys, n);
        return true, n;
      }
      rest := rest - {n};
    }
  }

  /** The loop over `pods`: it emits every entry exactly once and each as soon as it can, or stops with
      the exception exactly when the local references form a cycle. */
  method OrderPods(pods: Pods) returns (r: Outcome)
    ensures Greedy(pods, r.order)
    ensures r.RecursivePod? <==> Recursive(pods)
    ensures r.Emitted? ==> Left(pods, r.order) == {}
    ensures FreeNames(pods, Left(pods, r.order)) == {}
    ensures r.RecursivePod? <==> exists w :: ClosedWalk(pods, w)
    ensures r.Emitted? ==> forall n :: n in r.order <==> n in pods
    ensures forall i, b | 0 <= i < |r.order| && HasLocalMember(pods, r.order[i], b) :: b in r.order[..i]
  {
    hide Greedy, Left, FreeNames, Least, Recursive, Cycle, ClosedWalk, HasLocalMember;
    NothingEmitted(pods);
    var left := pods;
    var order := [];
    while left != map[]
      invariant left.Keys == Left(pods, order)
      invariant forall n | n in left :: left[n] == pods[n]
      invariant Greedy(pods, order)
      decreases left.Keys
    {
      var found, e2 := FindFree(pods, left);
      if !found {
        assert left.Keys != {};
        StuckIsRecursive(pods, left.Keys);
        OrderByMembers(pods, RecursivePod(order));
        return RecursivePod(order);
      }
      GreedyGrows(pods, order, e2);
      left := left - {e2};
      order := order + [e2];
    }
    OrderedMeansNoCycle(pods, order);
    NothingFree(pods);
    OrderByMembers(pods, Emitted(order));
    return Emitted(order);
  }

  lemma NothingEmitted(pods: Pods)
    ensures Greedy(pods, []) && Left(pods, []) == pods.Keys
  {
  }

  lemma NothingFree(pods: Pods)
    ensures FreeNames(pods, {}) == {}
  {
  }

  lemma GreedyGrows(pods: Pods, order: seq<string>, n: string)
    requires Greedy(pods, order) && Least(n, FreeNames(pods, Left(pods, order)))
    ensures Greedy(pods, order + [n]) && n in Left(pods, order)
    ensures Left(pods, order + [n]) == Left(pods, order) - {n}
  {
    var all := order + [n];
    forall i | 0 <= i < |all| ensures Least(all[i], FreeNames(pods, Left(pods, all[..i]))) {
      assert all[..i] == order[..i];
      assert i == |order| ==> order[..i] == order;
    }
    assert forall x :: x in all <==> x in order || x == n;
  }

  lemma OrderedMeansNoCycle(pods: Pods, order: seq<string>)
    requires Greedy(pods, order) && Left(pods, order) == {}
    ensures !Recursive(pods)
  {
    if Recursive(pods) {
      var p :| Cycle(pods, p);
      OrderedIsNotRecursive(pods, order, p);
    }
  }

  /** Names are emitted at most once, and after every local type their definition names. */
  lemma {:induction false} EmittedAfterItsReferences(pods: Pods, order: seq<string>)
    requires Greedy(pods, order)
    ensures forall i, j | 0 <= i < j < |order| :: order[i] != order[j]
    ensures forall i | 0 <= i < |order| :: order[i] in pods
    ensures forall i, b | 0 <= i < |order| && Refers(pods, order[i], b) :: b in order[..i]
  {
    forall i | 0 <= i < |order|
      ensures order[i] in pods && order[i] !in order[..i]
      ensures forall b | Refers(pods, order[i], b) :: b in order[..i]
    {
      var left := Left(pods, order[..i]);
      assert order[i] in FreeNames(pods, left);
      forall b | Refers(pods, order[i], b) ensures b in order[..i] {
        var m :| m in pods[order[i]].members && LocalIn(m, pods.Keys) && m.typeString == b;
        assert !LocalIn(m, left);
      }
    }
    forall i, j | 0 <= i < j < |order| ensures order[i] != order[j] {
      assert order[i] in order[..j];
    }
  }

  function IndexOf(order: seq<string>, n: string): (i: nat)
    requires n in order
    ensures i < |order| && order[i] == n
  {
    if order[0] == n then 0 else 1 + IndexOf(order[1..], n)
  }

  /** A complete order leaves no room for a cycle: along a reference the position falls. */
  lemma {:induction false} OrderedIsNotRecursive(pods: Pods, order: seq<string>, p: seq<string>)
    requires Greedy(pods, order) && Left(pods, order) == {}
    ensures !Cycle(pods, p)
  {
    hide Greedy, Left, Refers;
    if Cycle(pods, p) {
      forall i | 0 <= i < |p| ensures p[i] in order {
        assert Refers(pods, p[i], if i < |p| - 1 then p[i + 1] else p[0]);
        EmittedIfReferring(pods, order, p[i], if i < |p| - 1 then p[i + 1] else p[0]);
      }
      var k := |p| - 1;
      PositionsFall(pods, order, p, k);
      ReferenceIsEarlier(pods, order, p[k], p[0]);
    }
  }

  lemma EmittedIfReferring(pods: Pods, order: seq<string>, a: string, b: string)
    requires Left(pods, order) == {} && Refers(pods, a, b)
    ensures a in order
  {
    assert a !in Left(pods, order);
  }

  lemma ReferenceIsEarlier(pods: Pods, order: seq<string>, a: string, b: string)
    requires Greedy(pods, order) && Refers(pods, a, b) && a in order && b in order
    ensures IndexOf(order, b) < IndexOf(order, a)
  {
    EmittedAfterItsReferences(pods, order);
    var i, j := IndexOf(order, a), IndexOf(order, b);
    var h :| 0 <= h < i && order[h] == b;
    assert order[h] == order[j];
  }

  lemma {:induction false} PositionsFall(pods: Pods, order: seq<string>, p: seq<string>, k: nat)
    requires Greedy(pods, order) && Cycle(pods, p) && k < |p|
    requires forall i | 0 <= i < |p| :: p[i] in order
    ensures IndexOf(order, p[k]) <= IndexOf(order, p[0])
    decreases k
  {
    if k > 0 {
      PositionsFall(pods, order, p, k - 1);
      ReferenceIsEarlier(pods, order, p[k - 1], p[k]);
    }
  }

  /** The order is determined by the entries: a greedy order that cannot be continued, complete or stuck,
      is the only one. */
  lemma {:induction false} OneGreedyOrder(pods: Pods, a: seq<string>, b: seq<string>)
    requires Greedy(pods, a) && FreeNames(pods, Left(pods, a)) == {}
    requires Greedy(pods, b) && FreeNames(pods, Left(pods, b)) == {}
    ensures a == b
  {
    var k := if |a| < |b| then |a| else |b|;
    GreedyAgree(pods, a, b, k);
    SomethingFree(pods, a, k);
    SomethingFree(pods, b, k);
    assert a[..|a|] == a && b[..|b|] == b;
  }

  lemma SomethingFree(pods: Pods, order: seq<string>, k: nat)
    requires Greedy(pods, order) && k <= |order|
    ensures k < |order| ==> FreeNames(pods, Left(pods, order[..k])) != {}
  {
    if k < |order| {
      assert Least(order[k], FreeNames(pods, Left(pods, order[..k])));
    }
  }

  lemma {:induction false} GreedyAgree(pods: Pods, a: seq<string>, b: seq<string>, k: nat)
    requires Greedy(pods, a) && Greedy(pods, b) && k <= |a| && k <= |b|
    ensures a[..k] == b[..k]
  {
    if k > 0 {
      GreedyAgree(pods, a, b, k - 1);
      OneLeast(a[k - 1], b[k - 1], FreeNames(pods, Left(pods, a[..k - 1])));
    }
  }

  // ----- a stuck loop has found a cycle

  predicate Walk(pods: Pods, left: set<string>, w: seq<string>) {
    && (forall i | 0 <= i < |w| :: w[i] in left)
    && forall i | 0 <= i < |w| - 1 :: Refers(pods, w[i], w[i + 1])
  }

  lemma {:induction false} WalkExists(pods: Pods, left: set<string>, k: nat) returns (w: seq<string>)
    requires left != {} && left <= pods.Keys && FreeNames(pods, left) == {}
    ensures |w| == k && Walk(pods, left, w)
  {
    if k == 0 {
      w := [];
    } else if k == 1 {
      var n :| n in left;
      w := [n];
    } else {
      var v := WalkExists(pods, left, k - 1);
      var a := v[k - 2];
      assert a !in FreeNames(pods, left);
      var m :| m in pods[a].members && LocalIn(m, left);
      assert LocalIn(m, pods.Keys);
      w := v + [m.typeString];
    }
  }

  lemma StuckIsRecursive(pods: Pods, left: set<string>)
    requires left != {} && left <= pods.Keys && FreeNames(pods, left) == {}
    ensures Recursive(pods)
  {
    var w := WalkExists(pods, left, |left| + 1);
    var i, j := Pigeonhole(left, w);
    var p := w[i..j];
    forall k | 0 <= k < |p| - 1 ensures Refers(pods, p[k], p[k + 1]) {
      assert Refers(pods, w[i + k], w[i + k + 1]);
    }
    assert Refers(pods, w[j - 1], w[j - 1 + 1]);
    assert Cycle(pods, p);
  }

  // ----- what the loop promises, in terms of the members alone

  /** The definition of `a` has a member of the pod or named array `b` of the same service definition: a
      named type whose type string is `b` and has no dot. */
  predicate HasLocalMember(pods: Pods, a: string, b: string) {
    && a in pods && b in pods
    && exists m | m in pods[a].members :: m.named && m.typeString == b && forall c | c in b :: c != '.'
  }

  /** A walk along local members that ends where it began. */
  predicate ClosedWalk(pods: Pods, w: seq<string>) {
    |w| > 1 && w[0] == w[|w| - 1] && forall i | 0 <= i < |w| - 1 :: HasLocalMember(pods, w[i], w[i + 1])
  }

  /** C++ needs a type to be complete where a member has it: each definition is emitted after the local
      definitions its members have. */
  lemma MembersAreEmittedFirst(pods: Pods, order: seq<string>, i: nat, m: Member)
    requires Greedy(pods, order) && i < |order|
    ensures order[i] in pods
    ensures m in pods[order[i]].members && m.named && '.' !in m.typeString && m.typeString in pods ==>
              m.typeString in order[..i]
  {
    EmittedAfterItsReferences(pods, order);
    if m in pods[order[i]].members && m.named && '.' !in m.typeString && m.typeString in pods {
      assert Refers(pods, order[i], m.typeString);
    }
  }

  lemma RefersIsLocalMember(pods: Pods, a: string, b: string)
    ensures Refers(pods, a, b) <==> HasLocalMember(pods, a, b)
  {
  }

  /** The definitions are recursive exactly if some closed walk leads along local members. */
  lemma RecursiveIsClosedWalk(pods: Pods)
    ensures Recursive(pods) <==> exists w :: ClosedWalk(pods, w)
  {
    hide Refers, HasLocalMember;
    if p :| Cycle(pods, p) {
      var w := p + [p[0]];
      forall i | 0 <= i < |w| - 1 ensures HasLocalMember(pods, w[i], w[i + 1]) {
        if i < |p| - 1 {
          assert Refers(pods, p[i], p[i + 1]);
        }
        RefersIsLocalMember(pods, w[i], w[i + 1]);
      }
      assert ClosedWalk(pods, w);
    }
    if w :| ClosedWalk(pods, w) {
      var n := |w| - 1;
      var p := w[..n];
      forall i | 0 <= i < n ensures Refers(pods, w[i], w[i + 1]) {
        RefersIsLocalMember(pods, w[i], w[i + 1]);
      }
      forall i | 0 <= i < n - 1 ensures Refers(pods, p[i], p[i + 1]) {
        assert p[i] == w[i] && p[i + 1] == w[i + 1];
      }
      assert Refers(pods, w[n - 1], w[n - 1 + 1]);
      assert Cycle(pods, p);
    }
  }

  /** What `OrderPods` ensures, in terms of the members. */
  lemma OrderByMembers(pods: Pods, r: Outcome)
    requires Greedy(pods, r.order) && (r.RecursivePod? <==> Recursive(pods))
    requires r.Emitted? ==> Left(pods, r.order) == {}
    ensures r.RecursivePod? <==> exists w :: ClosedWalk(pods, w)
    ensures r.Emitted? ==> forall n :: n in r.order <==> n in pods
    ensures forall i, j | 0 <= i < j < |r.order| :: r.order[i] != r.order[j]
    ensures forall i, b | 0 <= i < |r.order| && HasLocalMember(pods, r.order[i], b) :: b in r.order[..i]
  {
    hide Greedy, Recursive, Refers, HasLocalMember, ClosedWalk;
    RecursiveIsClosedWalk(pods);
    EmittedAfterItsReferences(pods, r.order);
    if r.Emitted? {
      forall n ensures n in r.order <==> n in pods {
        assert n !in Left(pods, r.order);
        if n in r.order {
          var i :| 0 <= i < |r.order| && r.order[i] == n;
          assert r.order[i] in pods;
        }
      }
    }
    forall i, b | 0 <= i < |r.order| && HasLocalMember(pods, r.order[i], b) ensures b in r.order[..i] {
      RefersIsLocalMember(pods, r.order[i], b);
    }
  }

  /** A pod with a field of a pod that has a field of it is recursive; without the field back, the pod it
      names comes first, against the order of the names. */
  lemma AlphaAndZeta(back: bool, r: Outcome)
    requires var none: seq<Member> := [];
             var alpha := Entry("Alpha", [Member("z", true, "Zeta")]);
             var zeta := Entry("Zeta", if back then [Member("a", true, "Alpha")] else none);
             var pods := map["Alpha" := alpha, "Zeta" := zeta];
             Greedy(pods, r.order) && (r.RecursivePod? <==> Recursive(pods))
             && (r.Emitted? ==> Left(pods, r.order) == {})
    ensures if back then r.RecursivePod? else r == Emitted(["Zeta", "Alpha"])
  {
    hide Greedy, Recursive, Left;
    var none: seq<Member> := [];
    var alpha := Entry("Alpha", [Member("z", true, "Zeta")]);
    var zeta := Entry("Zeta", if back then [Member("a", true, "Alpha")] else none);
    var pods := map["Alpha" := alpha, "Zeta" := zeta];
    OrderByMembers(pods, r);
    assert Member("z", true, "Zeta") in pods["Alpha"].members;
    assert HasLocalMember(pods, "Alpha", "Zeta");
    if back {
      assert Member("a", true, "Alpha") in pods["Zeta"].members;
      assert HasLocalMember(pods, "Zeta", "Alpha");
      assert ClosedWalk(pods, ["Alpha", "Zeta", "Alpha"]);
    } else {
      forall a, b | HasLocalMember(pods, a, b) ensures a == "Alpha" && b == "Zeta" {
      }
      OneWay(pods);
      TwoNames(r.order);
    }
  }

  lemma OneWay(pods: Pods)
    requires forall a, b | HasLocalMember(pods, a, b) :: a == "Alpha" && b == "Zeta"
    ensures forall w :: !ClosedWalk(pods, w)
  {
    hide HasLocalMember;
    forall w | |w| > 1 ensures !ClosedWalk(pods, w) {
      var first := HasLocalMember(pods, w[0], w[0 + 1]);
      var second := |w| > 2 && HasLocalMember(pods, w[1], w[1 + 1]);
    }
  }

  lemma TwoElements(a: string, b: string)
    ensures |{a, b}| <= 2
  {
    assert {a, b} == {a} + {b};
  }

  lemma TwoNames(order: seq<string>)
    requires forall n :: n in order <==> n == "Alpha" || n == "Zeta"
    requires forall i, j | 0 <= i < j < |order| :: order[i] != order[j]
    requires forall i | 0 <= i < |order| && order[i] == "Alpha" :: "Zeta" in order[..i]
    ensures order == ["Zeta", "Alpha"]
  {
    forall k | 0 <= k < |order| ensures order[k] == "Alpha" || order[k] == "Zeta" {
      assert order[k] in order;
    }
    assert "Alpha" in order;
    TwoElements("Alpha", "Zeta");
    if |order| > 2 {
      var i, j := Pigeonhole({"Alpha", "Zeta"}, order);
    }
    var i :| 0 <= i < |order| && order[i] == "Alpha";
    var j :| 0 <= j < i && order[j] == "Zeta";
  }
}
