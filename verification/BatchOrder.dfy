/** internal/batch/batch.go: the order in which the sub-requests of a $batch run. */
module BatchOrder {
  import opened Wrappers
  import opened Sequences

  datatype Request = Request(id: string, dependsOn: seq<string>)

  datatype OrderError =
    | MissingId(position: nat)
    | DuplicateId(id: string)
    | UnknownId(from: string, id: string)
    | CycleAt(id: string)

  predicate GoodIds(reqs: seq<Request>) {
    && (forall i :: 0 <= i < |reqs| ==> reqs[i].id != "")
    && (forall i, j :: 0 <= i < j < |reqs| ==> reqs[i].id != reqs[j].id)
  }

  predicate Known(reqs: seq<Request>, id: string) { exists j :: 0 <= j < |reqs| && reqs[j].id == id }

  predicate AllKnown(reqs: seq<Request>) {
    forall i, k :: 0 <= i < |reqs| && 0 <= k < |reqs[i].dependsOn| ==> Known(reqs, reqs[i].dependsOn[k])
  }

  /** Sub-request i waits for sub-request j. */
  predicate DependsOn(reqs: seq<Request>, i: nat, j: nat) {
    i < |reqs| && j < |reqs| && reqs[j].id in reqs[i].dependsOn
  }

  ghost predicate IsPath(reqs: seq<Request>, path: seq<nat>) {
    forall k {:trigger path[k]} :: 0 <= k < |path| - 1 ==> DependsOn(reqs, path[k], path[k + 1])
  }

  ghost predicate IsCycle(reqs: seq<Request>, path: seq<nat>) {
    |path| >= 2 && IsPath(reqs, path) && path[0] == path[|path| - 1]
  }

  ghost predicate Acyclic(reqs: seq<Request>) { forall path :: !IsCycle(reqs, path) }

  ghost predicate IsPermutation(order: seq<nat>, n: nat) {
    |order| == n && NoDuplicates(order) && forall i :: i in order <==> 0 <= i < n
  }

  /** Every sub-request comes after everything it depends on. */
  ghost predicate DependenciesFirst(reqs: seq<Request>, order: seq<nat>) {
    forall k, j :: 0 <= k < |order| && DependsOn(reqs, order[k], j) ==> j in order[..k]
  }

  ghost predicate Truthful(reqs: seq<Request>, e: OrderError) {
    match e
    case MissingId(i) => i < |reqs| && reqs[i].id == ""
    case DuplicateId(id) => exists i, j :: 0 <= i < j < |reqs| && reqs[i].id == reqs[j].id == id
    case UnknownId(from, id) =>
      !Known(reqs, id) && exists i :: 0 <= i < |reqs| && reqs[i].id == from && id in reqs[i].dependsOn
    case CycleAt(id) => exists path :: IsCycle(reqs, path) && path[0] < |reqs| && reqs[path[0]].id == id
  }

  lemma AppendedInOrder(reqs: seq<Request>, order: seq<nat>, i: nat)
    requires DependenciesFirst(reqs, order) && NoDuplicates(order) && i !in order
    requires forall j: nat :: DependsOn(reqs, i, j) ==> j in order
    ensures DependenciesFirst(reqs, order + [i]) && NoDuplicates(order + [i])
  {
    ConcatNoDuplicates(order, [i]);
    assert forall k :: 0 <= k <= |order| ==> (order + [i])[..k] == order[..k];
  }

  datatype Color = Unvisited | Visiting | Done

  class Sorter {
    const reqs: seq<Request>
    const index: map<string, nat>
    const state: array<Color>
    var order: seq<nat>

    ghost predicate Indexed()
      reads this
    {
      && state.Length == |reqs|
      && (forall i :: 0 <= i < |reqs| ==> reqs[i].id in index && index[reqs[i].id] == i)
      && (forall d :: d in index ==> index[d] < |reqs| && reqs[index[d]].id == d)
    }

    /** The finished sub-requests are listed once each, dependencies first. */
    ghost predicate Valid()
      reads this, state
    {
      && Indexed()
      && NoDuplicates(order)
      && (forall i :: i in order <==> 0 <= i < |reqs| && state[i] == Done)
      && DependenciesFirst(reqs, order)
      && (forall i, k :: i in order && 0 <= k < |reqs[i].dependsOn| ==> Known(reqs, reqs[i].dependsOn[k]))
    }

    /** The recursion's stack: a path of the sub-requests being visited. */
    ghost predicate OnStack(stack: seq<nat>)
      requires state.Length == |reqs|
      reads this, state
    {
      && IsPath(reqs, stack)
      && (forall i :: i in stack <==> 0 <= i < |reqs| && state[i] == Visiting)
    }

    ghost function Remaining(): set<int>
      requires state.Length == |reqs|
      reads this, state
    {
      set i | 0 <= i < |reqs| && state[i] == Unvisited
    }

    constructor (reqs: seq<Request>, index: map<string, nat>)
      requires forall i :: 0 <= i < |reqs| ==> reqs[i].id in index && index[reqs[i].id] == i
      requires forall d :: d in index ==> index[d] < |reqs| && reqs[index[d]].id == d
      ensures this.reqs == reqs && this.index == index && fresh(state)
      ensures Valid() && OnStack([]) && order == []
    {
      this.reqs := reqs;
      this.index := index;
      state := new Color[|reqs|](_ => Unvisited);
      order := [];
    }

    method Visit(i: nat, ghost stack: seq<nat>) returns (err: Option<OrderError>)
      requires Valid() && OnStack(stack) && i < |reqs|
      requires stack != [] ==> DependsOn(reqs, stack[|stack| - 1], i)
      modifies this, state
      ensures err.Some? ==> Truthful(reqs, err.value)
      ensures err.None? ==> Valid() && OnStack(stack) && state[i] == Done
      ensures err.None? ==> Remaining() <= old(Remaining())
      ensures err.None? ==> forall k :: 0 <= k < |reqs| && old(state[k]) == Done ==> state[k] == Done
      decreases Remaining()
    {
      if state[i] == Done {
        return None;
      }
      if state[i] == Visiting {
        CycleOnStack(reqs, stack, i);
        return Some(CycleAt(reqs[i].id));
      }
      assert i !in stack && i !in order;
      state[i] := Visiting;
      ghost var deeper := stack + [i];
      assert OnStack(deeper) by {
        assert forall k :: 0 <= k < |stack| ==> deeper[k] == stack[k];
      }
      var deps := reqs[i].dependsOn;
      ghost var todo := old(Remaining()) - {i as int};
      for k := 0 to |deps|
        invariant Valid() && OnStack(deeper) && Remaining() <= todo
        invariant forall m :: 0 <= m < k ==> deps[m] in index && state[index[deps[m]]] == Done
        invariant forall m :: 0 <= m < |reqs| && old(state[m]) == Done ==> state[m] == Done
      {
        if deps[k] !in index {
          assert !Known(reqs, deps[k]);
          return Some(UnknownId(reqs[i].id, deps[k]));
        }
        var j := index[deps[k]];
        assert reqs[j].id == deps[k] && DependsOn(reqs, i, j);
        var e := Visit(j, deeper);
        if e.Some? {
          return e;
        }
      }
      assert state[i] == Visiting by {
        assert deeper[|stack|] == i;
      }
      forall j: nat | DependsOn(reqs, i, j) ensures j in order {
        var m :| 0 <= m < |deps| && deps[m] == reqs[j].id;
      }
      forall k | 0 <= k < |deps| ensures Known(reqs, deps[k]) {
        assert reqs[index[deps[k]]].id == deps[k];
      }
      AppendedInOrder(reqs, order, i);
      state[i] := Done;
      order := order + [i];
      return None;
    }
  }

  lemma SuffixIsPath(reqs: seq<Request>, path: seq<nat>, k: nat)
    requires IsPath(reqs, path) && k <= |path|
    ensures IsPath(reqs, path[k..])
  {
    var suffix := path[k..];
    forall m | 0 <= m < |suffix| - 1 ensures DependsOn(reqs, suffix[m], suffix[m + 1]) {
      assert suffix[m] == path[k + m] && suffix[m + 1] == path[k + m + 1];
    }
  }

  lemma ExtendedIsPath(reqs: seq<Request>, path: seq<nat>, i: nat)
    requires IsPath(reqs, path) && path != [] && DependsOn(reqs, path[|path| - 1], i)
    ensures IsPath(reqs, path + [i])
  {
    forall m | 0 <= m < |path| ensures DependsOn(reqs, (path + [i])[m], (path + [i])[m + 1]) {
      if m < |path| - 1 {
        assert (path + [i])[m] == path[m] && (path + [i])[m + 1] == path[m + 1];
      }
    }
  }

  /** Meeting a sub-request that is on the stack closes a cycle. */
  lemma CycleOnStack(reqs: seq<Request>, stack: seq<nat>, i: nat)
    requires IsPath(reqs, stack) && i in stack && i < |reqs|
    requires DependsOn(reqs, stack[|stack| - 1], i)
    ensures Truthful(reqs, CycleAt(reqs[i].id))
  {
    var k :| 0 <= k < |stack| && stack[k] == i;
    SuffixIsPath(reqs, stack, k);
    ExtendedIsPath(reqs, stack[k..], i);
    var path := stack[k..] + [i];
    assert IsCycle(reqs, path) && path[0] == i;
  }

  lemma PathGoesBack(reqs: seq<Request>, order: seq<nat>, path: seq<nat>, from: nat, to: nat)
    requires DependenciesFirst(reqs, order) && NoDuplicates(order)
    requires |path| >= 2 && IsPath(reqs, path)
    requires from < |order| && order[from] == path[0]
    requires to < |order| && order[to] == path[|path| - 1]
    ensures to < from
    decreases |path|
  {
    assert DependsOn(reqs, path[0], path[1]);
    assert path[1] in order[..from];
    var next :| 0 <= next < from && order[..from][next] == path[1];
    if |path| > 2 {
      var rest := path[1..];
      forall k | 0 <= k < |rest| - 1 ensures DependsOn(reqs, rest[k], rest[k + 1]) {
        assert DependsOn(reqs, path[k + 1], path[k + 2]);
      }
      PathGoesBack(reqs, order, rest, next, to);
    }
  }

  /** An order with dependencies first exists only without a cycle. */
  lemma OrderedIsAcyclic(reqs: seq<Request>, order: seq<nat>)
    requires IsPermutation(order, |reqs|) && DependenciesFirst(reqs, order)
    ensures Acyclic(reqs)
  {
    forall path ensures !IsCycle(reqs, path) {
      if IsCycle(reqs, path) {
        assert DependsOn(reqs, path[0], path[1]);
        assert path[0] in order;
        var at :| 0 <= at < |order| && order[at] == path[0];
        PathGoesBack(reqs, order, path, at, at);
      }
    }
  }

  ghost function Elements(order: seq<nat>): (s: set<nat>)
    requires NoDuplicates(order)
    ensures |s| == |order| && forall i :: i in s <==> i in order
  {
    if order == [] then {}
    else
      var init := order[..|order| - 1];
      assert order == init + [order[|order| - 1]];
      ConcatNoDuplicates(init, [order[|order| - 1]]);
      Elements(init) + {order[|order| - 1]}
  }

  ghost function Below(n: nat): (s: set<nat>)
    ensures |s| == n && forall i :: i in s <==> 0 <= i < n
  {
    if n == 0 then {} else Below(n - 1) + {n - 1}
  }

  lemma AllIndices(order: seq<nat>, n: nat)
    requires NoDuplicates(order) && forall i :: i in order <==> 0 <= i < n
    ensures |order| == n
  {
    assert Elements(order) == Below(n);
  }

  /** The three conditions a batch must meet, none of which speaks of the order found. */
  ghost predicate Orderable(reqs: seq<Request>) { GoodIds(reqs) && AllKnown(reqs) && Acyclic(reqs) }

  lemma TruthfulMeansNotOrderable(reqs: seq<Request>, e: OrderError)
    requires Truthful(reqs, e)
    ensures !Orderable(reqs)
  {
    match e
    case UnknownId(from, id) =>
      var i :| 0 <= i < |reqs| && reqs[i].id == from && id in reqs[i].dependsOn;
      var k :| 0 <= k < |reqs[i].dependsOn| && reqs[i].dependsOn[k] == id;
      assert !Known(reqs, reqs[i].dependsOn[k]);
    case _ =>
  }

  /** Indices in an order that respects every dependsOn edge. It succeeds exactly on the
      orderable batches, and an error always names a real defect: a cycle error, a cycle
      through the named sub-request. */
  method ExecutionOrder(reqs: seq<Request>) returns (r: Result<seq<nat>, OrderError>)
    ensures r.Ok? <==> Orderable(reqs)
    ensures r.Ok? ==> IsPermutation(r.value, |reqs|) && DependenciesFirst(reqs, r.value)
    ensures r.Err? ==> Truthful(reqs, r.error)
  {
    var index: map<string, nat> := map[];
    for i := 0 to |reqs|
      invariant forall k :: 0 <= k < i ==> reqs[k].id != "" && reqs[k].id in index && index[reqs[k].id] == k
      invariant forall d :: d in index ==> index[d] < i && reqs[index[d]].id == d
    {
      if reqs[i].id == "" {
        return Err(MissingId(i));
      }
      if reqs[i].id in index {
        assert reqs[index[reqs[i].id]].id == reqs[i].id;
        return Err(DuplicateId(reqs[i].id));
      }
      index := index[reqs[i].id := i];
    }
    var sorter := new Sorter(reqs, index);
    for i := 0 to |reqs|
      invariant sorter.Valid() && sorter.OnStack([]) && fresh(sorter) && fresh(sorter.state)
      invariant sorter.reqs == reqs && sorter.index == index
      invariant forall k :: 0 <= k < i ==> sorter.state[k] == Done
    {
      var err := sorter.Visit(i, []);
      if err.Some? {
        TruthfulMeansNotOrderable(reqs, err.value);
        return Err(err.value);
      }
    }
    var order := sorter.order;
    AllIndices(order, |reqs|);
    OrderedIsAcyclic(reqs, order);
    assert forall i :: 0 <= i < |reqs| ==> i in order;
    r := Ok(order);
  }
}
