/** internal/specsubset/specsubset.go, the closure part: the components reachable from the
    kept paths through pruned nodes. */
module SpecClosure {
  import opened Wrappers
  import opened Sequences
  import opened SpecTree

  const REF_PREFIX: string := "#/components/"

  datatype Loc = Loc(kind: string, name: string)

  datatype Warning = NonComponent(ref: string) | Missing(loc: Loc)

  /** The position of the first slash, or the length. */
  function Slash(s: string): (i: nat)
    ensures i <= |s| && (i < |s| ==> s[i] == '/') && forall k :: 0 <= k < i ==> s[k] != '/'
  {
    if s == "" || s[0] == '/' then 0 else 1 + Slash(s[1..])
  }

  /** "#/components/<kind>/<name>" split at the kind's slash. */
  function RefToLoc(ref: string): Option<Loc> {
    if !HasPrefix(ref, REF_PREFIX) then None
    else
      var rest := ref[|REF_PREFIX|..];
      var i := Slash(rest);
      if i == |rest| then None else Some(Loc(rest[..i], rest[i + 1..]))
  }

  lemma CutAt(s: string, i: nat)
    requires i < |s| && s[i] == '/'
    ensures s == s[..i] + ['/'] + s[i + 1..]
  {
  }

  lemma RefToLocInjective(a: string, b: string)
    requires RefToLoc(a).Some? && RefToLoc(a) == RefToLoc(b)
    ensures a == b
  {
    var x, y := a[|REF_PREFIX|..], b[|REF_PREFIX|..];
    var i, j := Slash(x), Slash(y);
    CutAt(x, i);
    CutAt(y, j);
    assert a == REF_PREFIX + x && b == REF_PREFIX + y;
  }

  type Components = map<Loc, Json>

  predicate Dropped(drop: set<string>, ref: string) {
    RefToLoc(ref).Some? && RefToLoc(ref).value.kind == "schemas" && RefToLoc(ref).value.name in drop
  }

  /** The component a reference pulls in. */
  function Target(src: Components, drop: set<string>, ref: string): Option<Loc> {
    if RefToLoc(ref).Some? && !Dropped(drop, ref) && RefToLoc(ref).value in src then RefToLoc(ref) else None
  }

  function WarningOf(src: Components, drop: set<string>, ref: string): Option<Warning> {
    match RefToLoc(ref)
    case None => Some(NonComponent(ref))
    case Some(loc) => if Dropped(drop, ref) || loc in src then None else Some(Missing(loc))
  }

  lemma WarningInjective(src: Components, drop: set<string>, a: string, b: string)
    requires WarningOf(src, drop, a).Some? && WarningOf(src, drop, a) == WarningOf(src, drop, b)
    ensures a == b
  {
    if RefToLoc(a).Some? {
      RefToLocInjective(a, b);
    }
  }

  /** The references a component makes, in the pruned and in the original tree. */
  ghost function PrunedEdges(src: Components): map<Loc, set<string>> { map l | l in src :: Refs(Strip(src[l])) }

  ghost function NaiveEdges(src: Components): map<Loc, set<string>> { map l | l in src :: Refs(src[l]) }

  ghost predicate Follows(edges: map<Loc, set<string>>, drop: set<string>, from: string, to: string) {
    && RefToLoc(from).Some? && !Dropped(drop, from) && RefToLoc(from).value in edges
    && to in edges[RefToLoc(from).value] && !Dropped(drop, to)
  }

  ghost predicate ReachedIn(edges: map<Loc, set<string>>, drop: set<string>, roots: set<string>, ref: string, n: nat)
    decreases n
  {
    if n == 0 then ref in roots
    else exists from :: ReachedIn(edges, drop, roots, from, n - 1) && Follows(edges, drop, from, ref)
  }

  ghost predicate Reached(edges: map<Loc, set<string>>, drop: set<string>, roots: set<string>, ref: string) {
    exists n: nat :: ReachedIn(edges, drop, roots, ref, n)
  }

  /** Every reference a closure has to look at. */
  ghost function Universe(src: Components, roots: set<string>): set<string> {
    roots + set l, r | l in src && r in Refs(Strip(src[l])) :: r
  }

  ghost predicate Closed(edges: map<Loc, set<string>>, drop: set<string>, seen: set<string>, pending: set<string>) {
    forall from, to :: from in seen && Follows(edges, drop, from, to) ==> to in seen || to in pending
  }

  /** What the components and warnings are after the references in seen have been handled. */
  ghost predicate Emitted(src: Components, drop: set<string>, seen: set<string>, out: Components, warnings: seq<Warning>) {
    && Gathered(src, drop, seen, out)
    && Warned(src, drop, seen, warnings)
  }

  /** One of the references in seen has its component at l. */
  ghost predicate Aimed(src: Components, drop: set<string>, seen: set<string>, l: Loc) {
    exists r :: r in seen && Target(src, drop, r) == Some(l)
  }

  ghost predicate Gathered(src: Components, drop: set<string>, seen: set<string>, out: Components) {
    && (forall l :: l in out <==> Aimed(src, drop, seen, l))
    && (forall l :: l in out ==> l in src && out[l] == Strip(src[l]))
  }

  ghost predicate Warned(src: Components, drop: set<string>, seen: set<string>, warnings: seq<Warning>) {
    && NoDuplicates(warnings)
    && (forall w :: w in warnings <==> exists r :: r in seen && WarningOf(src, drop, r) == Some(w))
  }

  lemma {:induction false} ReachedIsSeen(edges: map<Loc, set<string>>, drop: set<string>, roots: set<string>, seen: set<string>, ref: string, n: nat)
    requires roots <= seen && Closed(edges, drop, seen, {})
    requires ReachedIn(edges, drop, roots, ref, n)
    ensures ref in seen
    decreases n
  {
    if n > 0 {
      var from :| ReachedIn(edges, drop, roots, from, n - 1) && Follows(edges, drop, from, ref);
      ReachedIsSeen(edges, drop, roots, seen, from, n - 1);
    }
  }

  lemma ReachedNext(edges: map<Loc, set<string>>, drop: set<string>, roots: set<string>, from: string, to: string)
    requires Reached(edges, drop, roots, from) && Follows(edges, drop, from, to)
    ensures Reached(edges, drop, roots, to)
  {
    var n: nat :| ReachedIn(edges, drop, roots, from, n);
    assert ReachedIn(edges, drop, roots, to, n + 1);
  }

  lemma EmitWarning(src: Components, drop: set<string>, seen: set<string>, out: Components, warnings: seq<Warning>, ref: string, w: Warning)
    requires Emitted(src, drop, seen, out, warnings) && ref !in seen
    requires WarningOf(src, drop, ref) == Some(w)
    ensures Emitted(src, drop, seen + {ref}, out, warnings + [w])
  {
    if w in warnings {
      var r :| r in seen && WarningOf(src, drop, r) == Some(w);
      WarningInjective(src, drop, r, ref);
    }
    ConcatNoDuplicates(warnings, [w]);
    assert Target(src, drop, ref) == None;
    forall v ensures v in warnings + [w] <==> exists r :: r in seen + {ref} && WarningOf(src, drop, r) == Some(v) {
      if v == w {
        assert ref in seen + {ref} && WarningOf(src, drop, ref) == Some(v);
      }
    }
  }

  lemma GatherOne(src: Components, drop: set<string>, seen: set<string>, out: Components, ref: string, l: Loc)
    requires Gathered(src, drop, seen, out) && Target(src, drop, ref) == Some(l)
    ensures Gathered(src, drop, seen + {ref}, out[l := Strip(src[l])])
  {
    forall m ensures Aimed(src, drop, seen + {ref}, m) <==> m == l || Aimed(src, drop, seen, m) {
      AimedOneMore(src, drop, seen, ref, l, m);
    }
  }

  lemma AimedOneMore(src: Components, drop: set<string>, seen: set<string>, ref: string, l: Loc, m: Loc)
    requires Target(src, drop, ref) == Some(l)
    ensures Aimed(src, drop, seen + {ref}, m) <==> m == l || Aimed(src, drop, seen, m)
  {
    if m == l {
      assert ref in seen + {ref} && Target(src, drop, ref) == Some(m);
    } else if r :| r in seen && Target(src, drop, r) == Some(m) {
      assert r in seen + {ref};
    }
  }

  lemma WarningsStay(src: Components, drop: set<string>, seen: set<string>, warnings: seq<Warning>, ref: string)
    requires Warned(src, drop, seen, warnings) && WarningOf(src, drop, ref) == None
    ensures Warned(src, drop, seen + {ref}, warnings)
  {
    forall w | w in warnings ensures exists r :: r in seen + {ref} && WarningOf(src, drop, r) == Some(w) {
      var r :| r in seen && WarningOf(src, drop, r) == Some(w);
      assert r in seen + {ref};
    }
  }

  lemma EmitComponent(src: Components, drop: set<string>, seen: set<string>, out: Components, warnings: seq<Warning>, ref: string, l: Loc)
    requires Emitted(src, drop, seen, out, warnings)
    requires Target(src, drop, ref) == Some(l)
    ensures Emitted(src, drop, seen + {ref}, out[l := Strip(src[l])], warnings)
  {
    GatherOne(src, drop, seen, out, ref, l);
    WarningsStay(src, drop, seen, warnings, ref);
  }

  lemma EmitNothing(src: Components, drop: set<string>, seen: set<string>, out: Components, warnings: seq<Warning>, ref: string)
    requires Emitted(src, drop, seen, out, warnings) && Dropped(drop, ref)
    ensures Emitted(src, drop, seen + {ref}, out, warnings)
  {
    assert Target(src, drop, ref) == None && WarningOf(src, drop, ref) == None;
  }

  ghost predicate Working(src: Components, drop: set<string>, roots: set<string>, seen: set<string>, frontier: set<string>) {
    && (forall r :: r in seen || r in frontier ==> Reached(PrunedEdges(src), drop, roots, r))
    && roots <= seen + frontier <= Universe(src, roots)
    && Closed(PrunedEdges(src), drop, seen, frontier)
  }

  lemma Start(src: Components, drop: set<string>, roots: set<string>)
    ensures Working(src, drop, roots, {}, roots)
  {
    forall r | r in roots ensures Reached(PrunedEdges(src), drop, roots, r) {
      assert ReachedIn(PrunedEdges(src), drop, roots, r, 0);
    }
  }

  /** A reference that pulls nothing in is simply done. */
  lemma Skip(src: Components, drop: set<string>, roots: set<string>, seen: set<string>, frontier: set<string>, ref: string)
    requires Working(src, drop, roots, seen, frontier) && ref in frontier
    requires ref in seen || Target(src, drop, ref) == None
    ensures Working(src, drop, roots, seen + {ref}, frontier - {ref})
  {
    forall from, to | from in seen + {ref} && Follows(PrunedEdges(src), drop, from, to)
      ensures to in seen + {ref} || to in frontier - {ref}
    {
      assert from in seen;
    }
  }

  lemma Expand(src: Components, drop: set<string>, roots: set<string>, seen: set<string>, frontier: set<string>, ref: string, l: Loc, more: set<string>)
    requires Working(src, drop, roots, seen, frontier) && ref in frontier
    requires Target(src, drop, ref) == Some(l)
    requires forall r :: r in more <==> r in Refs(Strip(src[l])) && !Dropped(drop, r) && r !in seen + {ref}
    ensures Working(src, drop, roots, seen + {ref}, frontier - {ref} + more)
  {
    var edges := PrunedEdges(src);
    forall r | r in more ensures Reached(edges, drop, roots, r) && r in Universe(src, roots) {
      assert Follows(edges, drop, ref, r);
      ReachedNext(edges, drop, roots, ref, r);
    }
    forall from, to | from in seen + {ref} && Follows(edges, drop, from, to)
      ensures to in seen + {ref} || to in frontier - {ref} + more
    {
      if from == ref {
        assert to in Refs(Strip(src[l]));
      }
    }
  }

  lemma Finish(src: Components, drop: set<string>, roots: set<string>, seen: set<string>)
    requires Working(src, drop, roots, seen, {})
    ensures forall r :: r in seen <==> Reached(PrunedEdges(src), drop, roots, r)
  {
    forall r | Reached(PrunedEdges(src), drop, roots, r) ensures r in seen {
      var n: nat :| ReachedIn(PrunedEdges(src), drop, roots, r, n);
      ReachedIsSeen(PrunedEdges(src), drop, roots, seen, r, n);
    }
  }

  /** The worklist loop; the reference popped next is any one of the frontier. */
  method Closure(src: Components, drop: set<string>, roots: set<string>)
    returns (out: Components, warnings: seq<Warning>)
    ensures forall l :: l in out <==> exists r :: Reached(PrunedEdges(src), drop, roots, r) && Target(src, drop, r) == Some(l)
    ensures forall l :: l in out ==> l in src && out[l] == Strip(src[l])
    ensures NoDuplicates(warnings)
    ensures forall w :: w in warnings <==> exists r :: Reached(PrunedEdges(src), drop, roots, r) && WarningOf(src, drop, r) == Some(w)
  {
    var frontier := roots;
    var visited: set<string> := {};
    out, warnings := map[], [];
    Start(src, drop, roots);
    while frontier != {}
      invariant Working(src, drop, roots, visited, frontier)
      invariant Emitted(src, drop, visited, out, warnings)
      decreases Universe(src, roots) - visited, |frontier|
    {
      var ref :| ref in frontier;
      if ref in visited {
        Skip(src, drop, roots, visited, frontier, ref);
        assert visited + {ref} == visited;
        frontier := frontier - {ref};
        continue;
      }
      assert ref in Universe(src, roots) - visited;
      var target := RefToLoc(ref);
      if target.None? {
        EmitWarning(src, drop, visited, out, warnings, ref, NonComponent(ref));
        Skip(src, drop, roots, visited, frontier, ref);
        warnings := warnings + [NonComponent(ref)];
        visited, frontier := visited + {ref}, frontier - {ref};
        continue;
      }
      var loc := target.value;
      if loc.kind == "schemas" && loc.name in drop {
        EmitNothing(src, drop, visited, out, warnings, ref);
        Skip(src, drop, roots, visited, frontier, ref);
        visited, frontier := visited + {ref}, frontier - {ref};
        continue;
      }
      if loc !in src {
        EmitWarning(src, drop, visited, out, warnings, ref, Missing(loc));
        Skip(src, drop, roots, visited, frontier, ref);
        warnings := warnings + [Missing(loc)];
        visited, frontier := visited + {ref}, frontier - {ref};
        continue;
      }
      EmitComponent(src, drop, visited, out, warnings, ref, loc);
      var node := Strip(src[loc]);
      out := out[loc := node];
      var more := set r | r in Refs(node) && !Dropped(drop, r) && r !in visited + {ref};
      Expand(src, drop, roots, visited, frontier, ref, loc, more);
      visited, frontier := visited + {ref}, frontier - {ref} + more;
    }
    Finish(src, drop, roots, visited);
  }

  /** The references the kept path items make. */
  function RootRefs(paths: map<string, Json>): set<string> { set p, r | p in paths && r in Refs(paths[p]) :: r }

  /** The paths to keep that the document has not, one warning for each time one is named. */
  function MissingPaths(all: map<string, Json>, keep: seq<string>): seq<string> { Filter(keep, (p: string) => p !in all) }

  method KeepPaths(all: map<string, Json>, keep: seq<string>) returns (kept: map<string, Json>, missing: seq<string>)
    ensures kept == map p | p in keep && p in all :: all[p]
    ensures missing == MissingPaths(all, keep)
  {
    kept, missing := map[], [];
    for i := 0 to |keep|
      invariant kept == map p | p in keep[..i] && p in all :: all[p]
      invariant missing == MissingPaths(all, keep[..i])
    {
      assert keep[..i + 1] == keep[..i] + [keep[i]] && keep[..i + 1][..i] == keep[..i];
      if keep[i] in all {
        kept := kept[keep[i] := all[keep[i]]];
      } else {
        missing := missing + [keep[i]];
      }
    }
    assert keep[..|keep|] == keep;
  }

  /** Pruned path items, the components pulled in from them, and the warnings: those about paths
      first, then those about references. */
  method Subset(src: Components, drop: set<string>, all: map<string, Json>, keep: seq<string>)
    returns (paths: map<string, Json>, out: Components, missing: seq<string>, warnings: seq<Warning>)
    ensures paths == map p | p in keep && p in all :: Strip(all[p])
    ensures missing == MissingPaths(all, keep)
    ensures forall l :: l in out <==>
              exists r :: Reached(PrunedEdges(src), drop, RootRefs(paths), r) && Target(src, drop, r) == Some(l)
    ensures forall l :: l in out ==> out[l] == Strip(src[l])
    ensures NoDuplicates(warnings)
    ensures forall w :: w in warnings <==>
              exists r :: Reached(PrunedEdges(src), drop, RootRefs(paths), r) && WarningOf(src, drop, r) == Some(w)
  {
    var kept;
    kept, missing := KeepPaths(all, keep);
    paths := map p | p in kept :: Strip(kept[p]);
    out, warnings := Closure(src, drop, RootRefs(paths));
  }

  /** Nothing dangles: a reference left in a kept path or an emitted component resolves in
      the output, names a dropped schema, or has exactly one warning. */
  lemma NothingDangles(src: Components, drop: set<string>, paths: map<string, Json>, out: Components, warnings: seq<Warning>, ref: string)
    requires forall l :: l in out <==>
               exists r :: Reached(PrunedEdges(src), drop, RootRefs(paths), r) && Target(src, drop, r) == Some(l)
    requires forall l :: l in out ==> out[l] == Strip(src[l])
    requires NoDuplicates(warnings)
    requires forall w :: w in warnings <==>
               exists r :: Reached(PrunedEdges(src), drop, RootRefs(paths), r) && WarningOf(src, drop, r) == Some(w)
    requires ref in RootRefs(paths) || exists l :: l in out && ref in Refs(out[l])
    ensures || (RefToLoc(ref).Some? && RefToLoc(ref).value in out)
            || Dropped(drop, ref)
            || (WarningOf(src, drop, ref).Some? && multiset(warnings)[WarningOf(src, drop, ref).value] == 1)
  {
    var edges, roots := PrunedEdges(src), RootRefs(paths);
    if !Dropped(drop, ref) {
      if ref in roots {
        assert ReachedIn(edges, drop, roots, ref, 0);
      } else {
        var l :| l in out && ref in Refs(out[l]);
        var from :| Reached(edges, drop, roots, from) && Target(src, drop, from) == Some(l);
        assert Follows(edges, drop, from, ref);
        ReachedNext(edges, drop, roots, from, ref);
      }
      if WarningOf(src, drop, ref).Some? {
        CountOnce(warnings, WarningOf(src, drop, ref).value);
      } else {
        assert Target(src, drop, ref) == RefToLoc(ref);
      }
    }
  }

  lemma {:induction false} CountOnce<T>(s: seq<T>, x: T)
    requires NoDuplicates(s) && x in s
    ensures multiset(s)[x] == 1
  {
    var init := s[..|s| - 1];
    assert s == init + [s[|s| - 1]];
    ConcatNoDuplicates(init, [s[|s| - 1]]);
    if x in init {
      CountOnce(init, x);
    }
  }

  lemma {:induction false} ReachedMonotone(edges: map<Loc, set<string>>, wider: map<Loc, set<string>>, drop: set<string>,
                                           roots: set<string>, more: set<string>, ref: string, n: nat)
    requires roots <= more && forall l :: l in edges ==> l in wider && edges[l] <= wider[l]
    requires ReachedIn(edges, drop, roots, ref, n)
    ensures ReachedIn(wider, drop, more, ref, n)
    decreases n
  {
    if n > 0 {
      var from :| ReachedIn(edges, drop, roots, from, n - 1) && Follows(edges, drop, from, ref);
      ReachedMonotone(edges, wider, drop, roots, more, from, n - 1);
      assert Follows(wider, drop, from, ref);
    }
  }

  /** Following pruned nodes from pruned paths never leads further than the original would. */
  lemma PrunedWithinNaive(src: Components, drop: set<string>, kept: map<string, Json>, ref: string)
    requires Reached(PrunedEdges(src), drop, RootRefs(map p | p in kept :: Strip(kept[p])), ref)
    ensures Reached(NaiveEdges(src), drop, RootRefs(kept), ref)
  {
    var pruned := map p | p in kept :: Strip(kept[p]);
    var n: nat :| ReachedIn(PrunedEdges(src), drop, RootRefs(pruned), ref, n);
    forall p, r | p in pruned && r in Refs(pruned[p]) ensures r in RootRefs(kept) {
      StripRefs(kept[p]);
    }
    forall l | l in PrunedEdges(src) ensures PrunedEdges(src)[l] <= NaiveEdges(src)[l] {
      StripRefs(src[l]);
    }
    ReachedMonotone(PrunedEdges(src), NaiveEdges(src), drop, RootRefs(pruned), RootRefs(kept), ref, n);
  }
}
