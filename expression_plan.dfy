/** The configuration listener of the expression sink: it indexes offered
    expressions by target, orders them dependencies-first with a depth-first
    insertion, and publishes the last successfully offered plan. */
module ExpressionPlan {
  import opened Wrappers
  import opened Model

  /** A configured derivation rule: the FQDSN it produces, the FQDSNs it
      reads (in declaration order) and its script, kept abstract. */
  datatype Expression = Expression(target: FQDSN, dependencies: seq<FQDSN>, script: string)

  /** Why an offered configuration was rejected. */
  datatype ConfigError =
    | DuplicateTarget(first: Expression, second: Expression)
    | DependencyCycle(expression: Expression, parents: set<FQDSN>)

  /** Expressions by target FQDSN. */
  type Index = map<FQDSN, Expression>

  ghost predicate IndexedByTarget(index: Index) {
    forall f :: f in index ==> index[f].target == f
  }

  ghost predicate DistinctTargets(exprs: seq<Expression>) {
    forall i, j :: 0 <= i < j < |exprs| ==> exprs[i].target != exprs[j].target
  }

  ghost predicate NoDuplicates<T>(s: seq<T>) {
    forall i, j :: 0 <= i < j < |s| ==> s[i] != s[j]
  }

  /** Indexes the expressions by target, failing on the first expression
      whose target is already taken. */
  function UniqueIndex(exprs: seq<Expression>): (r: Result<Index, ConfigError>)
    ensures r.Success? <==> DistinctTargets(exprs)
    ensures r.Success? ==> IndexedByTarget(r.value)
    ensures r.Success? ==> forall i :: 0 <= i < |exprs| ==> exprs[i].target in r.value && r.value[exprs[i].target] == exprs[i]
    ensures r.Success? ==> forall f :: f in r.value ==> r.value[f] in exprs
    ensures r.Failure? ==>
      && r.error.DuplicateTarget? && r.error.first in exprs && r.error.second in exprs
      && r.error.first.target == r.error.second.target
  {
    if exprs == [] then Success(map[])
    else
      var init := exprs[..|exprs| - 1];
      var last := exprs[|exprs| - 1];
      assert exprs == init + [last];
      match UniqueIndex(init)
      case Failure(e) =>
        assert !DistinctTargets(exprs) by {
          var i, j :| 0 <= i < j < |init| && init[i].target == init[j].target;
          assert exprs[i] == init[i] && exprs[j] == init[j];
        }
        Failure(e)
      case Success(m) =>
        if last.target in m then
          assert !DistinctTargets(exprs) by {
            var i :| 0 <= i < |init| && init[i] == m[last.target];
            assert exprs[i].target == exprs[|exprs| - 1].target;
          }
          Failure(DuplicateTarget(m[last.target], last))
        else
          assert DistinctTargets(exprs) by {
            forall i, j | 0 <= i < j < |exprs| ensures exprs[i].target != exprs[j].target {
              if j < |init| {
                assert exprs[i] == init[i] && exprs[j] == init[j];
              } else {
                assert exprs[i] == init[i] && init[i].target in m;
              }
            }
          }
          Success(m[last.target := last])
  }

  /** No expression depends on the target of an expression. */
  ghost predicate NoInternalDependencies(index: Index) {
    forall f, d :: f in index && d in index[f].dependencies ==> d !in index
  }

  /** Every dependency in `deps` that is itself an indexed target occurs in
      `placed`. */
  ghost predicate AllPlaced(index: Index, deps: seq<FQDSN>, placed: seq<FQDSN>)
    decreases |deps|
  {
    deps == [] ||
    var n := |deps| - 1;
    && AllPlaced(index, deps[..n], placed)
    && (deps[n] in index ==> deps[n] in placed)
  }

  lemma {:induction false} AllPlacedAt(index: Index, deps: seq<FQDSN>, placed: seq<FQDSN>, k: nat)
    requires AllPlaced(index, deps, placed) && k < |deps| && deps[k] in index
    ensures deps[k] in placed
    decreases |deps|
  {
    var n := |deps| - 1;
    if k < n {
      AllPlacedAt(index, deps[..n], placed, k);
      assert deps[..n][k] == deps[k];
    }
  }

  lemma {:induction false} AllPlacedGrows(index: Index, deps: seq<FQDSN>, placed: seq<FQDSN>, more: seq<FQDSN>)
    requires AllPlaced(index, deps, placed) && placed <= more
    ensures AllPlaced(index, deps, more)
    decreases |deps|
  {
    if deps != [] {
      var n := |deps| - 1;
      AllPlacedGrows(index, deps[..n], placed, more);
      if deps[n] in index {
        var j :| 0 <= j < |placed| && placed[j] == deps[n];
        assert more[j] == deps[n];
      }
    }
  }

  lemma AllPlacedExtend(index: Index, deps: seq<FQDSN>, placed: seq<FQDSN>, i: nat)
    requires i < |deps| && AllPlaced(index, deps[..i], placed)
    requires deps[i] in index ==> deps[i] in placed
    ensures AllPlaced(index, deps[..i + 1], placed)
  {
    assert deps[..i + 1][..i] == deps[..i];
  }

  /** Every element is an indexed target, and every dependency of an element
      that is itself an indexed target occurs earlier. */
  ghost predicate DependenciesFirst(index: Index, ordered: seq<FQDSN>)
    decreases |ordered|
  {
    ordered == [] ||
    var n := |ordered| - 1;
    && DependenciesFirst(index, ordered[..n])
    && ordered[n] in index
    && AllPlaced(index, index[ordered[n]].dependencies, ordered[..n])
  }

  /** The element at each position of a dependencies-first order is
      preceded by its expression dependencies. */
  lemma {:induction false} DependenciesFirstAt(index: Index, ordered: seq<FQDSN>, i: nat)
    requires DependenciesFirst(index, ordered) && i < |ordered|
    ensures ordered[i] in index
    ensures AllPlaced(index, index[ordered[i]].dependencies, ordered[..i])
    decreases |ordered|
  {
    var n := |ordered| - 1;
    if i < n {
      DependenciesFirstAt(index, ordered[..n], i);
      assert ordered[..n][..i] == ordered[..i];
    }
  }

  lemma DependenciesFirstInIndex(index: Index, ordered: seq<FQDSN>)
    requires DependenciesFirst(index, ordered)
    ensures forall k :: 0 <= k < |ordered| ==> ordered[k] in index
  {
    forall k | 0 <= k < |ordered| ensures ordered[k] in index {
      DependenciesFirstAt(index, ordered, k);
    }
  }

  /** A chain of indexed targets, each depending on the next. */
  ghost predicate IsPath(index: Index, p: seq<FQDSN>) {
    (forall k :: 0 <= k < |p| ==> p[k] in index) &&
    forall k :: 0 <= k < |p| - 1 ==> p[k + 1] in index[p[k]].dependencies
  }

  /** A chain whose last element depends on its first: a dependency cycle
      (an expression depending on its own target is a cycle of length 1). */
  ghost predicate IsCycle(index: Index, p: seq<FQDSN>) {
    |p| > 0 && IsPath(index, p) && p[0] in index[p[|p| - 1]].dependencies
  }

  ghost predicate HasCycle(index: Index) {
    exists p :: IsCycle(index, p)
  }

  /** `x` can be reached from `root` along dependencies between indexed
      targets (every indexed target reaches itself). */
  ghost predicate Reaches(index: Index, root: FQDSN, x: FQDSN) {
    exists p :: IsPath(index, p) && |p| > 0 && p[0] == root && p[|p| - 1] == x
  }

  /** `x` can be reached from one of the roots. */
  ghost predicate ReachedFrom(index: Index, roots: seq<FQDSN>, x: FQDSN) {
    exists m :: 0 <= m < |roots| && Reaches(index, roots[m], x)
  }

  /** Every target appended to `before` to give `after` is reachable from
      `root`. */
  ghost predicate AddedReachable(index: Index, root: FQDSN, before: seq<FQDSN>, after: seq<FQDSN>) {
    forall k :: |before| <= k < |after| ==> Reaches(index, root, after[k])
  }

  /** Every occurrence of `x` in `s` comes before every occurrence of `y`. */
  ghost predicate Before<T>(s: seq<T>, x: T, y: T) {
    forall a, b :: 0 <= a < |s| && 0 <= b < |s| && s[a] == x && s[b] == y ==> a < b
  }

  /** The tie-breaking of the depth-first insertion: of the first `n`
      targets, each comes before every later target that none of the
      targets up to and including it reaches. */
  ghost predicate InputOrderKept(index: Index, targets: seq<FQDSN>, n: nat, s: seq<FQDSN>) {
    forall a, b :: 0 <= a < b < |targets| && a < n && !ReachedFrom(index, targets[..a + 1], targets[b]) ==>
      Before(s, targets[a], targets[b])
  }

  /** The state of one depth-first insertion: the targets in progress
      ("parents"), the targets already placed in evaluation order, and, as
      proof bookkeeping, the chain of parents in the order they were
      entered. */
  class PlanBuilder {
    const index: Index
    var parents: set<FQDSN>
    var ordered: seq<FQDSN>
    ghost var stack: seq<FQDSN>

    ghost predicate Valid()
      reads this
    {
      BuilderInvariant(index, parents, ordered, stack)
    }

    constructor (index: Index)
      requires IndexedByTarget(index)
      ensures Valid()
      ensures this.index == index && parents == {} && ordered == [] && stack == []
    {
      this.index := index;
      parents := {};
      ordered := [];
      stack := [];
    }

    /** Starts the insertion of a top-level expression with no parents. */
    method ResetParents()
      requires Valid()
      modifies this
      ensures Valid()
      ensures parents == {} && stack == [] && ordered == old(ordered)
    {
      parents := {};
      stack := [];
    }

    /** Places the expression after all of its expression dependencies,
        unless it is already placed; fails when it is already in progress,
        which closes a dependency cycle. */
    method Insert(e: Expression) returns (err: Option<ConfigError>)
      requires Valid() && IndexedByTarget(index)
      requires e.target in index && index[e.target] == e
      requires stack != [] ==> e.target in index[stack[|stack| - 1]].dependencies
      modifies this
      decreases |index.Keys - parents|, 1
      ensures Valid()
      ensures err.Some? ==> err.value.DependencyCycle? && HasCycle(index)
      ensures err.None? ==> parents == old(parents) && stack == old(stack)
      ensures err.None? ==> e.target in ordered && old(ordered) <= ordered
      ensures err.None? ==> AddedReachable(index, e.target, old(ordered), ordered)
      ensures err.None? && NoInternalDependencies(index) ==>
        ordered == old(ordered) + (if e.target in old(ordered) then [] else [e.target])
    {
      if e.target in parents {
        CycleFromStack(index, stack, e.target);
        err := Some(DependencyCycle(e, parents));
      } else if e.target in ordered {
        err := None;
      } else {
        err := Place(e);
      }
    }

    /** Inserts the dependencies of an expression that is neither placed
        nor in progress, then places it. */
    method Place(e: Expression) returns (err: Option<ConfigError>)
      requires Valid() && IndexedByTarget(index)
      requires e.target in index && index[e.target] == e
      requires e.target !in parents && e.target !in ordered
      requires stack != [] ==> e.target in index[stack[|stack| - 1]].dependencies
      modifies this
      decreases |index.Keys - parents|, 0
      ensures Valid()
      ensures err.Some? ==> err.value.DependencyCycle? && HasCycle(index)
      ensures err.None? ==> parents == old(parents) && stack == old(stack)
      ensures err.None? && NoInternalDependencies(index) ==> ordered == old(ordered) + [e.target]
      ensures err.None? ==> e.target in ordered && old(ordered) <= ordered
      ensures err.None? ==> AddedReachable(index, e.target, old(ordered), ordered)
    {
      var fqdsn := e.target;
      ghost var entryStack := stack;
      PushParent(index, parents, ordered, stack, fqdsn);
      FewerUnvisited(index.Keys, parents, fqdsn);
      parents, stack := parents + {fqdsn}, stack + [fqdsn];
      err := InsertDependencies(e);
      if err.Some? {
        return;
      }
      PopParent(index, old(parents), ordered, old(stack), fqdsn, e);
      RemoveAdded(old(parents), fqdsn);
      PrefixAppend(old(ordered), ordered, fqdsn);
      ReachesSelf(index, fqdsn);
      AddedReachableAppend(index, fqdsn, old(ordered), ordered, fqdsn);
      ordered, parents, stack := ordered + [fqdsn], parents - {fqdsn}, entryStack;
    }

    /** Inserts, in declaration order, every dependency of the expression
        in progress that is itself an expression target; dependencies on raw
        data are skipped. */
    method InsertDependencies(e: Expression) returns (err: Option<ConfigError>)
      requires Valid() && IndexedByTarget(index)
      requires e.target in index && index[e.target] == e
      requires stack != [] && stack[|stack| - 1] == e.target
      modifies this
      decreases |index.Keys - parents|, 2
      ensures Valid()
      ensures err.Some? ==> err.value.DependencyCycle? && HasCycle(index)
      ensures err.None? ==> parents == old(parents) && stack == old(stack) && old(ordered) <= ordered
      ensures err.None? ==> AllPlaced(index, e.dependencies, ordered)
      ensures err.None? ==> AddedReachable(index, e.target, old(ordered), ordered)
      ensures err.None? && NoInternalDependencies(index) ==> ordered == old(ordered)
    {
      var i := 0;
      while i < |e.dependencies|
        invariant 0 <= i <= |e.dependencies|
        invariant Valid()
        invariant parents == old(parents) && stack == old(stack)
        invariant old(ordered) <= ordered
        invariant AllPlaced(index, e.dependencies[..i], ordered)
        invariant AddedReachable(index, e.target, old(ordered), ordered)
        invariant NoInternalDependencies(index) ==> ordered == old(ordered)
      {
        var dependencyFqdsn := e.dependencies[i];
        if dependencyFqdsn in index {
          var dependency := index[dependencyFqdsn];
          ghost var before := ordered;
          err := Insert(dependency);
          if err.Some? {
            return;
          }
          AllPlacedGrows(index, e.dependencies[..i], before, ordered);
          AddedReachableStep(index, e.target, dependencyFqdsn, old(ordered), before, ordered);
        }
        AllPlacedExtend(index, e.dependencies, ordered, i);
        i := i + 1;
      }
      assert e.dependencies[..i] == e.dependencies;
      err := None;
    }
    /** Inserts every expression in turn, each starting with no parents. */
    method InsertAll(exprs: seq<Expression>) returns (err: Option<ConfigError>)
      requires Valid() && IndexedByTarget(index) && ordered == []
      requires forall k :: 0 <= k < |exprs| ==> exprs[k].target in index && index[exprs[k].target] == exprs[k]
      requires DistinctTargets(exprs)
      modifies this
      ensures Valid()
      ensures err.Some? ==> err.value.DependencyCycle? && HasCycle(index)
      ensures err.None? ==> AllPlaced(index, Targets(exprs), ordered)
      ensures err.None? && NoInternalDependencies(index) ==> ordered == Targets(exprs)
      ensures err.None? ==> InputOrderKept(index, Targets(exprs), |exprs|, ordered)
    {
      ghost var targets := Targets(exprs);
      var i := 0;
      while i < |exprs|
        invariant 0 <= i <= |exprs|
        invariant Valid()
        invariant TopLevelDone(index, targets, i, ordered)
      {
        err := InsertTopLevel(exprs, targets, i);
        if err.Some? {
          return;
        }
        i := i + 1;
      }
      assert targets[..i] == targets;
      err := None;
    }

    /** Inserts the `i`-th expression with no parents. */
    method InsertTopLevel(exprs: seq<Expression>, ghost targets: seq<FQDSN>, i: nat) returns (err: Option<ConfigError>)
      requires Valid() && IndexedByTarget(index)
      requires forall k :: 0 <= k < |exprs| ==> exprs[k].target in index && index[exprs[k].target] == exprs[k]
      requires DistinctTargets(exprs) && targets == Targets(exprs) && i < |exprs|
      requires TopLevelDone(index, targets, i, ordered)
      modifies this
      ensures Valid()
      ensures err.Some? ==> err.value.DependencyCycle? && HasCycle(index)
      ensures err.None? ==> TopLevelDone(index, targets, i + 1, ordered)
    {
      ResetParents();
      ghost var before := ordered;
      err := Insert(exprs[i]);
      if err.Some? {
        return;
      }
      TopLevelStep(index, targets, i, before, ordered);
      AllPlacedGrows(index, targets[..i], before, ordered);
      AllPlacedExtend(index, targets, ordered, i);
      if NoInternalDependencies(index) {
        TargetsDistinct(exprs, i);
      }
    }
  }

  /** What holds between insertion steps: the order so far is duplicate-free
      and dependencies-first, the parents are exactly the chain of targets
      in progress, and no target in progress is placed yet. */
  ghost predicate BuilderInvariant(index: Index, parents: set<FQDSN>, ordered: seq<FQDSN>, stack: seq<FQDSN>) {
    && Distinct(ordered)
    && DependenciesFirst(index, ordered)
    && parents == Elements(stack)
    && Chain(index, stack)
    && parents !! Elements(ordered)
  }

  /** The elements of a sequence, as a set. */
  ghost function Elements<T>(s: seq<T>): set<T>
    decreases |s|
  {
    if s == [] then {} else Elements(s[..|s| - 1]) + {s[|s| - 1]}
  }

  lemma {:induction false} ElementsIn<T>(s: seq<T>, x: T)
    ensures x in Elements(s) <==> x in s
    decreases |s|
  {
    if s != [] {
      var n := |s| - 1;
      ElementsIn(s[..n], x);
      assert s == s[..n] + [s[n]];
    }
  }

  lemma ElementsAppend<T>(s: seq<T>, x: T)
    ensures Elements(s + [x]) == Elements(s) + {x}
  {
    assert (s + [x])[..|s|] == s;
  }

  /** Duplicate-free, stated one appended element at a time. */
  ghost predicate Distinct<T>(s: seq<T>)
    decreases |s|
  {
    s == [] || (Distinct(s[..|s| - 1]) && s[|s| - 1] !in s[..|s| - 1])
  }

  lemma {:induction false} DistinctNoDuplicates<T>(s: seq<T>)
    requires Distinct(s)
    ensures NoDuplicates(s)
    decreases |s|
  {
    if s != [] {
      var n := |s| - 1;
      DistinctNoDuplicates(s[..n]);
      forall i, j | 0 <= i < j < |s| ensures s[i] != s[j] {
        if j < n {
          assert s[..n][i] == s[i] && s[..n][j] == s[j];
        } else {
          assert s[..n][i] == s[i];
        }
      }
    }
  }

  /** A path of indexed targets, stated one appended element at a time. */
  ghost predicate Chain(index: Index, p: seq<FQDSN>)
    decreases |p|
  {
    p == [] ||
    var n := |p| - 1;
    && Chain(index, p[..n])
    && p[n] in index
    && (n > 0 ==> p[n] in index[p[n - 1]].dependencies)
  }

  lemma {:induction false} ChainIsPath(index: Index, p: seq<FQDSN>)
    requires Chain(index, p)
    ensures IsPath(index, p)
    decreases |p|
  {
    if p != [] {
      var n := |p| - 1;
      ChainIsPath(index, p[..n]);
      forall k | 0 <= k < |p| ensures p[k] in index {
        if k < n {
          assert p[..n][k] == p[k];
        }
      }
      forall k | 0 <= k < |p| - 1 ensures p[k + 1] in index[p[k]].dependencies {
        if k + 1 < n {
          assert p[..n][k] == p[k] && p[..n][k + 1] == p[k + 1];
        }
      }
    }
  }

  lemma PushParent(index: Index, parents: set<FQDSN>, ordered: seq<FQDSN>, stack: seq<FQDSN>, f: FQDSN)
    requires BuilderInvariant(index, parents, ordered, stack)
    requires f in index && f !in parents && f !in ordered
    requires stack != [] ==> f in index[stack[|stack| - 1]].dependencies
    ensures BuilderInvariant(index, parents + {f}, ordered, stack + [f])
  {
    var s := stack + [f];
    assert s[..|stack|] == stack;
    ElementsAppend(stack, f);
    ElementsIn(ordered, f);
  }

  lemma PopParent(index: Index, parents: set<FQDSN>, ordered: seq<FQDSN>, stack: seq<FQDSN>, f: FQDSN, e: Expression)
    requires BuilderInvariant(index, parents + {f}, ordered, stack + [f])
    requires f !in parents && f !in Elements(stack) && f in index && index[f] == e
    requires AllPlaced(index, e.dependencies, ordered)
    ensures BuilderInvariant(index, parents, ordered + [f], stack)
  {
    var s := stack + [f];
    assert s[..|stack|] == stack;
    ElementsAppend(stack, f);
    ElementsAppend(ordered, f);
    ElementsIn(ordered, f);
    AppendPreservesOrder(index, ordered, f);
    var o := ordered + [f];
    assert o[..|ordered|] == ordered;
  }

  /** Entering a target shrinks the set of targets not yet in progress,
      which bounds the depth of the recursion. */
  lemma FewerUnvisited<T>(keys: set<T>, parents: set<T>, x: T)
    requires x in keys && x !in parents
    ensures |keys - (parents + {x})| < |keys - parents|
  {
    assert keys - (parents + {x}) == (keys - parents) - {x};
  }

  lemma RemoveAdded<T>(s: set<T>, x: T)
    requires x !in s
    ensures (s + {x}) - {x} == s
  {
  }

  lemma PrefixAppend<T>(a: seq<T>, b: seq<T>, x: T)
    requires a <= b
    ensures a <= b + [x]
  {
    assert (b + [x])[..|a|] == b[..|a|];
  }

  lemma PrefixKeepsElements<T>(a: seq<T>, b: seq<T>)
    requires a <= b
    ensures forall x :: x in a ==> x in b
  {
    forall x | x in a ensures x in b {
      var k :| 0 <= k < |a| && a[k] == x;
      assert b[k] == x;
    }
  }

  /** Appending a target whose expression dependencies are all placed keeps
      the order dependencies-first. */
  lemma AppendPreservesOrder(index: Index, ordered: seq<FQDSN>, f: FQDSN)
    requires DependenciesFirst(index, ordered)
    requires f in index
    requires AllPlaced(index, index[f].dependencies, ordered)
    ensures DependenciesFirst(index, ordered + [f])
  {
    var o := ordered + [f];
    assert o[..|o| - 1] == ordered;
  }

  /** A target met again while it is in progress closes a cycle through the
      chain of parents. */
  lemma CycleFromStack(index: Index, stack: seq<FQDSN>, f: FQDSN)
    requires Chain(index, stack)
    requires f in Elements(stack)
    requires f in index[stack[|stack| - 1]].dependencies
    ensures HasCycle(index)
  {
    ElementsIn(stack, f);
    ChainIsPath(index, stack);
    var j :| 0 <= j < |stack| && stack[j] == f;
    var p := stack[j..];
    assert p[|p| - 1] == stack[|stack| - 1];
    forall k | 0 <= k < |p| - 1 ensures p[k + 1] in index[p[k]].dependencies {
      assert p[k] == stack[j + k] && p[k + 1] == stack[j + k + 1];
    }
    assert IsCycle(index, p);
  }

  /** The position of an element of a sequence. */
  lemma ReachesSelf(index: Index, f: FQDSN)
    requires f in index
    ensures Reaches(index, f, f)
  {
    assert IsPath(index, [f]);
  }

  /** A target reaches whatever its dependencies reach. */
  lemma ReachesThrough(index: Index, a: FQDSN, b: FQDSN, x: FQDSN)
    requires a in index && b in index[a].dependencies && Reaches(index, b, x)
    ensures Reaches(index, a, x)
  {
    var p :| IsPath(index, p) && |p| > 0 && p[0] == b && p[|p| - 1] == x;
    var q := [a] + p;
    assert IsPath(index, q) by {
      forall k | 0 <= k < |q| - 1 ensures q[k + 1] in index[q[k]].dependencies {
        if k > 0 {
          assert q[k] == p[k - 1] && q[k + 1] == p[k];
        }
      }
    }
    assert q[0] == a && q[|q| - 1] == x;
  }

  lemma AddedReachableAppend(index: Index, root: FQDSN, before: seq<FQDSN>, after: seq<FQDSN>, x: FQDSN)
    requires |before| <= |after| && AddedReachable(index, root, before, after) && Reaches(index, root, x)
    ensures AddedReachable(index, root, before, after + [x])
  {
    var s := after + [x];
    forall k | |before| <= k < |s| ensures Reaches(index, root, s[k]) {
      if k < |after| {
        assert s[k] == after[k];
      }
    }
  }

  /** What a dependency's insertion appends is reachable from the
      expression that depends on it. */
  lemma AddedReachableStep(index: Index, root: FQDSN, dep: FQDSN, s0: seq<FQDSN>, s1: seq<FQDSN>, s2: seq<FQDSN>)
    requires s0 <= s1 && s1 <= s2
    requires root in index && dep in index[root].dependencies
    requires AddedReachable(index, root, s0, s1) && AddedReachable(index, dep, s1, s2)
    ensures AddedReachable(index, root, s0, s2)
  {
    forall k | |s0| <= k < |s2| ensures Reaches(index, root, s2[k]) {
      if k < |s1| {
        assert s2[k] == s1[k];
      } else {
        ReachesThrough(index, root, dep, s2[k]);
      }
    }
  }

  /** What holds after the first `n` top-level insertions: their targets
      are placed (in input order when nothing depends on an expression),
      everything placed is reachable from them, and ties are broken as
      `InputOrderKept` says. */
  ghost predicate TopLevelDone(index: Index, targets: seq<FQDSN>, n: nat, s: seq<FQDSN>) {
    && n <= |targets|
    && AllPlaced(index, targets[..n], s)
    && (NoInternalDependencies(index) ==> s == targets[..n])
    && AllReachedFrom(index, targets[..n], s)
    && InputOrderKept(index, targets, n, s)
  }

  ghost predicate AllReachedFrom(index: Index, roots: seq<FQDSN>, s: seq<FQDSN>) {
    forall k :: 0 <= k < |s| ==> ReachedFrom(index, roots, s[k])
  }

  /** One top-level insertion keeps every placed target reachable from the
      targets inserted so far, and extends the tie-breaking to the target
      just inserted: nothing it does not reach has been placed yet. */
  lemma TopLevelStep(index: Index, targets: seq<FQDSN>, i: nat, before: seq<FQDSN>, after: seq<FQDSN>)
    requires i < |targets| && before <= after && Distinct(after)
    requires forall k :: 0 <= k < i ==> targets[k] in index
    requires AllPlaced(index, targets[..i], before)
    requires AllReachedFrom(index, targets[..i], before)
    requires AddedReachable(index, targets[i], before, after)
    requires InputOrderKept(index, targets, i, before)
    ensures AllReachedFrom(index, targets[..i + 1], after)
    ensures InputOrderKept(index, targets, i + 1, after)
  {
    var roots := targets[..i + 1];
    forall k | 0 <= k < |after| ensures ReachedFrom(index, roots, after[k]) {
      if k < |before| {
        assert after[k] == before[k];
        var m :| 0 <= m < i && Reaches(index, targets[..i][m], before[k]);
        assert roots[m] == targets[..i][m];
      } else {
        assert roots[i] == targets[i];
      }
    }
    DistinctNoDuplicates(after);
    forall a, b | 0 <= a < b < |targets| && a < i + 1 && !ReachedFrom(index, targets[..a + 1], targets[b])
      ensures Before(after, targets[a], targets[b])
    {
      if a < i {
        assert targets[..i][a] == targets[a];
        AllPlacedAt(index, targets[..i], before, a);
        var p' :| 0 <= p' < |before| && before[p'] == targets[a];
        forall p, q | 0 <= p < |after| && 0 <= q < |after| && after[p] == targets[a] && after[q] == targets[b]
          ensures p < q
        {
          assert after[p'] == targets[a];
          assert p == p';
          if q < |before| {
            assert before[q] == targets[b];
          }
        }
      } else {
        assert targets[..a + 1] == roots;
        forall q | 0 <= q < |after| ensures after[q] != targets[b] {
          assert ReachedFrom(index, roots, after[q]);
        }
      }
    }
  }

  /** The tie-breaking of the order carries over to the plan built from
      it. */
  lemma InputOrderOfPlan(exprs: seq<Expression>, index: Index, ordered: seq<FQDSN>, plan: seq<Expression>)
    requires IndexedByTarget(index)
    requires forall k :: 0 <= k < |ordered| ==> ordered[k] in index
    requires |plan| == |ordered| && forall k :: 0 <= k < |ordered| ==> plan[k] == index[ordered[k]]
    requires InputOrderKept(index, Targets(exprs), |exprs|, ordered)
    ensures forall i, j ::
      (0 <= i < j < |exprs| && !ReachedFrom(index, Targets(exprs)[..i + 1], exprs[j].target)) ==>
        Before(plan, exprs[i], exprs[j])
  {
    var targets := Targets(exprs);
    forall i, j | 0 <= i < j < |exprs| && !ReachedFrom(index, targets[..i + 1], exprs[j].target)
      ensures Before(plan, exprs[i], exprs[j])
    {
      assert Before(ordered, targets[i], targets[j]);
      forall p, q | 0 <= p < |plan| && 0 <= q < |plan| && plan[p] == exprs[i] && plan[q] == exprs[j]
        ensures p < q
      {
        assert ordered[p] == index[ordered[p]].target == targets[i];
        assert ordered[q] == index[ordered[q]].target == targets[j];
      }
    }
  }

  function Position<T(==)>(s: seq<T>, x: T): (k: nat)
    requires x in s
    ensures k < |s| && s[k] == x
    ensures forall j :: 0 <= j < k ==> s[j] != x
  {
    if s[0] == x then 0 else 1 + Position(s[1..], x)
  }

  /** Each dependency edge between placed targets points backwards. */
  lemma EdgeGoesBack(index: Index, ordered: seq<FQDSN>, a: FQDSN, b: FQDSN)
    requires DependenciesFirst(index, ordered)
    requires a in ordered && a in index && b in index && b in index[a].dependencies
    ensures b in ordered && Position(ordered, b) < Position(ordered, a)
  {
    var i := Position(ordered, a);
    DependenciesFirstAt(index, ordered, i);
    var k :| 0 <= k < |index[a].dependencies| && index[a].dependencies[k] == b;
    AllPlacedAt(index, index[a].dependencies, ordered[..i], k);
    var j :| 0 <= j < i && ordered[..i][j] == b;
    assert ordered[j] == b;
  }

  /** Along a chain of placed targets positions strictly decrease. */
  lemma {:induction false} PathDescends(index: Index, ordered: seq<FQDSN>, p: seq<FQDSN>, k: nat)
    requires DependenciesFirst(index, ordered)
    requires IsPath(index, p) && 0 < |p| && p[0] in ordered
    requires k < |p|
    ensures p[k] in ordered && Position(ordered, p[k]) + k <= Position(ordered, p[0])
  {
    if k > 0 {
      PathDescends(index, ordered, p, k - 1);
      EdgeGoesBack(index, ordered, p[k - 1], p[k]);
    }
  }

  /** An order that places every indexed target dependencies-first rules
      out every dependency cycle. */
  lemma OrderedIsAcyclic(index: Index, ordered: seq<FQDSN>)
    requires DependenciesFirst(index, ordered)
    requires forall f :: f in index ==> f in ordered
    ensures !HasCycle(index)
  {
    if HasCycle(index) {
      var p :| IsCycle(index, p);
      PathDescends(index, ordered, p, |p| - 1);
      EdgeGoesBack(index, ordered, p[|p| - 1], p[0]);
      assert false;
    }
  }

  /** In a duplicate-free sequence every element occurs once. */
  lemma {:induction false} OccursOnce<T>(a: seq<T>, x: T)
    requires NoDuplicates(a)
    ensures multiset(a)[x] == if x in a then 1 else 0
  {
    if a != [] {
      assert a == [a[0]] + a[1..];
      assert NoDuplicates(a[1..]) by {
        forall i, j | 0 <= i < j < |a| - 1 ensures a[1..][i] != a[1..][j] {
          assert a[1..][i] == a[i + 1] && a[1..][j] == a[j + 1];
        }
      }
      OccursOnce(a[1..], x);
      assert a[0] !in a[1..] by {
        forall k | 0 <= k < |a| - 1 ensures a[1..][k] != a[0] {
          assert a[1..][k] == a[k + 1];
        }
      }
    }
  }

  /** Two duplicate-free sequences with the same elements are permutations
      of each other. */
  lemma DistinctSameElements<T>(a: seq<T>, b: seq<T>)
    requires NoDuplicates(a) && NoDuplicates(b)
    requires forall x :: x in a <==> x in b
    ensures multiset(a) == multiset(b)
  {
    forall x ensures multiset(a)[x] == multiset(b)[x] {
      OccursOnce(a, x);
      OccursOnce(b, x);
    }
  }

  /** A valid evaluation plan for the offered expressions: a permutation in
      which every expression comes after each expression it depends on. */
  ghost predicate IsPlan(exprs: seq<Expression>, plan: seq<Expression>) {
    && multiset(plan) == multiset(exprs)
    && forall i, j :: 0 <= i < |plan| && 0 <= j < |plan| && plan[j].target in plan[i].dependencies ==> j < i
  }

  /** The single-slot shared reference through which the active plan is
      published; absent until the first configuration is applied. */
  class PlanSlot {
    var plan: Option<seq<Expression>>

    constructor ()
      ensures plan == None
    {
      plan := None;
    }
  }

  class ConfigurationListener {
    const accepted: PlanSlot
    var offered: seq<Expression>

    constructor (accepted: PlanSlot)
      ensures this.accepted == accepted && offered == []
    {
      this.accepted := accepted;
      offered := [];
    }

    /** Validates and orders an offered expression list. A list with two
        expressions on one target fails before any ordering; otherwise the
        offer fails exactly when the dependencies contain a cycle. Only a
        successful offer replaces the offered plan. */
    method OfferConfiguration(exprs: seq<Expression>) returns (err: Option<ConfigError>)
      modifies this
      ensures !DistinctTargets(exprs) ==> err.Some? && err.value.DuplicateTarget?
      ensures DistinctTargets(exprs) ==>
        (err.Some? <==> HasCycle(UniqueIndex(exprs).value)) && (err.Some? ==> err.value.DependencyCycle?)
      ensures err.Some? ==> offered == old(offered)
      ensures err.None? ==> IsPlan(exprs, offered)
      ensures err.None? && NoInternalDependencies(UniqueIndex(exprs).value) ==> offered == exprs
      ensures err.None? ==> forall i, j ::
        (0 <= i < j < |exprs| && !ReachedFrom(UniqueIndex(exprs).value, Targets(exprs)[..i + 1], exprs[j].target)) ==>
          Before(offered, exprs[i], exprs[j])
    {
      var indexed := UniqueIndex(exprs);
      if indexed.Failure? {
        return Some(indexed.error);
      }
      var index := indexed.value;
      var builder := new PlanBuilder(index);
      var cycle := builder.InsertAll(exprs);
      if cycle.Some? {
        return cycle;
      }
      var ordered := builder.ordered;
      DependenciesFirstInIndex(index, ordered);
      offered := seq(|ordered|, k requires 0 <= k < |ordered| => index[ordered[k]]);
      err := None;
      OrderGivesPlan(exprs, index, ordered, offered);
      InputOrderOfPlan(exprs, index, ordered, offered);
    }

    /** Publishes the last successfully offered plan. */
    method ApplyConfiguration()
      modifies accepted
      ensures accepted.plan == Some(offered)
    {
      accepted.plan := Some(offered);
    }
  }

  /** The targets of a list of expressions, in order. */
  function Targets(exprs: seq<Expression>): (r: seq<FQDSN>)
    ensures |r| == |exprs| && forall k :: 0 <= k < |r| ==> r[k] == exprs[k].target
  {
    seq(|exprs|, k requires 0 <= k < |exprs| => exprs[k].target)
  }

  /** Each target of a duplicate-free list is new to the targets before it. */
  lemma TargetsDistinct(exprs: seq<Expression>, i: nat)
    requires DistinctTargets(exprs) && i < |exprs|
    ensures Targets(exprs)[i] !in Targets(exprs)[..i]
    ensures Targets(exprs)[..i + 1] == Targets(exprs)[..i] + [exprs[i].target]
  {
    var t := Targets(exprs);
    assert t[..i + 1] == t[..i] + [t[i]];
  }

  lemma TargetsIndex(exprs: seq<Expression>, index: Index, ordered: seq<FQDSN>, plan: seq<Expression>)
    requires forall i :: 0 <= i < |exprs| ==> exprs[i].target in index && index[exprs[i].target] == exprs[i]
    requires ordered == Targets(exprs)
    requires plan == seq(|ordered|, k requires 0 <= k < |ordered| && ordered[k] in index => index[ordered[k]])
    ensures plan == exprs
  {
  }

  /** The complete order built for a duplicate-free list proves the list
      acyclic and, mapped back to expressions, is a plan for it. */
  lemma OrderGivesPlan(exprs: seq<Expression>, index: Index, ordered: seq<FQDSN>, plan: seq<Expression>)
    requires DistinctTargets(exprs) && IndexedByTarget(index)
    requires forall i :: 0 <= i < |exprs| ==> exprs[i].target in index && index[exprs[i].target] == exprs[i]
    requires forall f :: f in index ==> index[f] in exprs
    requires DependenciesFirst(index, ordered) && Distinct(ordered)
    requires AllPlaced(index, Targets(exprs), ordered)
    requires NoInternalDependencies(index) ==> ordered == Targets(exprs)
    requires forall k :: 0 <= k < |ordered| ==> ordered[k] in index
    requires plan == seq(|ordered|, k requires 0 <= k < |ordered| => index[ordered[k]])
    ensures !HasCycle(index)
    ensures IsPlan(exprs, plan)
    ensures NoInternalDependencies(index) ==> plan == exprs
  {
    forall k | 0 <= k < |exprs| ensures exprs[k].target in ordered {
      AllPlacedAt(index, Targets(exprs), ordered, k);
    }
    forall f | f in index ensures f in ordered {
      var i :| 0 <= i < |exprs| && exprs[i] == index[f];
      assert exprs[i].target == f;
    }
    DistinctNoDuplicates(ordered);
    OrderedIsAcyclic(index, ordered);
    PlanFromOrder(exprs, index, ordered, plan);
    if NoInternalDependencies(index) {
      TargetsIndex(exprs, index, ordered, plan);
    }
  }

  /** Mapping a complete dependencies-first order of targets back to its
      expressions yields a plan for the offered list. */
  lemma PlanFromOrder(exprs: seq<Expression>, index: Index, ordered: seq<FQDSN>, plan: seq<Expression>)
    requires IndexedByTarget(index)
    requires forall i :: 0 <= i < |exprs| ==> exprs[i].target in index && index[exprs[i].target] == exprs[i]
    requires forall f :: f in index ==> index[f] in exprs
    requires DistinctTargets(exprs)
    requires DependenciesFirst(index, ordered) && NoDuplicates(ordered)
    requires forall k :: 0 <= k < |exprs| ==> exprs[k].target in ordered
    requires forall k :: 0 <= k < |ordered| ==> ordered[k] in index
    requires |plan| == |ordered| && forall k :: 0 <= k < |ordered| ==> plan[k] == index[ordered[k]]
    ensures IsPlan(exprs, plan)
  {
    assert NoDuplicates(plan) by {
      forall i, j | 0 <= i < j < |plan| ensures plan[i] != plan[j] {
        assert plan[i].target == ordered[i] && plan[j].target == ordered[j];
      }
    }
    assert NoDuplicates(exprs) by {
      forall i, j | 0 <= i < j < |exprs| ensures exprs[i] != exprs[j] {
        assert exprs[i].target != exprs[j].target;
      }
    }
    forall x ensures x in plan <==> x in exprs {
      if x in plan {
        var k :| 0 <= k < |plan| && plan[k] == x;
      }
      if x in exprs {
        var i :| 0 <= i < |exprs| && exprs[i] == x;
        var k := Position(ordered, x.target);
        assert plan[k] == x;
      }
    }
    DistinctSameElements(plan, exprs);
    forall i, j | 0 <= i < |plan| && 0 <= j < |plan| && plan[j].target in plan[i].dependencies
      ensures j < i
    {
      assert plan[j].target == ordered[j] && plan[i].target == ordered[i];
      EdgeGoesBack(index, ordered, ordered[i], ordered[j]);
      assert Position(ordered, ordered[j]) == j && Position(ordered, ordered[i]) == i;
    }
  }
}
