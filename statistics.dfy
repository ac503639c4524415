/** Statistics as value objects compared by kind, and the registry that
    resolves a statistic name or alias to its kind. */
module Statistics {
  import opened Wrappers

  /** The statistic kinds the registry knows (one per statistic class). */
  datatype Kind = Mean | Sum | Count | TP0 | Median | TP90 | TP95 | TP99 | TP99p9 | TP100

  /** A statistic instance: its kind and an allocation identity. Two
      instances of one kind may have different identities. */
  datatype Statistic = Statistic(kind: Kind, identity: nat)

  /** Every kind, in registration order. */
  const AllKinds: seq<Kind> := [Mean, Sum, Count, TP0, Median, TP90, TP95, TP99, TP99p9, TP100]

  /** The canonical name of each kind. */
  function Name(k: Kind): string {
    match k
    case Mean => "mean"
    case Sum => "sum"
    case Count => "count"
    case TP0 => "min"
    case Median => "median"
    case TP90 => "tp90"
    case TP95 => "tp95"
    case TP99 => "tp99"
    case TP99p9 => "tp99.9"
    case TP100 => "max"
  }

  /** The aliases a statistic declares when it does not override the base
      class: none. */
  function DefaultAliases(): set<string> {
    {}
  }

  /** The aliases of each kind: the count statistic is also "n" and the
      median also "tp50"; every other kind keeps the default. */
  function Aliases(k: Kind): (r: set<string>)
    ensures k != Count && k != Median ==> r == DefaultAliases()
    ensures Name(k) !in r
  {
    match k
    case Count => {"n"}
    case Median => {"tp50"}
    case _ => DefaultAliases()
  }

  /** Every string a kind claims in the registry. */
  function Names(k: Kind): set<string> {
    {Name(k)} + Aliases(k)
  }

  /** Equality of statistics: the same instance, or another instance of the
      same kind. Absent (null) is never equal. */
  function Equals(a: Statistic, o: Option<Statistic>): (r: bool)
    ensures r <==> o.Some? && o.value.kind == a.kind
    ensures o.None? ==> !r
  {
    o == Some(a) || (o.Some? && o.value.kind == a.kind)
  }

  /** The hash code of a statistic: the hash of its kind, whatever the
      instance. */
  function HashCode(a: Statistic, kindHash: Kind -> int): int {
    kindHash(a.kind)
  }

  lemma EqualsIsEquivalence(a: Statistic, b: Statistic, c: Statistic)
    ensures Equals(a, Some(a))
    ensures Equals(a, Some(b)) <==> Equals(b, Some(a))
    ensures Equals(a, Some(b)) && Equals(b, Some(c)) ==> Equals(a, Some(c))
  {
  }

  lemma EqualStatisticsHashAlike(a: Statistic, b: Statistic, kindHash: Kind -> int)
    requires Equals(a, Some(b))
    ensures HashCode(a, kindHash) == HashCode(b, kindHash)
  {
  }

  /** No two kinds of the list claim a common name. */
  ghost predicate DistinctNames(kinds: seq<Kind>) {
    forall i, j :: 0 <= i < j < |kinds| ==> Names(kinds[i]) !! Names(kinds[j])
  }

  /** The first kind of the list that claims the name, if any. */
  function Lookup(kinds: seq<Kind>, name: string): (r: Option<Kind>)
    ensures r.Some? ==> r.value in kinds && name in Names(r.value)
    ensures r.None? ==> forall i :: 0 <= i < |kinds| ==> name !in Names(kinds[i])
  {
    if kinds == [] then None
    else if name in Names(kinds[0]) then Some(kinds[0])
    else Lookup(kinds[1..], name)
  }

  /** Among kinds that never share a name, the lookup finds the one kind
      that claims the name. */
  lemma {:induction false} LookupUnique(kinds: seq<Kind>, name: string, k: Kind)
    requires DistinctNames(kinds)
    requires k in kinds && name in Names(k)
    ensures Lookup(kinds, name) == Some(k)
  {
    if kinds[0] != k {
      assert name !in Names(kinds[0]) by {
        var j :| 0 <= j < |kinds| && kinds[j] == k;
        assert Names(kinds[0]) !! Names(kinds[j]);
      }
      assert DistinctNames(kinds[1..]) by {
        forall i, j | 0 <= i < j < |kinds| - 1
          ensures Names(kinds[1..][i]) !! Names(kinds[1..][j])
        {
          assert kinds[1..][i] == kinds[i + 1] && kinds[1..][j] == kinds[j + 1];
        }
      }
      LookupUnique(kinds[1..], name, k);
    }
  }

  lemma AllKindsListed(k: Kind)
    ensures k in AllKinds
  {
    match k
    case Mean => assert AllKinds[0] == k;
    case Sum => assert AllKinds[1] == k;
    case Count => assert AllKinds[2] == k;
    case TP0 => assert AllKinds[3] == k;
    case Median => assert AllKinds[4] == k;
    case TP90 => assert AllKinds[5] == k;
    case TP95 => assert AllKinds[6] == k;
    case TP99 => assert AllKinds[7] == k;
    case TP99p9 => assert AllKinds[8] == k;
    case TP100 => assert AllKinds[9] == k;
  }

  /** The registered statistics never claim a name twice, so the
      fail-fast duplicate check at registry construction passes. */
  lemma AllKindsDistinct()
    ensures DistinctNames(AllKinds)
  {
    forall i, j | 0 <= i < j < |AllKinds|
      ensures Names(AllKinds[i]) !! Names(AllKinds[j])
    {
    }
  }

  /** Looks a statistic up by canonical name or alias: present exactly when
      some kind claims the name, and then that kind; absent, never an error,
      otherwise. */
  function Resolve(name: string): (r: Option<Kind>)
    ensures forall k :: name in Names(k) ==> r == Some(k)
    ensures r.Some? ==> name in Names(r.value)
  {
    assert forall k :: name in Names(k) ==> Lookup(AllKinds, name) == Some(k) by {
      forall k | name in Names(k) ensures Lookup(AllKinds, name) == Some(k) {
        AllKindsListed(k);
        AllKindsDistinct();
        LookupUnique(AllKinds, name, k);
      }
    }
    Lookup(AllKinds, name)
  }

  /** The name table the registry must satisfy. */
  lemma ResolveTable()
    ensures Resolve("mean") == Some(Mean)
    ensures Resolve("sum") == Some(Sum)
    ensures Resolve("count") == Some(Count)
    ensures Resolve("n") == Some(Count)
    ensures Resolve("min") == Some(TP0)
    ensures Resolve("tp50") == Some(Median)
    ensures Resolve("median") == Some(Median)
    ensures Resolve("tp90") == Some(TP90)
    ensures Resolve("tp95") == Some(TP95)
    ensures Resolve("tp99") == Some(TP99)
    ensures Resolve("tp99.9") == Some(TP99p9)
    ensures Resolve("max") == Some(TP100)
  {
    assert "n" in Names(Count);
    assert "tp50" in Names(Median);
  }

  /** An unknown name resolves to absent. */
  lemma ResolveUnknown()
    ensures Resolve("notARealStatistic") == None
  {
  }
}
