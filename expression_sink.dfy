/** The expression sink: it discovers the cluster-service pairs of each
    batch, evaluates the active expression plan over the batch and forwards
    the extended batch, with the conditions, to the wrapped sink. */
module ExpressionSink {
  import opened Wrappers
  import opened Model
  import opened ExpressionPlan
  import opened Collections

  /** The host, period and period start shared by every datum of a batch,
      read from its first datum; absent for an empty batch. */
  datatype EvalContext = EvalContext(host: string, period: Period, periodStart: int)

  /** What evaluating one expression yields: a new datum, nothing because
      an input is missing, or a script failure. */
  datatype Evaluation = Present(datum: AggregatedData) | Missing | Failed

  /** The script evaluation of an expression against a context and the
      working list, kept abstract. */
  type Evaluator = (Expression, Option<EvalContext>, seq<AggregatedData>) -> Evaluation

  function ContextOf(data: seq<AggregatedData>): Option<EvalContext> {
    if data == [] then None
    else Some(EvalContext(data[0].host, data[0].period, data[0].periodStart))
  }

  /** The data produced by a run of evaluations, in order. */
  function Produced(outs: seq<Evaluation>): seq<AggregatedData>
    decreases |outs|
  {
    if outs == [] then []
    else
      var n := |outs| - 1;
      Produced(outs[..n]) + (if outs[n].Present? then [outs[n].datum] else [])
  }

  function MissingCount(outs: seq<Evaluation>): nat
    decreases |outs|
  {
    if outs == [] then 0
    else
      var n := |outs| - 1;
      MissingCount(outs[..n]) + (if outs[n].Missing? then 1 else 0)
  }

  function FailedCount(outs: seq<Evaluation>): nat
    decreases |outs|
  {
    if outs == [] then 0
    else
      var n := |outs| - 1;
      FailedCount(outs[..n]) + (if outs[n].Failed? then 1 else 0)
  }

  /** Every evaluation is counted exactly once: as a produced datum, as
      missing or as failed. */
  lemma {:induction false} OutcomesPartition(outs: seq<Evaluation>)
    ensures |Produced(outs)| + MissingCount(outs) + FailedCount(outs) == |outs|
    decreases |outs|
  {
    if outs != [] {
      OutcomesPartition(outs[..|outs| - 1]);
    }
  }

  /** The evaluations of a plan, in plan order: each expression is
      evaluated against the input followed by everything the expressions
      before it produced. */
  function Outcomes(plan: seq<Expression>, ctx: Option<EvalContext>, data: seq<AggregatedData>, evaluate: Evaluator): (outs: seq<Evaluation>)
    ensures |outs| == |plan|
    decreases |plan|
  {
    if plan == [] then []
    else
      var n := |plan| - 1;
      var earlier := Outcomes(plan[..n], ctx, data, evaluate);
      earlier + [evaluate(plan[n], ctx, data + Produced(earlier))]
  }

  /** The evaluations of a prefix of the plan are the first evaluations of
      the whole plan: later expressions never change what earlier ones saw. */
  lemma {:induction false} OutcomesPrefix(plan: seq<Expression>, ctx: Option<EvalContext>, data: seq<AggregatedData>, evaluate: Evaluator, i: nat)
    requires i <= |plan|
    ensures Outcomes(plan, ctx, data, evaluate)[..i] == Outcomes(plan[..i], ctx, data, evaluate)
    decreases |plan|
  {
    if i < |plan| {
      var n := |plan| - 1;
      OutcomesPrefix(plan[..n], ctx, data, evaluate, i);
      assert plan[..n][..i] == plan[..i];
      var outs := Outcomes(plan, ctx, data, evaluate);
      assert outs[..n] == Outcomes(plan[..n], ctx, data, evaluate);
      assert outs[..i] == outs[..n][..i];
    } else {
      assert plan[..i] == plan;
    }
  }

  /** Each expression of the plan sees the input plus the results of the
      expressions before it. */
  lemma SeesEarlierResults(plan: seq<Expression>, ctx: Option<EvalContext>, data: seq<AggregatedData>, evaluate: Evaluator, i: nat)
    requires i < |plan|
    ensures var outs := Outcomes(plan, ctx, data, evaluate);
      outs[i] == evaluate(plan[i], ctx, data + Produced(outs[..i]))
  {
    var outs := Outcomes(plan, ctx, data, evaluate);
    OutcomesPrefix(plan, ctx, data, evaluate, i + 1);
    OutcomesPrefix(plan, ctx, data, evaluate, i);
    var pre := plan[..i + 1];
    assert pre[..i] == plan[..i];
    assert outs[..i + 1][..i] == outs[..i];
  }

  /** The produced data only grow as evaluations are appended. */
  lemma ProducedAppend(outs: seq<Evaluation>, o: Evaluation)
    ensures Produced(outs + [o]) == Produced(outs) + (if o.Present? then [o.datum] else [])
    ensures MissingCount(outs + [o]) == MissingCount(outs) + (if o.Missing? then 1 else 0)
    ensures FailedCount(outs + [o]) == FailedCount(outs) + (if o.Failed? then 1 else 0)
  {
    assert (outs + [o])[..|outs|] == outs;
  }

  /** The key under which dynamic configuration is loaded for a datum. */
  datatype ClusterServiceKey = Key(cluster: string, service: string)

  function KeyOf(d: AggregatedData): ClusterServiceKey {
    Key(d.fqdsn.cluster, d.fqdsn.service)
  }

  class ExpressionSink {
    /** The cluster-service pairs seen so far. */
    var clusterServices: set<ClusterServiceKey>
    /** The plan published by the configuration listener. */
    const expressions: PlanSlot

    constructor (expressions: PlanSlot)
      ensures clusterServices == {} && this.expressions == expressions
    {
      clusterServices := {};
      this.expressions := expressions;
    }

    /** Evaluates the active plan, in order, over a working list that
        starts as the batch and collects every present result; missing
        results and script failures are counted and skipped. Without a
        plan the batch is returned as it is. */
    method EvaluateExpressions(data: seq<AggregatedData>, evaluate: Evaluator)
      returns (newData: seq<AggregatedData>, evaluations: nat, missing: nat, failures: nat)
      ensures expressions.plan.None? ==> newData == data && evaluations == 0 && missing == 0 && failures == 0
      ensures expressions.plan.Some? ==>
        var outs := Outcomes(expressions.plan.value, ContextOf(data), data, evaluate);
        && newData == data + Produced(outs)
        && evaluations == |expressions.plan.value|
        && missing == MissingCount(outs)
        && failures == FailedCount(outs)
      ensures data <= newData
      ensures evaluations == |newData| - |data| + missing + failures
    {
      var ctx := ContextOf(data);
      newData := data;
      evaluations, missing, failures := 0, 0, 0;
      var plan := expressions.plan;
      if plan.Some? {
        var exprs := plan.value;
        ghost var outs := Outcomes(exprs, ctx, data, evaluate);
        var i := 0;
        while i < |exprs|
          invariant 0 <= i <= |exprs|
          invariant newData == data + Produced(outs[..i])
          invariant evaluations == i
          invariant missing == MissingCount(outs[..i]) && failures == FailedCount(outs[..i])
        {
          SeesEarlierResults(exprs, ctx, data, evaluate, i);
          evaluations := evaluations + 1;
          var result := evaluate(exprs[i], ctx, newData);
          assert outs[..i + 1] == outs[..i] + [result];
          ProducedAppend(outs[..i], result);
          match result {
            case Present(d) =>
              newData := newData + [d];
            case Missing =>
              missing := missing + 1;
            case Failed =>
              failures := failures + 1;
          }
          i := i + 1;
        }
        assert outs[..i] == outs;
        OutcomesPartition(outs);
      }
    }

    /** Records the batch's cluster-service pairs, reporting whether any
        was new (which starts a reconfiguration), then evaluates the plan
        and hands the extended batch and the conditions on unchanged. */
    method RecordAggregateData(data: seq<AggregatedData>, conditions: seq<Condition>, evaluate: Evaluator)
      returns (forwarded: seq<AggregatedData>, forwardedConditions: seq<Condition>, reconfigured: bool)
      modifies this
      ensures clusterServices == old(clusterServices) + Image(data, KeyOf)
      ensures forall d :: d in data ==> KeyOf(d) in clusterServices
      ensures reconfigured <==> exists d :: d in data && KeyOf(d) !in old(clusterServices)
      ensures expressions.plan.Some? ==>
        forwarded == data + Produced(Outcomes(expressions.plan.value, ContextOf(data), data, evaluate))
      ensures expressions.plan.None? ==> forwarded == data
      ensures forwardedConditions == conditions
    {
      reconfigured := false;
      var i := 0;
      while i < |data|
        invariant 0 <= i <= |data|
        invariant clusterServices == old(clusterServices) + Image(data[..i], KeyOf)
        invariant reconfigured <==> exists k :: 0 <= k < i && KeyOf(data[k]) !in old(clusterServices)
      {
        var key := KeyOf(data[i]);
        ImageStep(data, KeyOf, i);
        if key !in clusterServices {
          clusterServices := clusterServices + {key};
          reconfigured := true;
        } else if key !in old(clusterServices) {
          ImageMembers(data[..i], KeyOf, key);
          var k :| 0 <= k < i && KeyOf(data[..i][k]) == key;
          assert data[k] == data[..i][k];
        }
        i := i + 1;
      }
      assert data[..i] == data;
      forall d | d in data ensures KeyOf(d) in clusterServices {
        var k :| 0 <= k < |data| && data[k] == d;
        ImageMembers(data, KeyOf, KeyOf(d));
      }
      var evaluations, missing, failures;
      forwarded, evaluations, missing, failures := EvaluateExpressions(data, evaluate);
      forwardedConditions := conditions;
    }
  }
}
