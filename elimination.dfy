/**
 * Backward elimination over column sets, as a pure specification.
 *
 * The base regressor is an uninterpreted oracle: trained on a set of feature
 * columns, it reports a p-value per key (`Oracle`). Which key is returned
 * when several share the largest p-value is left to a `Chooser` of which
 * only maximality is assumed.
 */
module Elimination {
  import opened Dataframes

  type PValues = map<Key, real>

  /** Train a fresh delegate on these columns and read its feature p-values. */
  type Oracle = set<Key> -> PValues

  /** Picks an entry of a non-empty p-value map. */
  type Chooser = PValues -> Key

  /** The capability contract: p-values are reported only for the columns the
      delegate was trained on, plus the intercept. */
  ghost predicate ReportsPresentColumns(pvalues: Oracle)
  {
    forall cols: set<Key> :: ReportsOn(pvalues, cols)
  }

  ghost predicate ReportsOn(pvalues: Oracle, cols: set<Key>)
  {
    pvalues(cols).Keys <= cols + {Constant}
  }

  predicate IsMaxKey(m: PValues, k: Key)
  {
    k in m && forall j :: j in m ==> m[j] <= m[k]
  }

  /** The only thing known of the selection of the maximal entry: the key it
      returns holds a largest value. */
  ghost predicate SelectsMax(select: Chooser)
  {
    forall m: PValues :: m != map[] ==> IsMaxKey(m, select(m))
  }

  /** Why the elimination loop ended. */
  datatype Stop =
    | EmptyPValues     // the delegate reported no p-values at all
    | OnlyConstant     // the only p-value was the intercept's: no maximal entry to select
    | AllSignificant   // the largest non-intercept p-value is <= aOut
    | NoColumnsLeft    // the last feature column was dropped
    | BoundReached     // maxIterations rounds ran

  /** One run of the loop: the column sets an intermediate delegate was
      trained on, one per round, the surviving column set, and the reason for
      stopping. */
  datatype Run = Run(rounds: seq<set<Key>>, final: set<Key>, stop: Stop)

  function Max0(x: int): nat
  {
    if x <= 0 then 0 else x
  }

  /** Key k is the one a round drops: not the intercept, above the
      threshold, and no other non-intercept p-value is larger. */
  predicate WorstAboveThreshold(p: PValues, aOut: real, k: Key)
  {
    k != Constant && k in p && p[k] > aOut &&
    forall j :: j in p && j != Constant ==> p[j] <= p[k]
  }

  /** What one round decides from the p-values of its delegate. */
  datatype Decision = Halt(reason: Stop) | Drop(key: Key)

  /** The decision of one round: stop on an empty map; otherwise discard the
      intercept's entry, select a maximal entry and stop if it is within the
      threshold, else drop its key. */
  function Decide(p: PValues, aOut: real, select: Chooser): Decision
    requires SelectsMax(select)
  {
    if p == map[] then Halt(EmptyPValues)
    else
      var q := p - {Constant};
      if q == map[] then Halt(OnlyConstant)
      else
        var worst := select(q);
        if q[worst] <= aOut then Halt(AllSignificant) else Drop(worst)
  }

  /** What a round decides, stated without the selection: each reason to
      stop holds exactly when its condition does, and a dropped key is a
      worst non-intercept key above the threshold. */
  lemma DecideSpec(p: PValues, aOut: real, select: Chooser)
    requires SelectsMax(select)
    ensures var d := Decide(p, aOut, select);
      && (d.Halt? ==> d.reason.EmptyPValues? || d.reason.OnlyConstant? || d.reason.AllSignificant?)
      && (d == Halt(EmptyPValues) <==> p == map[])
      && (d == Halt(OnlyConstant) <==> p.Keys == {Constant})
      && (d == Halt(AllSignificant) <==>
            p.Keys - {Constant} != {} && forall k :: k in p && k != Constant ==> p[k] <= aOut)
      && (d.Drop? ==> WorstAboveThreshold(p, aOut, d.key))
  {
    if p != map[] {
      var q := p - {Constant};
      InterceptOnly(p);
      if q != map[] {
        var worst := select(q);
        assert IsMaxKey(q, worst);
        MaxWithoutIntercept(p, worst);
      }
    }
  }

  lemma InterceptOnly(p: PValues)
    requires p != map[]
    ensures p - {Constant} == map[] <==> p.Keys == {Constant}
  {
    var q := p - {Constant};
    if q == map[] {
      forall j | j in p ensures j == Constant {
        assert j !in q;
      }
      assert p.Keys == {Constant};
    }
    if p.Keys == {Constant} {
      assert q.Keys == {};
    }
  }

  lemma MaxWithoutIntercept(p: PValues, worst: Key)
    requires IsMaxKey(p - {Constant}, worst)
    ensures worst != Constant && worst in p
    ensures forall j :: j in p && j != Constant ==> p[j] <= p[worst]
  {
    var q := p - {Constant};
    forall j | j in p && j != Constant ensures p[j] <= p[worst] {
      assert j in q;
    }
  }

  /** The elimination loop with `budget` rounds left on the working column
      set `cols`. */
  function Eliminate(pvalues: Oracle, select: Chooser, aOut: real, budget: int, cols: set<Key>): Run
    requires SelectsMax(select)
    decreases budget
  {
    if budget <= 0 then Run([], cols, BoundReached)
    else
      match Decide(pvalues(cols), aOut, select)
      case Halt(reason) => Run([cols], cols, reason)
      case Drop(worst) =>
        var rest := cols - {worst};
        if rest == {} then Run([cols], rest, NoColumnsLeft)
        else
          var r := Eliminate(pvalues, select, aOut, budget - 1, rest);
          Run([cols] + r.rounds, r.final, r.stop)
  }

  /** The run `r` preceded by the rounds `done`. */
  function Prefixed(done: seq<set<Key>>, r: Run): Run
  {
    Run(done + r.rounds, r.final, r.stop)
  }

  /** One round of elimination, after the rounds `done`. */
  lemma EliminateStep(pvalues: Oracle, select: Chooser, aOut: real, budget: int, cols: set<Key>, done: seq<set<Key>>)
    requires SelectsMax(select) && budget > 0
    ensures var d := Decide(pvalues(cols), aOut, select);
      Prefixed(done, Eliminate(pvalues, select, aOut, budget, cols)) ==
        if d.Halt? then Run(done + [cols], cols, d.reason)
        else if cols - {d.key} == {} then Run(done + [cols], {}, NoColumnsLeft)
        else Prefixed(done + [cols], Eliminate(pvalues, select, aOut, budget - 1, cols - {d.key}))
  {
    var d := Decide(pvalues(cols), aOut, select);
    if d.Drop? && cols - {d.key} != {} {
      var r := Eliminate(pvalues, select, aOut, budget - 1, cols - {d.key});
      assert done + ([cols] + r.rounds) == done + [cols] + r.rounds;
    }
  }

  /** A round that halts ends the run after the rounds `done`. */
  lemma HaltStep(pvalues: Oracle, select: Chooser, aOut: real, budget: int, cols: set<Key>, done: seq<set<Key>>)
    requires SelectsMax(select) && budget > 0
    requires Decide(pvalues(cols), aOut, select).Halt?
    ensures Prefixed(done, Eliminate(pvalues, select, aOut, budget, cols)) ==
      Run(done + [cols], cols, Decide(pvalues(cols), aOut, select).reason)
  {
    EliminateStep(pvalues, select, aOut, budget, cols, done);
  }

  /** A round that drops `worst` either ends the run, when no column is
      left, or continues it on the remaining columns. */
  lemma DropStep(pvalues: Oracle, select: Chooser, aOut: real, budget: int, cols: set<Key>, done: seq<set<Key>>, worst: Key)
    requires SelectsMax(select) && budget > 0
    requires Decide(pvalues(cols), aOut, select) == Drop(worst)
    ensures cols - {worst} == {} ==>
      Prefixed(done, Eliminate(pvalues, select, aOut, budget, cols)) == Run(done + [cols], {}, NoColumnsLeft)
    ensures cols - {worst} != {} ==>
      Prefixed(done, Eliminate(pvalues, select, aOut, budget, cols)) ==
        Prefixed(done + [cols], Eliminate(pvalues, select, aOut, budget - 1, cols - {worst}))
  {
    EliminateStep(pvalues, select, aOut, budget, cols, done);
  }

  /** A removal round: exactly one column goes, and it is the round's worst
      column above the threshold. */
  ghost predicate Removal(p: PValues, aOut: real, before: set<Key>, after: set<Key>)
  {
    after <= before && |after| + 1 == |before| &&
    forall k :: k in before && k !in after ==> WorstAboveThreshold(p, aOut, k)
  }

  /** What holds of the last round, given why the loop stopped. */
  ghost predicate StopsAt(p: PValues, aOut: real, last: set<Key>, final: set<Key>, stop: Stop)
  {
    match stop
    case EmptyPValues => p == map[] && final == last
    case OnlyConstant => p.Keys == {Constant} && final == last
    case AllSignificant =>
      final == last && p.Keys - {Constant} != {} &&
      forall k :: k in p && k != Constant ==> p[k] <= aOut
    case NoColumnsLeft => final == {} && Removal(p, aOut, last, final)
    case BoundReached => final != {} && Removal(p, aOut, last, final)
  }

  /** A run of backward elimination as the loop allows it, independent of how
      ties are broken: every round but the last removes one column and
      leaves some, and the last round stops for one of the loop's reasons. */
  ghost predicate ValidRun(pvalues: Oracle, aOut: real, budget: int, cols: set<Key>, r: Run)
    decreases |r.rounds|
  {
    if r.rounds == [] then
      budget <= 0 && r.final == cols && r.stop == BoundReached
    else
      budget > 0 && r.rounds[0] == cols &&
      if |r.rounds| == 1 then
        StopsAt(pvalues(cols), aOut, cols, r.final, r.stop) &&
        (r.stop == BoundReached ==> budget == 1)
      else
        r.rounds[1] != {} && Removal(pvalues(cols), aOut, cols, r.rounds[1]) &&
        ValidRun(pvalues, aOut, budget - 1, r.rounds[1], Run(r.rounds[1..], r.final, r.stop))
  }

  /** Dropping the worst key of a round removes exactly one present column. */
  lemma DropIsRemoval(pvalues: Oracle, aOut: real, cols: set<Key>, worst: Key)
    requires ReportsOn(pvalues, cols)
    requires WorstAboveThreshold(pvalues(cols), aOut, worst)
    ensures Removal(pvalues(cols), aOut, cols, cols - {worst})
  {
    assert worst in pvalues(cols).Keys;
    assert worst in cols;
    var rest := cols - {worst};
    assert cols == rest + {worst};
  }

  /** A removal round followed by a valid run on the remaining columns is a
      valid run one round longer. */
  lemma PrependRemoval(pvalues: Oracle, aOut: real, budget: int, cols: set<Key>, rest: set<Key>, r: Run)
    requires budget > 0 && rest != {}
    requires Removal(pvalues(cols), aOut, cols, rest)
    requires ValidRun(pvalues, aOut, budget - 1, rest, r)
    ensures ValidRun(pvalues, aOut, budget, cols, Prefixed([cols], r))
  {
    var rounds := [cols] + r.rounds;
    assert rounds[1..] == r.rounds;
  }

  /** Every run `Eliminate` computes is a valid run. */
  lemma {:induction false} EliminateIsValidRun(pvalues: Oracle, select: Chooser, aOut: real, budget: int, cols: set<Key>)
    requires ReportsPresentColumns(pvalues) && SelectsMax(select)
    ensures ValidRun(pvalues, aOut, budget, cols, Eliminate(pvalues, select, aOut, budget, cols))
    decreases budget
  {
    if budget > 0 {
      var d := Decide(pvalues(cols), aOut, select);
      assert ReportsOn(pvalues, cols);
      if d.Drop? && cols - {d.key} != {} {
        EliminateIsValidRun(pvalues, select, aOut, budget - 1, cols - {d.key});
        DropContinues(pvalues, select, aOut, budget, cols);
      } else {
        LastRound(pvalues, select, aOut, budget, cols);
      }
    }
  }

  /** A round that halts, or that drops the last column, ends a valid run. */
  lemma LastRound(pvalues: Oracle, select: Chooser, aOut: real, budget: int, cols: set<Key>)
    requires SelectsMax(select) && budget > 0 && ReportsOn(pvalues, cols)
    requires var d := Decide(pvalues(cols), aOut, select); d.Halt? || cols - {d.key} == {}
    ensures ValidRun(pvalues, aOut, budget, cols, Eliminate(pvalues, select, aOut, budget, cols))
  {
    var r := Eliminate(pvalues, select, aOut, budget, cols);
    EliminateStep(pvalues, select, aOut, budget, cols, []);
    DecideSpec(pvalues(cols), aOut, select);
    match Decide(pvalues(cols), aOut, select)
    case Halt(reason) =>
      assert r == Run([cols], cols, reason);
    case Drop(worst) =>
      DropIsRemoval(pvalues, aOut, cols, worst);
      assert r == Run([cols], {}, NoColumnsLeft);
  }

  /** A round that drops a column and leaves some continues a valid run. */
  lemma DropContinues(pvalues: Oracle, select: Chooser, aOut: real, budget: int, cols: set<Key>)
    requires SelectsMax(select) && budget > 0 && ReportsOn(pvalues, cols)
    requires var d := Decide(pvalues(cols), aOut, select);
      d.Drop? && cols - {d.key} != {} &&
      ValidRun(pvalues, aOut, budget - 1, cols - {d.key}, Eliminate(pvalues, select, aOut, budget - 1, cols - {d.key}))
    ensures ValidRun(pvalues, aOut, budget, cols, Eliminate(pvalues, select, aOut, budget, cols))
  {
    var worst := Decide(pvalues(cols), aOut, select).key;
    DecideSpec(pvalues(cols), aOut, select);
    var rest := cols - {worst};
    var r' := Eliminate(pvalues, select, aOut, budget - 1, rest);
    EliminateStep(pvalues, select, aOut, budget, cols, []);
    assert Eliminate(pvalues, select, aOut, budget, cols) == Prefixed([cols], r');
    DropIsRemoval(pvalues, aOut, cols, worst);
    PrependRemoval(pvalues, aOut, budget, cols, rest, r');
  }

  /** The run less its first round. */
  function Tail(r: Run): Run
    requires r.rounds != []
  {
    Run(r.rounds[1..], r.final, r.stop)
  }

  /** The i-th round trains on the starting columns less exactly i of them,
      never on an empty set after the first, and the intercept is kept. */
  lemma {:induction false} RoundShrinksByOne(pvalues: Oracle, aOut: real, budget: int, cols: set<Key>, r: Run, i: nat)
    requires ValidRun(pvalues, aOut, budget, cols, r)
    requires i < |r.rounds|
    ensures r.rounds[i] <= cols
    ensures |r.rounds[i]| + i == |cols|
    ensures i > 0 ==> r.rounds[i] != {}
    ensures Constant in cols ==> Constant in r.rounds[i]
    decreases i
  {
    if i > 0 {
      var next := r.rounds[1];
      assert Removal(pvalues(cols), aOut, cols, next);
      RoundShrinksByOne(pvalues, aOut, budget - 1, next, Tail(r), i - 1);
      assert Tail(r).rounds[i - 1] == r.rounds[i];
    }
  }

  /** The loop runs at most maxIterations rounds, exactly that many when the
      bound is what stopped it, and none at all when the bound is not
      positive. */
  lemma {:induction false} EliminateWithinBudget(pvalues: Oracle, select: Chooser, aOut: real, budget: int, cols: set<Key>)
    requires SelectsMax(select)
    ensures var r := Eliminate(pvalues, select, aOut, budget, cols);
      && |r.rounds| <= Max0(budget)
      && (r.stop == BoundReached ==> |r.rounds| == Max0(budget))
      && (budget <= 0 ==> r == Run([], cols, BoundReached))
    decreases budget
  {
    if budget > 0 {
      EliminateStep(pvalues, select, aOut, budget, cols, []);
      var d := Decide(pvalues(cols), aOut, select);
      if d.Drop? && cols - {d.key} != {} {
        EliminateWithinBudget(pvalues, select, aOut, budget - 1, cols - {d.key});
      }
    }
  }

  /** Even with no iteration bound the loop runs at most as many rounds as
      there are starting columns (one round when there are none). */
  lemma RunTerminates(pvalues: Oracle, aOut: real, budget: int, cols: set<Key>, r: Run)
    requires ValidRun(pvalues, aOut, budget, cols, r)
    ensures |r.rounds| <= if |cols| == 0 then 1 else |cols|
  {
    var n := |r.rounds|;
    if n >= 2 {
      RoundShrinksByOne(pvalues, aOut, budget, cols, r, n - 1);
    }
  }

  /** The intercept is never dropped, and the surviving columns are a subset
      of the starting ones. */
  lemma {:induction false} ConstantNeverDropped(pvalues: Oracle, aOut: real, budget: int, cols: set<Key>, r: Run)
    requires ValidRun(pvalues, aOut, budget, cols, r)
    ensures r.final <= cols
    ensures Constant in cols ==> Constant in r.final
    decreases |r.rounds|
  {
    if |r.rounds| > 1 {
      ConstantNeverDropped(pvalues, aOut, budget - 1, r.rounds[1], Tail(r));
    }
  }

  predicate DropsInLastRound(s: Stop)
  {
    s.NoColumnsLeft? || s.BoundReached?
  }

  /** Each removal round drops exactly one column: the number of dropped
      columns is the number of rounds, less one when the last round kept its
      columns. */
  lemma {:induction false} DroppedCount(pvalues: Oracle, aOut: real, budget: int, cols: set<Key>, r: Run)
    requires ValidRun(pvalues, aOut, budget, cols, r)
    ensures |r.final| + |r.rounds| == |cols| + (if DropsInLastRound(r.stop) then 0 else 1)
    decreases |r.rounds|
  {
    if |r.rounds| > 1 {
      DroppedCount(pvalues, aOut, budget - 1, r.rounds[1], Tail(r));
    }
  }

  /** No two non-intercept keys share a p-value. */
  ghost predicate NoTies(p: PValues)
  {
    forall j, k :: j in p && k in p && j != Constant && k != Constant && j != k ==> p[j] != p[k]
  }

  /** Without ties, every maximal selection makes the same decision. */
  lemma DecideChoiceFree(p: PValues, aOut: real, select1: Chooser, select2: Chooser)
    requires SelectsMax(select1) && SelectsMax(select2) && NoTies(p)
    ensures Decide(p, aOut, select1) == Decide(p, aOut, select2)
  {
    var q := p - {Constant};
    if p != map[] && q != map[] {
      var w1, w2 := select1(q), select2(q);
      assert IsMaxKey(q, w1) && IsMaxKey(q, w2);
      assert q[w1] == q[w2];
    }
  }

  /** When the oracle never reports tied p-values, the run does not depend on
      how ties would have been broken. */
  lemma {:induction false} EliminateChoiceFree(pvalues: Oracle, select1: Chooser, select2: Chooser,
                                              aOut: real, budget: int, cols: set<Key>)
    requires SelectsMax(select1) && SelectsMax(select2)
    requires forall c: set<Key> :: NoTies(pvalues(c))
    ensures Eliminate(pvalues, select1, aOut, budget, cols) == Eliminate(pvalues, select2, aOut, budget, cols)
    decreases budget
  {
    if budget > 0 {
      DecideChoiceFree(pvalues(cols), aOut, select1, select2);
      var d := Decide(pvalues(cols), aOut, select1);
      if d.Drop? && cols - {d.key} != {} {
        EliminateChoiceFree(pvalues, select1, select2, aOut, budget - 1, cols - {d.key});
      }
    }
  }

  /** A key that picks a largest entry, showing that `SelectsMax` can be met. */
  ghost function SomeMaxKey(m: PValues): (k: Key)
    requires m != map[]
    ensures IsMaxKey(m, k)
    decreases m.Keys
  {
    var j :| j in m;
    var rest := m - {j};
    assert forall i :: i in m ==> i == j || i in rest;
    if rest == map[] then j
    else
      var k := SomeMaxKey(rest);
      if m[j] >= rest[k] then j else k
  }

  lemma ChooserExists()
    ensures exists select :: SelectsMax(select)
  {
    var select: Chooser := m => if m == map[] then Constant else SomeMaxKey(m);
    assert SelectsMax(select);
  }
}
