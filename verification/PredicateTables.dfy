/** Evaluating a predicate over whole batches, filtering, and reading only the row groups that may match. */
module PredicateTables {
  import opened LinkedMaps
  import opened Predicates

  type Mask = seq<Option<bool>>

  function MaskOf(p: Predicate, schema: Schema, rows: seq<Row>): (r: Mask)
    ensures |r| == |rows|
  {
    seq(|rows|, i requires 0 <= i < |rows| => Eval(p, schema, rows[i]))
  }

  function Zip(f: (Option<bool>, Option<bool>) -> Option<bool>, a: Mask, b: Mask): (r: Mask)
    requires |a| == |b|
    ensures |r| == |a| && forall i :: 0 <= i < |a| ==> r[i] == f(a[i], b[i])
  {
    seq(|a|, i requires 0 <= i < |a| => f(a[i], b[i]))
  }

  lemma EvalEachNext(ps: seq<Predicate>, i: nat, schema: Schema, row: Row)
    requires i < |ps|
    ensures EvalEach(ps[..i + 1], schema, row) == EvalEach(ps[..i], schema, row) + [Eval(ps[i], schema, row)]
  {
  }

  lemma AllOfNext(ps: seq<Predicate>, i: nat, schema: Schema, row: Row)
    requires i < |ps|
    ensures AllOf(EvalEach(ps[..i + 1], schema, row)) ==
            StrictAnd(AllOf(EvalEach(ps[..i], schema, row)), Eval(ps[i], schema, row))
  {
    EvalEachNext(ps, i, schema, row);
    var vals := EvalEach(ps[..i], schema, row);
    assert (vals + [Eval(ps[i], schema, row)])[..|vals|] == vals;
  }

  lemma AnyOfNext(ps: seq<Predicate>, i: nat, schema: Schema, row: Row)
    requires i < |ps|
    ensures AnyOf(EvalEach(ps[..i + 1], schema, row)) ==
            StrictOr(AnyOf(EvalEach(ps[..i], schema, row)), Eval(ps[i], schema, row))
  {
    EvalEachNext(ps, i, schema, row);
    var vals := EvalEach(ps[..i], schema, row);
    assert (vals + [Eval(ps[i], schema, row)])[..|vals|] == vals;
  }

  lemma AllOfMasks(ps: seq<Predicate>, i: nat, schema: Schema, rows: seq<Row>)
    requires i < |ps|
    ensures MaskOf(And(ps[..i + 1]), schema, rows) ==
            Zip(StrictAnd, MaskOf(And(ps[..i]), schema, rows), MaskOf(ps[i], schema, rows))
  {
    forall k | 0 <= k < |rows| ensures Eval(And(ps[..i + 1]), schema, rows[k]) ==
      StrictAnd(Eval(And(ps[..i]), schema, rows[k]), Eval(ps[i], schema, rows[k])) {
      AllOfNext(ps, i, schema, rows[k]);
    }
  }

  method EvaluateAnd(ps: seq<Predicate>, schema: Schema, rows: seq<Row>) returns (r: Option<Mask>)
    requires forall i :: 0 <= i < |rows| ==> |rows[i]| == |schema|
    ensures r.Some? <==> TypeChecks(And(ps), schema)
    ensures r.Some? ==> r.value == MaskOf(And(ps), schema, rows)
    decreases ps
  {
    var result: Mask := seq(|rows|, _ => Some(true));
    for i := 0 to |ps|
      invariant forall j :: 0 <= j < i ==> TypeChecks(ps[j], schema)
      invariant result == MaskOf(And(ps[..i]), schema, rows)
    {
      var mask := EvaluateBatch(ps[i], schema, rows);
      if mask.None? { return None; }
      AllOfMasks(ps, i, schema, rows);
      result := Zip(StrictAnd, result, mask.value);
    }
    assert ps[..|ps|] == ps;
    return Some(result);
  }

  lemma AnyOfMasks(ps: seq<Predicate>, i: nat, schema: Schema, rows: seq<Row>)
    requires i < |ps|
    ensures MaskOf(Or(ps[..i + 1]), schema, rows) ==
            Zip(StrictOr, MaskOf(Or(ps[..i]), schema, rows), MaskOf(ps[i], schema, rows))
  {
    forall k | 0 <= k < |rows| ensures Eval(Or(ps[..i + 1]), schema, rows[k]) ==
      StrictOr(Eval(Or(ps[..i]), schema, rows[k]), Eval(ps[i], schema, rows[k])) {
      AnyOfNext(ps, i, schema, rows[k]);
    }
  }

  method EvaluateOr(ps: seq<Predicate>, schema: Schema, rows: seq<Row>) returns (r: Option<Mask>)
    requires forall i :: 0 <= i < |rows| ==> |rows[i]| == |schema|
    ensures r.Some? <==> TypeChecks(Or(ps), schema)
    ensures r.Some? ==> r.value == MaskOf(Or(ps), schema, rows)
    decreases ps
  {
    var result: Mask := seq(|rows|, _ => Some(false));
    for i := 0 to |ps|
      invariant forall j :: 0 <= j < i ==> TypeChecks(ps[j], schema)
      invariant result == MaskOf(Or(ps[..i]), schema, rows)
    {
      var mask := EvaluateBatch(ps[i], schema, rows);
      if mask.None? { return None; }
      AnyOfMasks(ps, i, schema, rows);
      result := Zip(StrictOr, result, mask.value);
    }
    assert ps[..|ps|] == ps;
    return Some(result);
  }

  /** The mask of a batch holds each row's own answer; evaluation fails exactly when a column is
      missing or of another type than its scalar, wherever in the predicate that is. */
  method EvaluateBatch(p: Predicate, schema: Schema, rows: seq<Row>) returns (r: Option<Mask>)
    requires forall i :: 0 <= i < |rows| ==> |rows[i]| == |schema|
    ensures r.Some? <==> TypeChecks(p, schema)
    ensures r.Some? ==> r.value == MaskOf(p, schema, rows)
    decreases p
  {
    match p
    case All => return Some(seq(|rows|, _ => Some(true)));
    case Nothing => return Some(seq(|rows|, _ => Some(false)));
    case Cmp(column, op, value) =>
      var c := ColumnOf(schema, column);
      if c.None? || !Comparable(schema[c.value].kind, value) { return None; }
      return Some(seq(|rows|, i requires 0 <= i < |rows| => CompareValue(rows[i][c.value], op, value)));
    case And(ps) => r := EvaluateAnd(ps, schema, rows);
    case Or(ps) => r := EvaluateOr(ps, schema, rows);
    case Not(q) =>
      var mask := EvaluateBatch(q, schema, rows);
      if mask.None? { return None; }
      var m := mask.value;
      return Some(seq(|m|, i requires 0 <= i < |m| => if m[i].Some? then Some(!m[i].value) else None));
  }

  // ---------------------------------------------------------------------
  // Filtering
  // ---------------------------------------------------------------------

  /** The rows the predicate is true of, in order. */
  function Matching(p: Predicate, schema: Schema, rows: seq<Row>): seq<Row>
    decreases |rows|
  {
    if rows == [] then [] else
      var last := rows[|rows| - 1];
      Matching(p, schema, rows[..|rows| - 1]) + if Eval(p, schema, last) == Some(true) then [last] else []
  }

  function Flat(batches: seq<seq<Row>>): seq<Row>
    decreases |batches|
  {
    if batches == [] then [] else Flat(batches[..|batches| - 1]) + batches[|batches| - 1]
  }

  predicate Shaped(batches: seq<seq<Row>>, schema: Schema) {
    forall b, i :: 0 <= b < |batches| && 0 <= i < |batches[b]| ==> |batches[b][i]| == |schema|
  }

  lemma {:induction false} MatchingConcat(p: Predicate, schema: Schema, a: seq<Row>, b: seq<Row>)
    ensures Matching(p, schema, a + b) == Matching(p, schema, a) + Matching(p, schema, b)
    decreases |b|
  {
    if b == [] {
      assert a + b == a;
    } else {
      var front := b[..|b| - 1];
      assert (a + b)[..|a + b| - 1] == a + front;
      MatchingConcat(p, schema, a, front);
    }
  }


  lemma {:induction false} MatchingNone(p: Predicate, schema: Schema, rows: seq<Row>)
    ensures Matching(p, schema, rows) == [] <==>
            forall i :: 0 <= i < |rows| ==> Eval(p, schema, rows[i]) != Some(true)
    decreases |rows|
  {
    hide Eval;
    if rows != [] {
      var front := rows[..|rows| - 1];
      MatchingNone(p, schema, front);
      assert forall i :: 0 <= i < |front| ==> front[i] == rows[i];
      assert Eval(p, schema, rows[|rows| - 1]) == Some(true) || Matching(p, schema, rows) == Matching(p, schema, front);
    }
  }

  function NullRows(p: Predicate, schema: Schema, rows: seq<Row>): seq<Row>
    decreases |rows|
  {
    if rows == [] then [] else
      var last := rows[|rows| - 1];
      NullRows(p, schema, rows[..|rows| - 1]) + if MeetsNull(p, schema, last) then [last] else []
  }

  /** The rows kept are those of which ordinary logic says the predicate and that meet no null. */
  lemma {:induction false} MatchingIs(p: Predicate, schema: Schema, rows: seq<Row>, row: Row)
    requires TypeChecks(p, schema) && forall i :: 0 <= i < |rows| ==> WellTyped(rows[i], schema)
    ensures multiset(Matching(p, schema, rows))[row] ==
            if Truth(p, schema, row) && !MeetsNull(p, schema, row) then multiset(rows)[row] else 0
    decreases |rows|
  {
    hide Eval, MeetsNull, Truth, TypeChecks, WellTyped;
    if rows != [] {
      var front, last := rows[..|rows| - 1], rows[|rows| - 1];
      MatchingIs(p, schema, front, row);
      assert rows == front + [last];
      EvalIs(p, schema, last);
    }
  }

  lemma {:induction false} NullRowsAre(p: Predicate, schema: Schema, rows: seq<Row>, row: Row)
    ensures multiset(NullRows(p, schema, rows))[row] == if MeetsNull(p, schema, row) then multiset(rows)[row] else 0
    decreases |rows|
  {
    hide MeetsNull;
    if rows != [] {
      var front, last := rows[..|rows| - 1], rows[|rows| - 1];
      NullRowsAre(p, schema, front, row);
      assert rows == front + [last];
    }
  }

  /** The rows a predicate is true of, those its negation is true of and those that meet a null are all
      the rows, each once. */
  lemma NegationPartitions(p: Predicate, schema: Schema, rows: seq<Row>)
    requires TypeChecks(p, schema) && forall i :: 0 <= i < |rows| ==> WellTyped(rows[i], schema)
    ensures multiset(rows) == multiset(Matching(p, schema, rows)) + multiset(Matching(Not(p), schema, rows))
                              + multiset(NullRows(p, schema, rows))
  {
    hide Matching, NullRows, WellTyped;
    var parts := multiset(Matching(p, schema, rows)) + multiset(Matching(Not(p), schema, rows))
                 + multiset(NullRows(p, schema, rows));
    forall row ensures multiset(rows)[row] == parts[row] {
      MatchingIs(p, schema, rows, row);
      MatchingIs(Not(p), schema, rows, row);
      NullRowsAre(p, schema, rows, row);
    }
  }

  /** Keeps the rows whose mask is true; null counts as false. */
  method FilterBatch(rows: seq<Row>, mask: Mask, ghost p: Predicate, ghost schema: Schema) returns (r: seq<Row>)
    requires mask == MaskOf(p, schema, rows)
    ensures r == Matching(p, schema, rows)
  {
    r := [];
    for i := 0 to |rows|
      invariant r == Matching(p, schema, rows[..i])
    {
      assert rows[..i + 1][..i] == rows[..i];
      if mask[i] == Some(true) { r := r + [rows[i]]; }
    }
    assert rows[..|rows|] == rows;
  }

  lemma FilterNext(
    p: Predicate, schema: Schema, batches: seq<seq<Row>>, i: nat, filtered: seq<seq<Row>>, result: seq<Row>)
    requires i < |batches| && Flat(filtered) == Matching(p, schema, Flat(batches[..i]))
    requires result == Matching(p, schema, batches[i])
    ensures Flat(if result == [] then filtered else filtered + [result]) == Matching(p, schema, Flat(batches[..i + 1]))
  {
    assert batches[..i + 1][..i] == batches[..i];
    assert (filtered + [result])[..|filtered|] == filtered;
    hide Matching;
    MatchingConcat(p, schema, Flat(batches[..i]), batches[i]);
  }

  /** Filtering a table keeps exactly the matching rows, in order, and no empty batch; it fails exactly
      when there is a batch and the predicate does not fit the schema. */
  method Filter(p: Predicate, schema: Schema, batches: seq<seq<Row>>) returns (r: Option<seq<seq<Row>>>)
    requires Shaped(batches, schema)
    ensures r.Some? <==> TypeChecks(p, schema) || batches == []
    ensures r.Some? ==> Flat(r.value) == Matching(p, schema, Flat(batches)) && [] !in r.value
  {
    var filtered: seq<seq<Row>> := [];
    assert Flat(filtered) == Matching(p, schema, Flat(batches[..0]));
    hide Flat, Matching, TypeChecks;
    for i := 0 to |batches|
      invariant i > 0 ==> TypeChecks(p, schema)
      invariant [] !in filtered
      invariant Flat(filtered) == Matching(p, schema, Flat(batches[..i]))
    {
      var mask := EvaluateBatch(p, schema, batches[i]);
      if mask.None? { return None; }
      var result := FilterBatch(batches[i], mask.value, p, schema);
      FilterNext(p, schema, batches, i, filtered, result);
      if result != [] { filtered := filtered + [result]; }
    }
    assert batches[..|batches|] == batches;
    return Some(filtered);
  }

  // ---------------------------------------------------------------------
  // Pruned reads
  // ---------------------------------------------------------------------

  function RowsOf(groups: seq<RowGroup>): seq<seq<Row>> {
    seq(|groups|, i requires 0 <= i < |groups| => groups[i].rows)
  }

  function Surviving(p: Predicate, groups: seq<RowGroup>, leaves: seq<Leaf>): seq<RowGroup>
    decreases |groups|
  {
    if groups == [] then [] else
      var last := groups[|groups| - 1];
      Surviving(p, groups[..|groups| - 1], leaves) + if MightMatch(p, last, leaves) then [last] else []
  }

  /** The row groups a read with the predicate opens. */
  method SelectGroups(p: Predicate, groups: seq<RowGroup>, leaves: seq<Leaf>) returns (r: seq<RowGroup>)
    ensures r == Surviving(p, groups, leaves)
  {
    r := [];
    for i := 0 to |groups|
      invariant r == Surviving(p, groups[..i], leaves)
    {
      assert groups[..i + 1][..i] == groups[..i];
      if MightMatch(p, groups[i], leaves) { r := r + [groups[i]]; }
    }
    assert groups[..|groups|] == groups;
  }

  lemma PrunedGroupIsEmpty(p: Predicate, g: RowGroup, leaves: seq<Leaf>, schema: Schema)
    requires Trusted(p, g, leaves, schema) && TypeChecks(p, schema) && RightLeaves(p, leaves, schema)
    requires !MightMatch(p, g, leaves)
    ensures Matching(p, schema, g.rows) == []
  {
    forall i | 0 <= i < |g.rows| ensures Eval(p, schema, g.rows[i]) != Some(true) {
      PruneSound(p, g, leaves, schema, i);
    }
    MatchingNone(p, schema, g.rows);
  }

  lemma RowsSnoc(groups: seq<RowGroup>, g: RowGroup)
    ensures Flat(RowsOf(groups + [g])) == Flat(RowsOf(groups)) + g.rows
  {
    var all := RowsOf(groups + [g]);
    assert all[..|groups|] == RowsOf(groups);
  }

  ghost predicate AllTrusted(p: Predicate, groups: seq<RowGroup>, leaves: seq<Leaf>, schema: Schema) {
    forall i :: 0 <= i < |groups| ==> Trusted(p, groups[i], leaves, schema)
  }

  /** Reading with the predicate and then filtering gives what reading everything and filtering gives. */
  predicate LosesNothing(p: Predicate, groups: seq<RowGroup>, leaves: seq<Leaf>, schema: Schema) {
    Matching(p, schema, Flat(RowsOf(Surviving(p, groups, leaves)))) == Matching(p, schema, Flat(RowsOf(groups)))
  }

  lemma {:induction false} PushdownExact(p: Predicate, groups: seq<RowGroup>, leaves: seq<Leaf>, schema: Schema)
    requires TypeChecks(p, schema) && RightLeaves(p, leaves, schema) && AllTrusted(p, groups, leaves, schema)
    ensures LosesNothing(p, groups, leaves, schema)
    decreases |groups|
  {
    if groups != [] {
      var front, last := groups[..|groups| - 1], groups[|groups| - 1];
      PushdownExact(p, front, leaves, schema);
      assert groups == front + [last];
      RowsSnoc(front, last);
      MatchingConcat(p, schema, Flat(RowsOf(front)), last.rows);
      SurvivorsMatch(p, front, last, leaves, schema);
      assert groups[..|groups| - 1] == front;
    }
  }

  lemma SurvivorsMatch(p: Predicate, front: seq<RowGroup>, last: RowGroup, leaves: seq<Leaf>, schema: Schema)
    requires TypeChecks(p, schema) && RightLeaves(p, leaves, schema) && Trusted(p, last, leaves, schema)
    ensures Matching(p, schema, Flat(RowsOf(Surviving(p, front + [last], leaves)))) ==
            Matching(p, schema, Flat(RowsOf(Surviving(p, front, leaves)))) + Matching(p, schema, last.rows)
  {
    var kept := Surviving(p, front, leaves);
    SurvivingSnoc(p, front, last, leaves);
    if MightMatch(p, last, leaves) {
      RowsSnoc(kept, last);
      MatchingConcat(p, schema, Flat(RowsOf(kept)), last.rows);
    } else {
      PrunedGroupIsEmpty(p, last, leaves, schema);
      assert kept + [] == kept;
    }
  }

  lemma SurvivingSnoc(p: Predicate, front: seq<RowGroup>, last: RowGroup, leaves: seq<Leaf>)
    ensures Surviving(p, front + [last], leaves) ==
            Surviving(p, front, leaves) + if MightMatch(p, last, leaves) then [last] else []
  {
    assert (front + [last])[..|front|] == front;
  }

  /** A lone row group that is ruled out is lost exactly if it has a matching row. */
  lemma LoneGroup(p: Predicate, g: RowGroup, leaves: seq<Leaf>, schema: Schema)
    requires !MightMatch(p, g, leaves)
    ensures Surviving(p, [g], leaves) == [] && Flat(RowsOf([g])) == g.rows
    ensures LosesNothing(p, [g], leaves, schema) <==> NoneMatch(p, g, schema)
  {
    SurvivingSnoc(p, [], g, leaves);
    RowsSnoc([], g);
    assert [] + [g] == [g] && [] + g.rows == g.rows;
    assert Surviving(p, [], leaves) == [] && Matching(p, schema, Flat(RowsOf([]))) == [];
    MatchingNone(p, schema, g.rows);
  }

  /** A file loses no row to any predicate that fits its schema exactly when no comparable column is
      shadowed by an earlier leaf of its name and kind. */
  lemma PushdownIff(leaves: seq<Leaf>, schema: Schema)
    requires LeavesFit(leaves, schema)
    ensures (forall p, groups :: TypeChecks(p, schema) && AllTrusted(p, groups, leaves, schema) ==>
                                 LosesNothing(p, groups, leaves, schema))
            <==> SchemaSafe(leaves, schema)
  {
    hide TypeChecks, Trusted, NoneMatch, MightMatch, SchemaSafe, LosesNothing, LeavesFit, RightLeaves;
    if SchemaSafe(leaves, schema) {
      forall p, groups | TypeChecks(p, schema) && AllTrusted(p, groups, leaves, schema)
        ensures LosesNothing(p, groups, leaves, schema)
      {
        SchemaSafeRight(p, leaves, schema);
        PushdownExact(p, groups, leaves, schema);
      }
    } else {
      SchemaPrunesIff(leaves, schema);
      var p :| TypeChecks(p, schema) && !PrunesSoundly(p, leaves, schema);
      var g: RowGroup :| Trusted(p, g, leaves, schema) && !MightMatch(p, g, leaves) && !NoneMatch(p, g, schema);
      LoneGroup(p, g, leaves, schema);
      assert AllTrusted(p, [g], leaves, schema) && !LosesNothing(p, [g], leaves, schema);
    }
  }

  // A struct column s with an integer a inside, then a top-level integer a.
  const NESTED_SCHEMA: Schema := [Field("s", OtherKind), Field("a", IntKind(false))]
  const NESTED_LEAVES: seq<Leaf> := [Leaf("a", IntKind(false), None), Leaf("a", IntKind(false), Some(1))]
  const NESTED_ROW: Row := [OtherValue, IntValue(1)]
  const NESTED_GROUP: RowGroup :=
    RowGroup([NESTED_ROW], [Some(IntStats(false, Some(100), Some(200), Some(0))),
                            Some(IntStats(false, Some(1), Some(1), Some(0)))])

  lemma NestedLookups()
    ensures ColumnOf(NESTED_SCHEMA, "a") == Some(1) && LeafOf(NESTED_LEAVES, "a") == Some(0)
  {
    assert NESTED_SCHEMA[1..][0].name == "a";
    assert |NESTED_SCHEMA[0].name| == 1 && NESTED_SCHEMA[0].name[0] == 's';
    assert "a"[0] == 'a';
  }

  lemma NestedIsTrusted(p: Predicate)
    requires p == Cmp("a", Lt, IntScalar(false, 50))
    ensures TypeChecks(p, NESTED_SCHEMA) && Trusted(p, NESTED_GROUP, NESTED_LEAVES, NESTED_SCHEMA)
    ensures !MightMatch(p, NESTED_GROUP, NESTED_LEAVES) && Eval(p, NESTED_SCHEMA, NESTED_ROW) == Some(true)
  {
    NestedLookups();
    hide ColumnOf, LeafOf;
  }

  /** The predicate a < 50 is judged by the statistics of s.a, which lie within 100 and 200, and the row
      with a = 1 is lost. */
  lemma NestedLeafLosesRow()
    ensures var p := Cmp("a", Lt, IntScalar(false, 50));
            && TypeChecks(p, NESTED_SCHEMA) && Trusted(p, NESTED_GROUP, NESTED_LEAVES, NESTED_SCHEMA)
            && Surviving(p, [NESTED_GROUP], NESTED_LEAVES) == []
            && Matching(p, NESTED_SCHEMA, Flat(RowsOf([NESTED_GROUP]))) == [NESTED_ROW]
  {
    var p := Cmp("a", Lt, IntScalar(false, 50));
    hide TypeChecks, Trusted, MightMatch, Eval;
    NestedIsTrusted(p);
    LoneGroup(p, NESTED_GROUP, NESTED_LEAVES, NESTED_SCHEMA);
    assert [NESTED_ROW][..0] == [];
  }

  /** A pruned read followed by the filter, whatever batches the reader cuts the rows into: all
      matching rows of the file come back, each once and in order. */
  method ReadAndFilter(p: Predicate, groups: seq<RowGroup>, leaves: seq<Leaf>, schema: Schema, batches: seq<seq<Row>>)
    returns (r: Option<seq<seq<Row>>>)
    requires Shaped(batches, schema) && Flat(batches) == Flat(RowsOf(Surviving(p, groups, leaves)))
    ensures TypeChecks(p, schema) ==> r.Some?
    ensures TypeChecks(p, schema) && RightLeaves(p, leaves, schema) && AllTrusted(p, groups, leaves, schema) ==>
              Flat(r.value) == Matching(p, schema, Flat(RowsOf(groups)))
    ensures !TypeChecks(p, schema) ==> (r.None? <==> batches != [])
  {
    r := Filter(p, schema, batches);
    if TypeChecks(p, schema) && RightLeaves(p, leaves, schema) && AllTrusted(p, groups, leaves, schema) {
      PushdownExact(p, groups, leaves, schema);
    }
  }
}
