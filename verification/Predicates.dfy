/** Predicates over rows with nulls, and row-group pruning by column statistics. */
module Predicates {
  import opened LinkedMaps
  import opened ByteOrder
  import opened Utf8

  // ---------------------------------------------------------------------
  // Values, rows, predicates
  // ---------------------------------------------------------------------

  /** A float without rounding; NaN sorts above every number, as the row comparison kernels order it. */
  datatype Float = Num(r: real) | NaN

  predicate FloatLess(a: Float, b: Float) {
    a.Num? && (b.NaN? || a.r < b.r)
  }

  /** The width flag tells the 64-bit kind from the 32-bit one. */
  datatype Kind = IntKind(wide: bool) | FloatKind(wide: bool) | Utf8Kind | BoolKind | OtherKind

  datatype Value =
    | NullValue
    | IntValue(i: int)
    | FloatValue(f: Float)
    | BytesValue(b: Key)
    | BoolValue(t: bool)
    | OtherValue

  predicate HasKind(v: Value, k: Kind) {
    match v
    case NullValue => true
    case IntValue(_) => k.IntKind?
    case FloatValue(_) => k.FloatKind?
    case BytesValue(_) => k.Utf8Kind?
    case BoolValue(_) => k.BoolKind?
    case OtherValue => k.OtherKind?
  }

  datatype Field = Field(name: string, kind: Kind)
  type Schema = seq<Field>
  type Row = seq<Value>

  predicate WellTyped(row: Row, schema: Schema) {
    |row| == |schema| && forall c :: 0 <= c < |row| ==> HasKind(row[c], schema[c].kind)
  }

  datatype Scalar =
    | BoolScalar(t: bool)
    | IntScalar(wide: bool, i: int)
    | FloatScalar(wide: bool, f: Float)
    | BytesScalar(b: Key)
    | NullScalar

  datatype CmpOp = Eq | Ne | Lt | Le | Gt | Ge

  datatype Predicate =
    | Cmp(column: string, op: CmpOp, value: Scalar)
    | And(preds: seq<Predicate>)
    | Or(preds: seq<Predicate>)
    | Not(pred: Predicate)
    | All
    | Nothing

  /** The first column with the name. */
  function ColumnOf(schema: Schema, name: string): (c: Option<nat>)
    ensures c.Some? ==> c.value < |schema| && schema[c.value].name == name
    ensures forall i :: 0 <= i < (if c.Some? then c.value else |schema|) ==> schema[i].name != name
    decreases |schema|
  {
    if schema == [] then None
    else if schema[0].name == name then Some(0)
    else match ColumnOf(schema[1..], name)
      case Some(c) => Some(c + 1)
      case None => None
  }

  predicate Comparable(kind: Kind, value: Scalar) {
    match value
    case IntScalar(w, _) => kind == IntKind(w)
    case FloatScalar(w, _) => kind == FloatKind(w)
    case BytesScalar(b) => kind == Utf8Kind && ValidUtf8(b)
    case _ => false
  }

  /** Row evaluation succeeds on the schema. */
  predicate TypeChecks(p: Predicate, schema: Schema) {
    match p
    case Cmp(column, _, value) =>
      var c := ColumnOf(schema, column);
      c.Some? && Comparable(schema[c.value].kind, value)
    case And(ps) => forall i :: 0 <= i < |ps| ==> TypeChecks(ps[i], schema)
    case Or(ps) => forall i :: 0 <= i < |ps| ==> TypeChecks(ps[i], schema)
    case Not(q) => TypeChecks(q, schema)
    case _ => true
  }

  // ---------------------------------------------------------------------
  // Row by row
  // ---------------------------------------------------------------------

  predicate Holds(op: CmpOp, less: bool, equal: bool) {
    match op
    case Eq => equal
    case Ne => !equal
    case Lt => less
    case Le => less || equal
    case Gt => !less && !equal
    case Ge => !less
  }

  predicate IntHolds(op: CmpOp, i: int, v: int) {
    Holds(op, i < v, i == v)
  }

  /** A comparison with a null is null. */
  function CompareValue(x: Value, op: CmpOp, value: Scalar): Option<bool> {
    match (x, value)
    case (IntValue(i), IntScalar(_, v)) => Some(IntHolds(op, i, v))
    case (FloatValue(f), FloatScalar(_, v)) => Some(Holds(op, FloatLess(f, v), f == v))
    case (BytesValue(b), BytesScalar(v)) => Some(Holds(op, Less(b, v), b == v))
    case _ => None
  }

  function StrictAnd(a: Option<bool>, b: Option<bool>): Option<bool> {
    if a.None? || b.None? then None else Some(a.value && b.value)
  }

  function StrictOr(a: Option<bool>, b: Option<bool>): Option<bool> {
    if a.None? || b.None? then None else Some(a.value || b.value)
  }

  function AllOf(vals: seq<Option<bool>>): Option<bool>
    decreases |vals|
  {
    if vals == [] then Some(true) else StrictAnd(AllOf(vals[..|vals| - 1]), vals[|vals| - 1])
  }

  function AnyOf(vals: seq<Option<bool>>): Option<bool>
    decreases |vals|
  {
    if vals == [] then Some(false) else StrictOr(AnyOf(vals[..|vals| - 1]), vals[|vals| - 1])
  }

  function EvalEach(ps: seq<Predicate>, schema: Schema, row: Row): (r: seq<Option<bool>>)
    ensures |r| == |ps| && forall i :: 0 <= i < |ps| ==> r[i] == Eval(ps[i], schema, row)
  {
    seq(|ps|, i requires 0 <= i < |ps| => Eval(ps[i], schema, row))
  }

  /** One row's answer: true, false, or null when any part of it is null. */
  function Eval(p: Predicate, schema: Schema, row: Row): Option<bool> {
    match p
    case Cmp(column, op, value) =>
      var c := ColumnOf(schema, column);
      if c.Some? && c.value < |row| then CompareValue(row[c.value], op, value) else None
    case And(ps) => AllOf(EvalEach(ps, schema, row))
    case Or(ps) => AnyOf(EvalEach(ps, schema, row))
    case Not(q) => var v := Eval(q, schema, row); if v.Some? then Some(!v.value) else None
    case All => Some(true)
    case Nothing => Some(false)
  }

  /** A conjunction is true when every part is, and null when any part is null. */
  lemma {:induction false} AllOfTrue(vals: seq<Option<bool>>)
    ensures AllOf(vals) == Some(true) <==> forall i :: 0 <= i < |vals| ==> vals[i] == Some(true)
    ensures AllOf(vals).None? <==> exists i :: 0 <= i < |vals| && vals[i].None?
    decreases |vals|
  {
    if vals != [] {
      var front, last := vals[..|vals| - 1], vals[|vals| - 1];
      AllOfTrue(front);
      assert vals == front + [last];
      assert last.None? ==> vals[|vals| - 1].None?;
      assert forall i :: 0 <= i < |front| ==> front[i] == vals[i];
    }
  }

  /** A disjunction is true when some part is true and no part is null. */
  lemma {:induction false} AnyOfTrue(vals: seq<Option<bool>>)
    ensures AnyOf(vals) == Some(true) <==>
            Some(true) in vals && forall i :: 0 <= i < |vals| ==> vals[i].Some?
    ensures AnyOf(vals).None? <==> exists i :: 0 <= i < |vals| && vals[i].None?
    decreases |vals|
  {
    if vals != [] {
      var front, last := vals[..|vals| - 1], vals[|vals| - 1];
      AnyOfTrue(front);
      assert vals == front + [last];
      assert last.None? ==> vals[|vals| - 1].None?;
      assert forall i :: 0 <= i < |front| ==> front[i] == vals[i];
    }
  }

  // ---------------------------------------------------------------------
  // What a row's answer means: ordinary logic where nothing compared is null
  // ---------------------------------------------------------------------

  datatype Side = Under | Same | Over

  /** On which side of the scalar a value lies. NaN lies above every number. */
  function SideOf(x: Value, value: Scalar): Side {
    match (x, value)
    case (IntValue(i), IntScalar(_, v)) => if i < v then Under else if v < i then Over else Same
    case (FloatValue(f), FloatScalar(_, v)) =>
      if f == v then Same else if f.NaN? then Over else if v.NaN? || f.r < v.r then Under else Over
    case (BytesValue(b), BytesScalar(v)) => if b == v then Same else if Less(b, v) then Under else Over
    case _ => Same
  }

  /** The sides that an operator accepts. */
  function Accepted(op: CmpOp): set<Side> {
    match op
    case Eq => {Same}
    case Ne => {Under, Over}
    case Lt => {Under}
    case Le => {Under, Same}
    case Gt => {Over}
    case Ge => {Same, Over}
  }

  /** Some comparison of the predicate meets a null in the row. */
  predicate MeetsNull(p: Predicate, schema: Schema, row: Row) {
    match p
    case Cmp(column, _, _) =>
      var c := ColumnOf(schema, column);
      c.Some? && c.value < |row| && row[c.value].NullValue?
    case And(ps) => exists i :: 0 <= i < |ps| && MeetsNull(ps[i], schema, row)
    case Or(ps) => exists i :: 0 <= i < |ps| && MeetsNull(ps[i], schema, row)
    case Not(q) => MeetsNull(q, schema, row)
    case _ => false
  }

  /** The predicate in ordinary two-valued logic. */
  predicate Truth(p: Predicate, schema: Schema, row: Row) {
    match p
    case Cmp(column, op, value) =>
      var c := ColumnOf(schema, column);
      c.Some? && c.value < |row| && SideOf(row[c.value], value) in Accepted(op)
    case And(ps) => forall i :: 0 <= i < |ps| ==> Truth(ps[i], schema, row)
    case Or(ps) => exists i :: 0 <= i < |ps| && Truth(ps[i], schema, row)
    case Not(q) => !Truth(q, schema, row)
    case All => true
    case Nothing => false
  }

  lemma CompareValueIs(x: Value, kind: Kind, op: CmpOp, value: Scalar)
    requires HasKind(x, kind) && Comparable(kind, value)
    ensures CompareValue(x, op, value) ==
            if x.NullValue? then None else Some(SideOf(x, value) in Accepted(op))
  {
    if x.BytesValue? && value.BytesScalar? { LessIrreflexive(x.b); }
  }

  /** A row's answer is null if any comparison meets a null, wherever in the predicate, and otherwise what
      ordinary logic says. */
  lemma {:induction false} EvalIs(p: Predicate, schema: Schema, row: Row)
    requires TypeChecks(p, schema) && WellTyped(row, schema)
    ensures Eval(p, schema, row) == if MeetsNull(p, schema, row) then None else Some(Truth(p, schema, row))
  {
    match p
    case Cmp(column, op, value) =>
      var c := ColumnOf(schema, column).value;
      CompareValueIs(row[c], schema[c].kind, op, value);
    case And(ps) =>
      forall i | 0 <= i < |ps| { EvalIs(ps[i], schema, row); }
      EvalAnd(ps, schema, row);
    case Or(ps) =>
      forall i | 0 <= i < |ps| { EvalIs(ps[i], schema, row); }
      EvalOr(ps, schema, row);
    case Not(q) => EvalIs(q, schema, row);
    case _ =>
  }

  ghost predicate EvalsTo(ps: seq<Predicate>, schema: Schema, row: Row) {
    forall i :: 0 <= i < |ps| ==>
      Eval(ps[i], schema, row) == if MeetsNull(ps[i], schema, row) then None else Some(Truth(ps[i], schema, row))
  }

  lemma EvalAnd(ps: seq<Predicate>, schema: Schema, row: Row)
    requires EvalsTo(ps, schema, row)
    ensures Eval(And(ps), schema, row) ==
            if MeetsNull(And(ps), schema, row) then None else Some(Truth(And(ps), schema, row))
  {
    AllOfTrue(EvalEach(ps, schema, row));
  }

  lemma EvalOr(ps: seq<Predicate>, schema: Schema, row: Row)
    requires EvalsTo(ps, schema, row)
    ensures Eval(Or(ps), schema, row) ==
            if MeetsNull(Or(ps), schema, row) then None else Some(Truth(Or(ps), schema, row))
  {
    var vals := EvalEach(ps, schema, row);
    AnyOfTrue(vals);
    assert Some(true) in vals <==> exists i :: 0 <= i < |vals| && vals[i] == Some(true);
  }

  /** Of a predicate and its negation exactly one is true of a row, unless both are null. */
  lemma NegationFlips(p: Predicate, schema: Schema, row: Row)
    requires TypeChecks(p, schema) && WellTyped(row, schema)
    ensures var yes, no := Eval(p, schema, row), Eval(Not(p), schema, row);
            || (yes == Some(true) && no == Some(false))
            || (yes == Some(false) && no == Some(true))
            || (yes.None? && no.None?)
  {
    EvalIs(p, schema, row);
    EvalIs(Not(p), schema, row);
  }

  function Negated(ps: seq<Predicate>): (r: seq<Predicate>)
    ensures |r| == |ps| && forall i :: 0 <= i < |ps| ==> r[i] == Not(ps[i])
  {
    seq(|ps|, i requires 0 <= i < |ps| => Not(ps[i]))
  }

  /** Negation moves inwards, nulls included. */
  lemma DeMorgan(ps: seq<Predicate>, schema: Schema, row: Row)
    requires TypeChecks(And(ps), schema) && WellTyped(row, schema)
    ensures Eval(Not(And(ps)), schema, row) == Eval(Or(Negated(ps)), schema, row)
    ensures Eval(Not(Or(ps)), schema, row) == Eval(And(Negated(ps)), schema, row)
  {
    hide Eval, MeetsNull, Truth, TypeChecks, WellTyped;
    NegatedNull(ps, schema, row);
    NegatedTruth(ps, schema, row);
    NegatedTypes(ps, schema);
    EvalIs(Not(And(ps)), schema, row);
    EvalIs(Not(Or(ps)), schema, row);
    EvalIs(Or(Negated(ps)), schema, row);
    EvalIs(And(Negated(ps)), schema, row);
  }

  lemma NegatedNull(ps: seq<Predicate>, schema: Schema, row: Row)
    ensures MeetsNull(Not(And(ps)), schema, row) == MeetsNull(Or(Negated(ps)), schema, row)
    ensures MeetsNull(Not(Or(ps)), schema, row) == MeetsNull(And(Negated(ps)), schema, row)
  {
    hide ColumnOf;
    var qs := Negated(ps);
    assert forall i :: 0 <= i < |ps| ==> MeetsNull(qs[i], schema, row) == MeetsNull(ps[i], schema, row);
  }

  lemma NegatedTruth(ps: seq<Predicate>, schema: Schema, row: Row)
    ensures Truth(Not(And(ps)), schema, row) == Truth(Or(Negated(ps)), schema, row)
    ensures Truth(Not(Or(ps)), schema, row) == Truth(And(Negated(ps)), schema, row)
  {
    hide ColumnOf, SideOf, Accepted;
    var qs := Negated(ps);
    assert forall i :: 0 <= i < |ps| ==> Truth(qs[i], schema, row) == !Truth(ps[i], schema, row);
  }

  lemma NegatedTypes(ps: seq<Predicate>, schema: Schema)
    requires TypeChecks(And(ps), schema)
    ensures TypeChecks(Not(And(ps)), schema) && TypeChecks(Not(Or(ps)), schema)
    ensures TypeChecks(Or(Negated(ps)), schema) && TypeChecks(And(Negated(ps)), schema)
  {
    hide ColumnOf, Comparable;
    var qs := Negated(ps);
    assert forall i :: 0 <= i < |ps| ==> TypeChecks(qs[i], schema) == TypeChecks(ps[i], schema);
  }

  // ---------------------------------------------------------------------
  // Statistics
  // ---------------------------------------------------------------------

  datatype Stats =
    | BoolStats(bmin: Option<bool>, bmax: Option<bool>)
    | IntStats(wide: bool, imin: Option<int>, imax: Option<int>, nulls: Option<nat>)
    | FloatStats(wide: bool, fmin: Option<Float>, fmax: Option<Float>, nulls: Option<nat>)
    | BytesStats(smin: Option<Key>, smax: Option<Key>, nulls: Option<nat>)
    | OtherStats

  const EPSILON_32: real := 1.0 / 8388608.0
  const EPSILON_64: real := 1.0 / 4503599627370496.0

  predicate Near(a: real, b: real, wide: bool) {
    var d := if a < b then b - a else a - b;
    d < if wide then EPSILON_64 else EPSILON_32
  }

  predicate BoolMight(op: CmpOp, min: bool, max: bool, v: bool) {
    match op
    case Eq => (!min || v) && (!v || max)
    case Ne => true
    case Lt => !min && v
    case Le => !min || v
    case Gt => max && !v
    case Ge => max || !v
  }

  predicate IntMight(op: CmpOp, min: int, max: int, v: int, nulls: Option<nat>) {
    match op
    case Eq => min <= v && v <= max
    case Ne => !(min == v && max == v && nulls == Some(0))
    case Lt => min < v
    case Le => min <= v
    case Gt => max > v
    case Ge => max >= v
  }

  predicate FloatMight(wide: bool, op: CmpOp, min: Float, max: Float, v: Float, nulls: Option<nat>) {
    min.NaN? || max.NaN? || v.NaN? ||
    match op
    case Eq => min.r <= v.r && v.r <= max.r
    case Ne => !(Near(min.r, v.r, wide) && Near(max.r, v.r, wide) && nulls == Some(0))
    case Lt => min.r < v.r
    case Le => min.r <= v.r
    case Gt => max.r > v.r
    case Ge => max.r >= v.r
  }

  predicate BytesMight(op: CmpOp, min: Key, max: Key, v: Key, nulls: Option<nat>) {
    match op
    case Eq => LessEq(min, v) && LessEq(v, max)
    case Ne => !(min == v && max == v && nulls == Some(0))
    case Lt => Less(min, v)
    case Le => LessEq(min, v)
    case Gt => Less(v, max)
    case Ge => LessEq(v, max)
  }

  /** Statistics of another type than the scalar, or without both bounds, prove nothing. */
  predicate StatsMight(st: Stats, op: CmpOp, value: Scalar) {
    match (st, value)
    case (BoolStats(Some(mn), Some(mx)), BoolScalar(v)) => BoolMight(op, mn, mx, v)
    case (IntStats(w, Some(mn), Some(mx), n), IntScalar(w', v)) => w == w' ==> IntMight(op, mn, mx, v, n)
    case (FloatStats(w, Some(mn), Some(mx), n), FloatScalar(w', v)) => w == w' ==> FloatMight(w, op, mn, mx, v, n)
    case (BytesStats(Some(mn), Some(mx), n), BytesScalar(v)) => BytesMight(op, mn, mx, v, n)
    case _ => true
  }

  /** A leaf of the file: its own name, its physical kind, and the top-level column it is, unless it
      lies inside a nested one. */
  datatype Leaf = Leaf(name: string, kind: Kind, column: Option<nat>)

  /** The first leaf with the name, at whatever depth. */
  function LeafOf(leaves: seq<Leaf>, name: string): (l: Option<nat>)
    ensures l.Some? ==> l.value < |leaves| && leaves[l.value].name == name
    ensures forall i :: 0 <= i < (if l.Some? then l.value else |leaves|) ==> leaves[i].name != name
    decreases |leaves|
  {
    if leaves == [] then None
    else if leaves[0].name == name then Some(0)
    else match LeafOf(leaves[1..], name)
      case Some(l) => Some(l + 1)
      case None => None
  }

  /** Statistics are kept for each leaf; they may be missing, one by one or from some leaf on. */
  datatype RowGroup = RowGroup(rows: seq<Row>, stats: seq<Option<Stats>>)

  predicate CmpMight(g: RowGroup, leaves: seq<Leaf>, column: string, op: CmpOp, value: Scalar) {
    value.NullScalar? ||
    var l := LeafOf(leaves, column);
    l.None? || l.value >= |g.stats| || g.stats[l.value].None? || StatsMight(g.stats[l.value].value, op, value)
  }

  predicate MightMatch(p: Predicate, g: RowGroup, leaves: seq<Leaf>) {
    match p
    case All => true
    case Nothing => false
    case Not(_) => true
    case And(ps) => forall i :: 0 <= i < |ps| ==> MightMatch(ps[i], g, leaves)
    case Or(ps) => exists i :: 0 <= i < |ps| && MightMatch(ps[i], g, leaves)
    case Cmp(column, op, value) => CmpMight(g, leaves, column, op, value)
  }

  /** A conjunction is ruled out as soon as one part is, a disjunction only when every part is. */
  lemma RuledOutParts(ps: seq<Predicate>, g: RowGroup, leaves: seq<Leaf>)
    ensures !MightMatch(And(ps), g, leaves) <==> exists i :: 0 <= i < |ps| && !MightMatch(ps[i], g, leaves)
    ensures !MightMatch(Or(ps), g, leaves) <==> forall i :: 0 <= i < |ps| ==> !MightMatch(ps[i], g, leaves)
  {
  }

  // ---------------------------------------------------------------------
  // What statistics promise
  // ---------------------------------------------------------------------

  /** The value lies within the bounds; bounds of floats do not speak of NaN. */
  predicate Within(v: Value, st: Stats) {
    match (v, st)
    case (BoolValue(t), BoolStats(Some(mn), Some(mx))) => (mn ==> t) && (t ==> mx)
    case (IntValue(i), IntStats(_, Some(mn), Some(mx), _)) => mn <= i <= mx
    case (FloatValue(Num(r)), FloatStats(_, Some(Num(mn)), Some(Num(mx)), _)) => mn <= r <= mx
    case (BytesValue(b), BytesStats(Some(mn), Some(mx), _)) => LessEq(mn, b) && LessEq(b, mx)
    case _ => true
  }

  /** Statistics come in the physical kind of their leaf. */
  predicate StatsOf(st: Stats, kind: Kind) {
    match st
    case BoolStats(_, _) => kind.BoolKind?
    case IntStats(w, _, _, _) => kind == IntKind(w)
    case FloatStats(w, _, _, _) => kind == FloatKind(w)
    case BytesStats(_, _, _) => kind.Utf8Kind?
    case OtherStats => true
  }

  /** A leaf that is a top-level column bears its name, and its kind unless that is another one. */
  predicate LeavesFit(leaves: seq<Leaf>, schema: Schema) {
    forall l :: 0 <= l < |leaves| && leaves[l].column.Some? ==>
      var c := leaves[l].column.value;
      c < |schema| && leaves[l].name == schema[c].name &&
      (schema[c].kind.OtherKind? || leaves[l].kind == schema[c].kind)
  }

  /** The statistics of a leaf bound the rows of the column it is; the values inside nested columns are
      not part of the rows here, and theirs bound nothing. */
  ghost predicate Honest(g: RowGroup, leaves: seq<Leaf>, schema: Schema) {
    && (forall i :: 0 <= i < |g.rows| ==> WellTyped(g.rows[i], schema))
    && LeavesFit(leaves, schema) && |g.stats| <= |leaves|
    && (forall l :: 0 <= l < |g.stats| && g.stats[l].Some? ==> StatsOf(g.stats[l].value, leaves[l].kind))
    && forall i, l :: 0 <= i < |g.rows| && 0 <= l < |g.stats| && g.stats[l].Some? && leaves[l].column.Some? ==>
         Within(g.rows[i][leaves[l].column.value], g.stats[l].value)
  }

  /** Pruning a float comparison needs two things the statistics do not give: for `Ne` that the bounds
      are the scalar itself and not merely near it, and for `Ne`, `Gt` and `Ge` that no NaN is stored. */
  predicate FloatSafe(v: Value, st: Stats, op: CmpOp, value: Scalar) {
    st.FloatStats? && st.fmin.Some? && st.fmax.Some? && value.FloatScalar? ==>
      && (op.Ne? ==> st.fmin.value == value.f == st.fmax.value)
      && (op.Ne? || op.Gt? || op.Ge? ==> v != FloatValue(NaN))
  }

  lemma IntSound(i: int, op: CmpOp, min: int, max: int, v: int, nulls: Option<nat>)
    requires min <= i <= max && !IntMight(op, min, max, v, nulls)
    ensures !IntHolds(op, i, v)
  {
  }

  /** Integer pruning gives up nothing: the group is kept exactly when some value within the bounds
      would match, or when `Ne` finds only the scalar but nulls may be stored. */
  lemma IntExact(op: CmpOp, min: int, max: int, v: int, nulls: Option<nat>)
    requires min <= max
    ensures IntMight(op, min, max, v, nulls) <==>
            (exists i :: min <= i <= max && IntHolds(op, i, v)) ||
            (op.Ne? && min == v == max && nulls != Some(0))
  {
    if IntMight(op, min, max, v, nulls) {
      var i := match op
        case Eq => v
        case Ne => if min == v then max else min
        case Lt => min
        case Le => min
        case Gt => max
        case Ge => max;
      assert min <= i <= max;
      assert IntHolds(op, i, v) || (op.Ne? && min == v == max);
    } else {
      forall i | min <= i <= max ensures !IntHolds(op, i, v) { IntSound(i, op, min, max, v, nulls); }
    }
  }

  predicate BoolHolds(op: CmpOp, t: bool, v: bool) {
    Holds(op, !t && v, t == v)
  }

  predicate RealHolds(op: CmpOp, r: real, v: real) {
    Holds(op, r < v, r == v)
  }

  /** Boolean pruning gives up nothing either, but for `Ne`, which is always kept. */
  lemma BoolExact(op: CmpOp, min: bool, max: bool, v: bool)
    requires min ==> max
    ensures BoolMight(op, min, max, v) <==>
            op.Ne? || exists t: bool :: (min ==> t) && (t ==> max) && BoolHolds(op, t, v)
  {
    if BoolMight(op, min, max, v) && !op.Ne? {
      var t := match op
        case Eq => v
        case Gt => max
        case Ge => max
        case _ => min;
      assert (min ==> t) && (t ==> max) && BoolHolds(op, t, v);
    }
  }

  /** Byte string pruning keeps a group exactly when some string within the bounds would match, or when `Ne`
      finds only the scalar but nulls may be stored. */
  lemma BytesExact(op: CmpOp, min: Key, max: Key, v: Key, nulls: Option<nat>)
    requires LessEq(min, max)
    ensures BytesMight(op, min, max, v, nulls) <==>
            (exists b :: LessEq(min, b) && LessEq(b, max) && Holds(op, Less(b, v), b == v)) ||
            (op.Ne? && min == v == max && nulls != Some(0))
  {
    if BytesMight(op, min, max, v, nulls) {
      var b := match op
        case Eq => v
        case Ne => if min == v then max else min
        case Gt => max
        case Ge => max
        case _ => min;
      LessTotal(v, max);
      Antisymmetric(v, max);
      Antisymmetric(max, v);
      LessIrreflexive(v);
      assert LessEq(min, b) && LessEq(b, max);
      assert Holds(op, Less(b, v), b == v) || (op.Ne? && min == v == max);
    } else {
      forall b | LessEq(min, b) && LessEq(b, max) ensures !Holds(op, Less(b, v), b == v) {
        BytesSound(b, op, min, max, v, nulls);
      }
    }
  }

  /** Float pruning keeps a group exactly when some number within the bounds would match; `Ne` when a bound is
      at least a machine epsilon away from the scalar or nulls may be stored; and always when NaN is involved. */
  lemma FloatExact(wide: bool, op: CmpOp, min: Float, max: Float, v: Float, nulls: Option<nat>)
    requires min.Num? && max.Num? ==> min.r <= max.r
    ensures min.NaN? || max.NaN? || v.NaN? ==> FloatMight(wide, op, min, max, v, nulls)
    ensures min.Num? && max.Num? && v.Num? && !op.Ne? ==>
              (FloatMight(wide, op, min, max, v, nulls) <==>
               exists r: real :: min.r <= r <= max.r && RealHolds(op, r, v.r))
    ensures min.Num? && max.Num? && v.Num? ==>
              var eps := if wide then 1.0 / 4503599627370496.0 else 1.0 / 8388608.0;
              (FloatMight(wide, Ne, min, max, v, nulls) <==>
               !(v.r - eps < min.r && max.r < v.r + eps && nulls == Some(0)
                 && min.r < v.r + eps && v.r - eps < max.r))
  {
    if min.Num? && max.Num? && v.Num? && !op.Ne? && FloatMight(wide, op, min, max, v, nulls) {
      var r := if op.Eq? then v.r else if op.Gt? || op.Ge? then max.r else min.r;
      assert min.r <= r <= max.r && RealHolds(op, r, v.r);
    }
  }

  lemma BoolSound(t: bool, op: CmpOp, min: bool, max: bool, v: bool)
    requires (min ==> t) && (t ==> max) && !BoolMight(op, min, max, v)
    ensures !BoolHolds(op, t, v)
  {
  }

  lemma FloatSound(wide: bool, f: Float, op: CmpOp, min: Float, max: Float, v: Float, nulls: Option<nat>)
    requires f.Num? && min.Num? && max.Num? ==> min.r <= f.r <= max.r
    requires op.Ne? ==> min == v == max
    requires op.Ne? || op.Gt? || op.Ge? ==> f.Num?
    requires !FloatMight(wide, op, min, max, v, nulls)
    ensures !Holds(op, FloatLess(f, v), f == v)
  {
  }

  lemma BytesSound(b: Key, op: CmpOp, min: Key, max: Key, v: Key, nulls: Option<nat>)
    requires LessEq(min, b) && LessEq(b, max) && !BytesMight(op, min, max, v, nulls)
    ensures !Holds(op, Less(b, v), b == v)
  {
    LessTotal(min, v);
    LessTotal(v, max);
    LessTotal(b, v);
    Chain(min, b, v);
    Chain(v, b, max);
    Chain(b, max, v);
    Chain(v, min, b);
    Antisymmetric(b, v);
    Antisymmetric(b, min);
  }

  lemma Chain(a: Key, b: Key, c: Key)
    ensures LessEq(a, b) && Less(b, c) ==> Less(a, c)
    ensures Less(a, b) && LessEq(b, c) ==> Less(a, c)
  {
    if LessEq(a, b) && Less(b, c) && a != b { LessTransitive(a, b, c); }
    if Less(a, b) && LessEq(b, c) && b != c { LessTransitive(a, b, c); }
  }

  lemma Antisymmetric(a: Key, b: Key)
    ensures !(LessEq(a, b) && Less(b, a))
  {
    LessIrreflexive(a);
    Chain(a, b, a);
  }

  /** A comparison pruned by honest statistics holds of no value within them. */
  lemma LeafSound(v: Value, kind: Kind, st: Stats, op: CmpOp, value: Scalar)
    requires HasKind(v, kind) && Comparable(kind, value) && Within(v, st) && FloatSafe(v, st, op, value)
    requires !StatsMight(st, op, value)
    ensures CompareValue(v, op, value) != Some(true)
  {
    match (st, value)
    case (IntStats(_, Some(mn), Some(mx), n), IntScalar(_, s)) =>
      if v.IntValue? { IntSound(v.i, op, mn, mx, s, n); }
    case (FloatStats(w, Some(mn), Some(mx), n), FloatScalar(_, s)) =>
      if v.FloatValue? { FloatSound(w, v.f, op, mn, mx, s, n); }
    case (BytesStats(Some(mn), Some(mx), n), BytesScalar(s)) =>
      if v.BytesValue? { BytesSound(v.b, op, mn, mx, s, n); }
    case _ =>
  }

  /** The float conditions are exact: over a column whose smallest and largest numbers are the bounds,
      a pruned comparison holds of no stored float if and only if they are met by every one of them. */
  lemma FloatPruneExact(column: seq<Float>, wide: bool, op: CmpOp, min: Float, max: Float, v: Float, nulls: Option<nat>)
    requires min.Num? && max.Num? && min in column && max in column
    requires forall i :: 0 <= i < |column| && column[i].Num? ==> min.r <= column[i].r <= max.r
    requires !FloatMight(wide, op, min, max, v, nulls)
    ensures (forall i :: 0 <= i < |column| ==> !Holds(op, FloatLess(column[i], v), column[i] == v)) <==>
            (op.Ne? ==> min == v == max) && (op.Ne? || op.Gt? || op.Ge? ==> NaN !in column)
  {
    if (op.Ne? ==> min == v == max) && (op.Ne? || op.Gt? || op.Ge? ==> NaN !in column) {
      forall i | 0 <= i < |column| ensures !Holds(op, FloatLess(column[i], v), column[i] == v) {
        FloatSound(wide, column[i], op, min, max, v, nulls);
      }
    } else if op.Ne? && !(min == v == max) {
      var i :| 0 <= i < |column| && column[i] == if min == v then max else min;
      assert Holds(op, FloatLess(column[i], v), column[i] == v);
    } else {
      var i :| 0 <= i < |column| && column[i] == NaN;
      assert Holds(op, FloatLess(column[i], v), column[i] == v);
    }
  }

  // ---------------------------------------------------------------------
  // The leaf consulted
  // ---------------------------------------------------------------------

  /** The physical kind whose statistics can rule the scalar out. */
  predicate ScalarOf(value: Scalar, kind: Kind) {
    match value
    case BoolScalar(_) => kind.BoolKind?
    case IntScalar(w, _) => kind == IntKind(w)
    case FloatScalar(w, _) => kind == FloatKind(w)
    case BytesScalar(_) => kind.Utf8Kind?
    case NullScalar => false
  }

  /** Pruning consults the leaf of the column that rows are compared by, or one that rules nothing out. */
  predicate RightLeaf(column: string, value: Scalar, leaves: seq<Leaf>, schema: Schema) {
    var l := LeafOf(leaves, column);
    l.None? || leaves[l.value].column == ColumnOf(schema, column) || !ScalarOf(value, leaves[l.value].kind)
  }

  predicate RightLeaves(p: Predicate, leaves: seq<Leaf>, schema: Schema) {
    match p
    case Cmp(column, _, value) => RightLeaf(column, value, leaves, schema)
    case And(ps) => forall i :: 0 <= i < |ps| ==> RightLeaves(ps[i], leaves, schema)
    case Or(ps) => forall i :: 0 <= i < |ps| ==> RightLeaves(ps[i], leaves, schema)
    case _ => true
  }

  /** A float comparison ruled out by the statistics of its own column meets the conditions on the row. */
  predicate CmpSafe(g: RowGroup, leaves: seq<Leaf>, schema: Schema, row: Row, column: string, op: CmpOp, value: Scalar)
    requires |row| == |schema|
  {
    var c, l := ColumnOf(schema, column), LeafOf(leaves, column);
    c.Some? && l.Some? && leaves[l.value].column == c && !CmpMight(g, leaves, column, op, value) ==>
      FloatSafe(row[c.value], g.stats[l.value].value, op, value)
  }

  /** Every float comparison of the predicate meets the conditions on the row. */
  predicate RowSafe(p: Predicate, g: RowGroup, leaves: seq<Leaf>, schema: Schema, row: Row)
    requires |row| == |schema|
  {
    match p
    case Cmp(column, op, value) => CmpSafe(g, leaves, schema, row, column, op, value)
    case And(ps) => forall i :: 0 <= i < |ps| ==> RowSafe(ps[i], g, leaves, schema, row)
    case Or(ps) => forall i :: 0 <= i < |ps| ==> RowSafe(ps[i], g, leaves, schema, row)
    case _ => true
  }

  /** Statistics are honest and no float comparison meets one of the two traps. */
  ghost predicate Trusted(p: Predicate, g: RowGroup, leaves: seq<Leaf>, schema: Schema) {
    Honest(g, leaves, schema) && forall i :: 0 <= i < |g.rows| ==> RowSafe(p, g, leaves, schema, g.rows[i])
  }

  lemma CmpSound(g: RowGroup, leaves: seq<Leaf>, schema: Schema, i: nat, column: string, op: CmpOp, value: Scalar)
    requires Honest(g, leaves, schema) && i < |g.rows| && TypeChecks(Cmp(column, op, value), schema)
    requires CmpSafe(g, leaves, schema, g.rows[i], column, op, value) && RightLeaf(column, value, leaves, schema)
    requires !CmpMight(g, leaves, column, op, value)
    ensures Eval(Cmp(column, op, value), schema, g.rows[i]) != Some(true)
  {
    var c, l := ColumnOf(schema, column).value, LeafOf(leaves, column).value;
    var st := g.stats[l].value;
    assert StatsOf(st, leaves[l].kind) && leaves[l].column == Some(c);
    LeafSound(g.rows[i][c], schema[c].kind, st, op, value);
  }

  /** Pruning is sound: when the statistics rule a row group out, none of its rows satisfies the predicate. */
  lemma {:induction false} PruneSound(p: Predicate, g: RowGroup, leaves: seq<Leaf>, schema: Schema, i: nat)
    requires Honest(g, leaves, schema) && i < |g.rows| && TypeChecks(p, schema)
    requires RowSafe(p, g, leaves, schema, g.rows[i]) && RightLeaves(p, leaves, schema)
    requires !MightMatch(p, g, leaves)
    ensures Eval(p, schema, g.rows[i]) != Some(true)
  {
    var row := g.rows[i];
    match p
    case Cmp(column, op, value) => CmpSound(g, leaves, schema, i, column, op, value);
    case And(ps) =>
      var j :| 0 <= j < |ps| && !MightMatch(ps[j], g, leaves);
      PruneSound(ps[j], g, leaves, schema, i);
      AllOfTrue(EvalEach(ps, schema, row));
    case Or(ps) =>
      forall j | 0 <= j < |ps| ensures Eval(ps[j], schema, row) != Some(true) {
        PruneSound(ps[j], g, leaves, schema, i);
      }
      AnyOfTrue(EvalEach(ps, schema, row));
    case _ =>
  }

  // ---------------------------------------------------------------------
  // The condition on the leaf is exact
  // ---------------------------------------------------------------------

  /** No trusted row group that the comparison rules out holds a row it is true of. */
  ghost predicate PrunesSoundly(p: Predicate, leaves: seq<Leaf>, schema: Schema) {
    forall g: RowGroup :: Trusted(p, g, leaves, schema) && !MightMatch(p, g, leaves) ==> NoneMatch(p, g, schema)
  }

  predicate NoneMatch(p: Predicate, g: RowGroup, schema: Schema) {
    forall i :: 0 <= i < |g.rows| ==> Eval(p, schema, g.rows[i]) != Some(true)
  }

  lemma RightLeavesSound(p: Predicate, leaves: seq<Leaf>, schema: Schema)
    requires TypeChecks(p, schema) && RightLeaves(p, leaves, schema)
    ensures PrunesSoundly(p, leaves, schema)
  {
    forall g: RowGroup | Trusted(p, g, leaves, schema) && !MightMatch(p, g, leaves)
      ensures NoneMatch(p, g, schema)
    {
      forall i | 0 <= i < |g.rows| ensures Eval(p, schema, g.rows[i]) != Some(true) {
        PruneSound(p, g, leaves, schema, i);
      }
    }
  }

  /** Some value meets the comparison and some bounds rule it out. No text is below the empty one and
      none fails to reach it, and NaN is never ruled out. */
  predicate CanMislead(op: CmpOp, value: Scalar) {
    match value
    case IntScalar(_, _) => true
    case FloatScalar(_, f) => f.Num?
    case BytesScalar(b) => b == [] ==> !op.Lt? && !op.Ge?
    case _ => false
  }

  function Above(b: Key): (r: Key)
    ensures Less(b, r) && b != r
  {
    AboveIsLess(b);
    b + [0]
  }

  lemma {:induction false} AboveIsLess(b: Key)
    ensures Less(b, b + [0])
  {
    if b != [] {
      AboveIsLess(b[1..]);
      assert (b + [0])[1..] == b[1..] + [0];
    }
  }

  /** A value the comparison is true of. */
  function Meeting(op: CmpOp, value: Scalar): Value
    requires CanMislead(op, value)
  {
    match value
    case IntScalar(_, v) => IntValue(match op case Lt => v - 1 case Ne => v + 1 case Gt => v + 1 case _ => v)
    case FloatScalar(_, Num(r)) =>
      FloatValue(Num(match op case Lt => r - 1.0 case Ne => r + 1.0 case Gt => r + 1.0 case _ => r))
    case BytesScalar(b) => BytesValue(match op case Lt => [] case Ne => Above(b) case Gt => Above(b) case _ => b)
  }

  /** Bounds that rule the comparison out. */
  function RulingOut(op: CmpOp, value: Scalar): Stats
    requires CanMislead(op, value)
  {
    match value
    case IntScalar(w, v) =>
      var b := match op case Eq => v + 1 case Le => v + 1 case Ge => v - 1 case _ => v;
      IntStats(w, Some(b), Some(b), Some(0))
    case FloatScalar(w, Num(r)) =>
      var b := Num(match op case Eq => r + 1.0 case Le => r + 1.0 case Ge => r - 1.0 case _ => r);
      FloatStats(w, Some(b), Some(b), Some(0))
    case BytesScalar(v) =>
      var b := match op case Eq => Above(v) case Le => Above(v) case Ge => [] case _ => v;
      BytesStats(Some(b), Some(b), Some(0))
  }

  lemma Misled(op: CmpOp, value: Scalar)
    requires CanMislead(op, value)
    ensures CompareValue(Meeting(op, value), op, value) == Some(true)
    ensures !StatsMight(RulingOut(op, value), op, value)
  {
    if value.BytesScalar? {
      var b := value.b;
      LessIrreflexive(b);
      Antisymmetric(b, Above(b));
      Antisymmetric(Above(b), b);
      Antisymmetric([], b);
      LessTotal(b, []);
    }
  }

  lemma MisledKinds(op: CmpOp, value: Scalar, kind: Kind)
    requires CanMislead(op, value)
    ensures Comparable(kind, value) ==> HasKind(Meeting(op, value), kind)
    ensures ScalarOf(value, kind) ==> StatsOf(RulingOut(op, value), kind)
  {
  }

  /** One row with one value, and statistics for one leaf. */
  function Lone(v: Value, st: Stats, c: nat, l: nat, schema: Schema): RowGroup
    requires c < |schema|
  {
    RowGroup([seq(|schema|, i => if i == c then v else NullValue)], seq(l + 1, j => if j == l then Some(st) else None))
  }

  lemma LoneIsHonest(v: Value, st: Stats, c: nat, l: nat, leaves: seq<Leaf>, schema: Schema)
    requires LeavesFit(leaves, schema) && c < |schema| && l < |leaves| && leaves[l].column != Some(c)
    requires HasKind(v, schema[c].kind) && StatsOf(st, leaves[l].kind)
    ensures Honest(Lone(v, st, c, l, schema), leaves, schema)
  {
  }

  lemma MisleadingIsTrusted(column: string, op: CmpOp, value: Scalar, leaves: seq<Leaf>, schema: Schema)
    requires LeavesFit(leaves, schema) && TypeChecks(Cmp(column, op, value), schema) && CanMislead(op, value)
    requires !RightLeaf(column, value, leaves, schema)
    ensures var p, c, l := Cmp(column, op, value), ColumnOf(schema, column).value, LeafOf(leaves, column).value;
            var g := Lone(Meeting(op, value), RulingOut(op, value), c, l, schema);
            Trusted(p, g, leaves, schema) && !MightMatch(p, g, leaves) && !NoneMatch(p, g, schema)
  {
    hide Meeting, RulingOut, HasKind, StatsOf, LeavesFit, Honest, ColumnOf, LeafOf, StatsMight, CompareValue, FloatSafe;
    var c, l := ColumnOf(schema, column).value, LeafOf(leaves, column).value;
    var v, st := Meeting(op, value), RulingOut(op, value);
    Misled(op, value);
    MisledKinds(op, value, schema[c].kind);
    MisledKinds(op, value, leaves[l].kind);
    LoneIsHonest(v, st, c, l, leaves, schema);
    var g := Lone(v, st, c, l, schema);
    assert Eval(Cmp(column, op, value), schema, g.rows[0]) == Some(true);
  }

  /** Exactly when a comparison prunes soundly: the first leaf with the name of the column is the column
      itself, or there is none, or it is of another physical kind than the scalar, or the comparison
      cannot mislead. */
  lemma CmpSoundIff(column: string, op: CmpOp, value: Scalar, leaves: seq<Leaf>, schema: Schema)
    requires LeavesFit(leaves, schema) && TypeChecks(Cmp(column, op, value), schema)
    ensures PrunesSoundly(Cmp(column, op, value), leaves, schema) <==>
            RightLeaf(column, value, leaves, schema) || !CanMislead(op, value)
  {
    var p := Cmp(column, op, value);
    if RightLeaf(column, value, leaves, schema) {
      RightLeavesSound(p, leaves, schema);
    } else if CanMislead(op, value) {
      MisleadingIsTrusted(column, op, value, leaves, schema);
    } else {
      forall g: RowGroup | Trusted(p, g, leaves, schema) && !MightMatch(p, g, leaves)
        ensures NoneMatch(p, g, schema)
      {
        NeverMisled(g, leaves, schema, column, op, value);
      }
    }
  }

  lemma NeverMisled(g: RowGroup, leaves: seq<Leaf>, schema: Schema, column: string, op: CmpOp, value: Scalar)
    requires TypeChecks(Cmp(column, op, value), schema) && !CanMislead(op, value)
    requires !CmpMight(g, leaves, column, op, value)
    ensures NoneMatch(Cmp(column, op, value), g, schema)
  {
  }

  /** The column can be compared, and the first leaf with its name is another one of its physical kind. */
  predicate Shadowed(c: nat, leaves: seq<Leaf>, schema: Schema)
    requires c < |schema|
  {
    var l := LeafOf(leaves, schema[c].name);
    && !schema[c].kind.OtherKind? && !schema[c].kind.BoolKind? && ColumnOf(schema, schema[c].name) == Some(c)
    && l.Some? && leaves[l.value].column != Some(c) && leaves[l.value].kind == schema[c].kind
  }

  /** No column is shadowed. */
  predicate SchemaSafe(leaves: seq<Leaf>, schema: Schema) {
    forall c :: 0 <= c < |schema| ==> !Shadowed(c, leaves, schema)
  }

  function ScalarFor(kind: Kind): Scalar
    requires !kind.OtherKind? && !kind.BoolKind?
  {
    match kind
    case IntKind(w) => IntScalar(w, 0)
    case FloatKind(w) => FloatScalar(w, Num(0.0))
    case Utf8Kind => BytesScalar([])
  }

  lemma {:induction false} SchemaSafeRight(p: Predicate, leaves: seq<Leaf>, schema: Schema)
    requires SchemaSafe(leaves, schema) && TypeChecks(p, schema)
    ensures RightLeaves(p, leaves, schema)
  {
    match p
    case Cmp(column, _, _) => assert !Shadowed(ColumnOf(schema, column).value, leaves, schema);
    case And(ps) =>
      forall i | 0 <= i < |ps| ensures RightLeaves(ps[i], leaves, schema) { SchemaSafeRight(ps[i], leaves, schema); }
    case Or(ps) =>
      forall i | 0 <= i < |ps| ensures RightLeaves(ps[i], leaves, schema) { SchemaSafeRight(ps[i], leaves, schema); }
    case _ =>
  }

  /** A file prunes soundly for every predicate that fits its schema exactly when no comparable column is
      shadowed by an earlier leaf. */
  lemma SchemaPrunesIff(leaves: seq<Leaf>, schema: Schema)
    requires LeavesFit(leaves, schema)
    ensures (forall p :: TypeChecks(p, schema) ==> PrunesSoundly(p, leaves, schema)) <==> SchemaSafe(leaves, schema)
  {
    if SchemaSafe(leaves, schema) {
      forall p | TypeChecks(p, schema) ensures PrunesSoundly(p, leaves, schema) {
        SchemaSafeRight(p, leaves, schema);
        RightLeavesSound(p, leaves, schema);
      }
    } else {
      var c :| 0 <= c < |schema| && Shadowed(c, leaves, schema);
      var value := ScalarFor(schema[c].kind);
      var p := Cmp(schema[c].name, Eq, value);
      assert ValidUtf8([]);
      assert TypeChecks(p, schema);
      CmpSoundIff(schema[c].name, Eq, value, leaves, schema);
      assert !PrunesSoundly(p, leaves, schema);
    }
  }
}
