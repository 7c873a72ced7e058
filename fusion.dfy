/**
 * `fuse_datasets` and its helpers: overlap and target inference, categorical alignment of
 * the overlap features, the two per-target enrichment loops and the fused table.
 */
module Fusion {
  import opened Wrappers
  import opened Seqs
  import opened Ordering
  import opened Frame
  import opened Modeling

  datatype FusionResult = FusionResult(
    fused: Table,
    aEnriched: Table,
    bEnriched: Table,
    modelsAToB: map<string, TrainedModel>,
    modelsBToA: map<string, TrainedModel>)

  datatype FusionError =
    | MissingColumn(name: string)            // KeyError: an explicit target is not a column
    | UnorderableCategories(column: string)  // TypeError: `sorted` over numbers mixed with strings
    | PredictionFailed(target: string, cause: PredictError)
    | LengthMismatch(target: string)         // ValueError: predictions of the wrong length

  /** The elements of an optional name list as a set (`set(xs or [])`). */
  function NameSet(xs: Option<seq<string>>): set<string>
  {
    if xs.Some? then set x | x in xs.value else {}
  }

  /**
   * `_infer_overlap_features`: the sorted names that are columns of both tables and are not
   * excluded (a strictly sorted list is determined by its elements, see `SortedIsUnique`).
   */
  function InferOverlapFeatures(a: Table, b: Table, exclude: set<string>): (r: seq<string>)
    ensures StrictlySorted(r, StrLess)
    ensures forall c :: c in r <==> c in a.columns && c in b.columns && c !in exclude
  {
    StrLessIsStrictTotalOrder();
    SortedUnique(Filter(a.columns, c => c in b.columns && c !in exclude), StrLess)
  }

  /** `_exclusive_columns`: the sorted names of the columns of `left` that `right` lacks. */
  function ExclusiveColumns(left: Table, right: Table): (r: seq<string>)
    ensures StrictlySorted(r, StrLess) && Distinct(r)
    ensures forall c :: c in r <==> c in left.columns && c !in right.columns
  {
    StrLessIsStrictTotalOrder();
    var r := SortedUnique(Filter(left.columns, c => c !in right.columns), StrLess);
    assert Distinct(r) by {
      forall i, j | 0 <= i < j < |r| ensures r[i] != r[j] {
        assert StrLess(r[i], r[j]);
        if r[i] == r[j] { StrLessIrreflexive(r[i]); }
      }
    }
    r
  }

  /**
   * An explicit overlap list restricted to names that are columns of both tables: the
   * caller's order is kept and so is every repetition of a kept name.
   */
  function FilterOverlap(overlap: seq<string>, a: Table, b: Table): (r: seq<string>)
    ensures IsSubsequence(r, overlap)
    ensures forall c :: c in r <==> c in overlap && c in a.columns && c in b.columns
    ensures forall c :: c in a.columns && c in b.columns ==> multiset(r)[c] == multiset(overlap)[c]
  {
    var r := Filter(overlap, c => c in a.columns && c in b.columns);
    FilterCount(overlap, c => c in a.columns && c in b.columns);
    r
  }

  /** Filtering keeps every occurrence of an element it keeps. */
  lemma {:induction false} FilterCount(s: seq<string>, p: string -> bool)
    ensures forall x :: p(x) ==> multiset(Filter(s, p))[x] == multiset(s)[x]
  {
    if s != [] {
      FilterCount(s[1..], p);
      assert s == [s[0]] + s[1..];
      assert multiset(s) == multiset{s[0]} + multiset(s[1..]);
      if p(s[0]) {
        assert multiset(Filter(s, p)) == multiset{s[0]} + multiset(Filter(s[1..], p));
      }
    }
  }

  /** The overlap `fuse_datasets` works with: the explicit list filtered, or inferred. */
  function ResolveOverlap(a: Table, b: Table, overlap: Option<seq<string>>,
                          targetsFromA: Option<seq<string>>, targetsFromB: Option<seq<string>>): (r: seq<string>)
    ensures forall c :: c in r ==> c in a.columns && c in b.columns
    ensures overlap.None? ==> forall c :: c in r ==> c !in NameSet(targetsFromA) && c !in NameSet(targetsFromB)
  {
    if overlap.Some? then FilterOverlap(overlap.value, a, b)
    else InferOverlapFeatures(a, b, NameSet(targetsFromA) + NameSet(targetsFromB))
  }

  /** The targets taken from `source`: the explicit list, or the columns `other` lacks. */
  function ResolveTargets(source: Table, other: Table, targets: Option<seq<string>>): seq<string>
  {
    if targets.Some? then targets.value else ExclusiveColumns(source, other)
  }

  /** Every name in `names` is a column of `t`. */
  predicate AllIn(names: seq<string>, t: Table)
  {
    forall n :: n in names ==> n in t.columns
  }

  /** The default targets are new to the other table and distinct, so they keep their names. */
  lemma DefaultTargetNames(source: Table, other: Table)
    ensures EnrichedNames(other.columns, ExclusiveColumns(source, other))
      == other.columns + ExclusiveColumns(source, other)
  {
    BareNames(other.columns, ExclusiveColumns(source, other));
  }

  // ---------------------------------------------------------------------------------------
  // Categorical alignment

  /** Both numbers and strings occur: Python's `sorted` then raises TypeError. */
  predicate MixedKinds(vs: seq<Value>)
  {
    (exists v :: v in vs && v.Num?) && (exists v :: v in vs && v.Str?)
  }

  /** `astype(CategoricalDtype(categories=cats))`: a value outside `cats` becomes missing. */
  function Recode(col: Column, cats: seq<Value>): (r: Column)
    ensures r.dtype == CategoricalT(cats) && |r.cells| == |col.cells|
  {
    Column(CategoricalT(cats),
           seq(|col.cells|, i requires 0 <= i < |col.cells| =>
             if col.cells[i].Some? && col.cells[i].value in cats then col.cells[i] else None))
  }

  /** Recoding to levels that contain every present value changes no cell. */
  lemma RecodeKeepsCells(col: Column, cats: seq<Value>)
    requires forall v :: Some(v) in col.cells ==> v in cats
    ensures Recode(col, cats).cells == col.cells
  {
    var r := Recode(col, cats);
    forall i | 0 <= i < |col.cells| ensures r.cells[i] == col.cells[i] {
      if col.cells[i].Some? { assert Some(col.cells[i].value) in col.cells; }
    }
  }

  /**
   * One iteration of `_coerce_categorical_alignment`. When either side is object or
   * categorical, both sides become categorical over the same levels: the sorted distinct
   * present values of both sides together. No cell changes, so no present value becomes
   * missing. Numeric pairs are returned unchanged.
   */
  function AlignColumn(ca: Column, cb: Column): (r: Result<(Column, Column), ()>)
    ensures r.Ok? ==> r.value.0.cells == ca.cells && r.value.1.cells == cb.cells
    ensures !IsObjectOrCategorical(ca.dtype) && !IsObjectOrCategorical(cb.dtype) ==> r == Ok((ca, cb))
    ensures IsObjectOrCategorical(ca.dtype) || IsObjectOrCategorical(cb.dtype) ==>
      && (r.Err? <==> MixedKinds(NonMissing(ca.cells + cb.cells)))
      && (r.Ok? ==>
            && r.value.0.dtype.CategoricalT?
            && r.value.1.dtype == r.value.0.dtype
            && StrictlySorted(r.value.0.dtype.categories, ValueLess)
            && forall v :: v in r.value.0.dtype.categories <==> Some(v) in ca.cells || Some(v) in cb.cells)
  {
    if IsObjectOrCategorical(ca.dtype) || IsObjectOrCategorical(cb.dtype) then
      var present := NonMissing(ca.cells + cb.cells);
      if MixedKinds(present) then Err(())
      else
        ValueLessIsStrictTotalOrder();
        var cats := SortedUnique(present, ValueLess);
        assert forall v :: Some(v) in ca.cells + cb.cells <==> Some(v) in ca.cells || Some(v) in cb.cells;
        RecodeKeepsCells(ca, cats);
        RecodeKeepsCells(cb, cats);
        Ok((Recode(ca, cats), Recode(cb, cats)))
    else Ok((ca, cb))
  }

  /** Aligning an aligned pair again changes nothing. */
  lemma AlignColumnIdempotent(ca: Column, cb: Column)
    requires AlignColumn(ca, cb).Ok?
    ensures AlignColumn(AlignColumn(ca, cb).value.0, AlignColumn(ca, cb).value.1) == AlignColumn(ca, cb)
  {
  }

  /**
   * The name occurs exactly once in the list. A repeated name selects several columns at
   * once, which pandas' dtype tests report as neither object nor categorical, so the loop
   * leaves such a name alone.
   */
  predicate Single(columns: seq<string>, c: string)
  {
    multiset(columns)[c] == 1
  }

  /** Every overlap column the loop aligns (the names listed once) can be aligned. */
  ghost predicate AlignmentOk(a: Table, b: Table, columns: seq<string>)
    requires Valid(a) && Valid(b)
    requires forall c :: c in columns ==> c in a.columns && c in b.columns
  {
    forall c :: c in columns && Single(columns, c) ==> AlignColumn(a.data[c], b.data[c]).Ok?
  }

  /**
   * The tables `_coerce_categorical_alignment` returns: every name listed once replaced by
   * its aligned column, every other column as it was.
   */
  function AlignedTables(a: Table, b: Table, columns: seq<string>): (r: (Table, Table))
    requires Valid(a) && Valid(b)
    requires forall c :: c in columns ==> c in a.columns && c in b.columns
    requires AlignmentOk(a, b, columns)
    ensures Valid(r.0) && Valid(r.1)
    ensures r.0.columns == a.columns && r.1.columns == b.columns && r.0.rows == a.rows && r.1.rows == b.rows
  {
    (Table(a.columns,
           map c | c in a.data :: if c in columns && Single(columns, c) then AlignColumn(a.data[c], b.data[c]).value.0 else a.data[c],
           a.rows),
     Table(b.columns,
           map c | c in b.data :: if c in columns && Single(columns, c) then AlignColumn(a.data[c], b.data[c]).value.1 else b.data[c],
           b.rows))
  }

  /**
   * `a2` and `b2` are `a` and `b` with the names in `done` that `columns` lists once aligned,
   * and every other column as it was.
   */
  ghost predicate AlignedUpTo(a: Table, b: Table, a2: Table, b2: Table, columns: seq<string>, done: seq<string>)
  {
    && Valid(a) && Valid(b) && Valid(a2) && Valid(b2)
    && a2.columns == a.columns && b2.columns == b.columns
    && a2.rows == a.rows && b2.rows == b.rows
    && (forall c :: c in done && Single(columns, c) ==>
          && c in a.data && c in b.data
          && AlignColumn(a.data[c], b.data[c]).Ok?
          && (a2.data[c], b2.data[c]) == AlignColumn(a.data[c], b.data[c]).value)
    && (forall c :: c in a.data && !(c in done && Single(columns, c)) ==> a2.data[c] == a.data[c])
    && (forall c :: c in b.data && !(c in done && Single(columns, c)) ==> b2.data[c] == b.data[c])
  }

  /** A name listed once is not met before its position. */
  lemma SingleNotBefore(columns: seq<string>, i: nat)
    requires i < |columns| && Single(columns, columns[i])
    ensures columns[i] !in columns[..i]
  {
    assert columns == columns[..i] + columns[i..];
    assert columns[i..][0] == columns[i];
    assert multiset(columns) == multiset(columns[..i]) + multiset(columns[i..]);
  }

  /** Aligning a name listed once, not met before, extends `AlignedUpTo` by that name. */
  lemma AlignAdvance(a: Table, b: Table, a2: Table, b2: Table, columns: seq<string>, done: seq<string>, c: string)
    requires AlignedUpTo(a, b, a2, b2, columns, done)
    requires c in a.data && c in b.data && Single(columns, c) && c !in done
    requires AlignColumn(a2.data[c], b2.data[c]).Ok?
    ensures var s := AlignColumn(a2.data[c], b2.data[c]).value;
      AlignedUpTo(a, b, SetColumn(a2, c, s.0), SetColumn(b2, c, s.1), columns, done + [c])
  {
    var s := AlignColumn(a2.data[c], b2.data[c]).value;
    var a3, b3 := SetColumn(a2, c, s.0), SetColumn(b2, c, s.1);
    forall x | x in done + [c] && Single(columns, x)
      ensures && x in a.data && x in b.data
              && AlignColumn(a.data[x], b.data[x]).Ok?
              && (a3.data[x], b3.data[x]) == AlignColumn(a.data[x], b.data[x]).value
    {
      if x != c {
        assert x in done;
      }
    }
  }

  /** Passing over a repeated name extends `AlignedUpTo` without changing anything. */
  lemma AlignSkip(a: Table, b: Table, a2: Table, b2: Table, columns: seq<string>, done: seq<string>, c: string)
    requires AlignedUpTo(a, b, a2, b2, columns, done)
    requires !Single(columns, c)
    ensures AlignedUpTo(a, b, a2, b2, columns, done + [c])
  {
    assert forall x :: x in done + [c] && Single(columns, x) ==> x in done;
  }

  /** Once every name has been passed, the copies are `AlignedTables`. */
  lemma AlignedAll(a: Table, b: Table, a2: Table, b2: Table, columns: seq<string>)
    requires AlignedUpTo(a, b, a2, b2, columns, columns)
    requires forall c :: c in columns ==> c in a.columns && c in b.columns
    requires AlignmentOk(a, b, columns)
    ensures (a2, b2) == AlignedTables(a, b, columns)
  {
    AlignedLeft(a, b, a2, b2, columns);
    AlignedRight(a, b, a2, b2, columns);
  }

  lemma AlignedLeft(a: Table, b: Table, a2: Table, b2: Table, columns: seq<string>)
    requires AlignedUpTo(a, b, a2, b2, columns, columns)
    requires forall c :: c in columns ==> c in a.columns && c in b.columns
    requires AlignmentOk(a, b, columns)
    ensures a2 == AlignedTables(a, b, columns).0
  {
    var e := AlignedTables(a, b, columns).0;
    forall c | c in a2.data ensures c in e.data && a2.data[c] == e.data[c] {
      assert c in a.columns;
    }
    assert a2.data == e.data;
  }

  lemma AlignedRight(a: Table, b: Table, a2: Table, b2: Table, columns: seq<string>)
    requires AlignedUpTo(a, b, a2, b2, columns, columns)
    requires forall c :: c in columns ==> c in a.columns && c in b.columns
    requires AlignmentOk(a, b, columns)
    ensures b2 == AlignedTables(a, b, columns).1
  {
    var e := AlignedTables(a, b, columns).1;
    forall c | c in b2.data ensures c in e.data && b2.data[c] == e.data[c] {
      assert c in b.columns;
    }
    assert b2.data == e.data;
  }

  /**
   * `_coerce_categorical_alignment`: copies of both tables in which every column the list
   * names once has been aligned; repeated names, the other columns, the column order and the
   * row counts are unchanged. It fails exactly when a name listed once cannot be aligned.
   */
  method CoerceCategoricalAlignment(a: Table, b: Table, columns: seq<string>)
    returns (r: Result<(Table, Table), FusionError>)
    requires Valid(a) && Valid(b)
    requires forall c :: c in columns ==> c in a.columns && c in b.columns
    ensures r.Ok? <==> AlignmentOk(a, b, columns)
    ensures r.Ok? ==> r.value == AlignedTables(a, b, columns)
    ensures r.Ok? ==>
      && (forall c :: c in columns && Single(columns, c) ==>
            (r.value.0.data[c], r.value.1.data[c]) == AlignColumn(a.data[c], b.data[c]).value)
      && (forall c :: c in a.data && !(c in columns && Single(columns, c)) ==> r.value.0.data[c] == a.data[c])
      && (forall c :: c in b.data && !(c in columns && Single(columns, c)) ==> r.value.1.data[c] == b.data[c])
  {
    var aAligned, bAligned := a, b;
    var i := 0;
    while i < |columns|
      invariant 0 <= i <= |columns|
      invariant AlignedUpTo(a, b, aAligned, bAligned, columns, columns[..i])
    {
      var c := columns[i];
      assert c in columns;
      PrefixSnoc(columns, i);
      if multiset(columns)[c] != 1 {
        AlignSkip(a, b, aAligned, bAligned, columns, columns[..i], c);
      } else {
        SingleNotBefore(columns, i);
        var step := AlignColumn(aAligned.data[c], bAligned.data[c]);
        if step.Err? {
          return Err(UnorderableCategories(c));
        }
        AlignAdvance(a, b, aAligned, bAligned, columns, columns[..i], c);
        aAligned := SetColumn(aAligned, c, step.value.0);
        bAligned := SetColumn(bAligned, c, step.value.1);
      }
      i := i + 1;
    }
    assert columns[..i] == columns;
    AlignedAll(a, b, aAligned, bAligned, columns);
    r := Ok((aAligned, bAligned));
  }

  // ---------------------------------------------------------------------------------------
  // Enrichment

  /** What one direction of the enrichment works with. */
  datatype Direction = Direction(
    source: Table,              // the table the targets are read from
    sourceFeatures: Table,      // its aligned overlap features, the training input
    destFeatures: Table,        // the other table's aligned overlap features, the prediction input
    problemTypes: map<string, ProblemType>,
    seed: int,
    preferPycaret: bool,
    pycaretAvailable: bool,
    learner: Learner)

  ghost predicate DirectionValid(d: Direction)
  {
    Valid(d.source) && Valid(d.sourceFeatures) && Valid(d.destFeatures)
    && d.sourceFeatures.rows == d.source.rows
  }

  /** The problem type of a target: the caller's choice, else the detected one. */
  function ProblemFor(d: Direction, target: string): ProblemType
    requires DirectionValid(d) && target in d.source.columns
  {
    if target in d.problemTypes then d.problemTypes[target] else DetectProblemType(d.source.data[target])
  }

  /** The model `fuse_datasets` trains for `target` in direction `d`. */
  function TargetModel(d: Direction, target: string): (m: TrainedModel)
    requires DirectionValid(d) && target in d.source.columns
    ensures m.features == d.sourceFeatures.columns && m.target == target
    ensures m.problemType == ProblemFor(d, target)
  {
    TrainModel(d.sourceFeatures, d.source.data[target], target, Some(ProblemFor(d, target)),
               d.seed, d.preferPycaret, d.pycaretAvailable, d.learner)
  }

  /** The name a target's predictions are stored under: `<target>_pred` when taken. */
  function PredColumnName(target: string, columns: seq<string>): (name: string)
    ensures target !in columns ==> name == target
    ensures target in columns ==> name == target + "_pred"
  {
    if target !in columns then target else target + "_pred"
  }

  /** The column list after storing a column under `name` (replace, or append). */
  function AddName(columns: seq<string>, name: string): seq<string>
  {
    if name in columns then columns else columns + [name]
  }

  /**
   * One iteration of an enrichment loop: read the target (KeyError when absent), train on
   * the source features, record the model, predict on the destination features and store
   * the prediction array under the bare target name or `<target>_pred`; an array whose
   * length differs from the table's row count is rejected (ValueError).
   */
  function EnrichStep(d: Direction, dst: Table, models: map<string, TrainedModel>, target: string)
    : (r: Result<(Table, map<string, TrainedModel>), FusionError>)
    requires DirectionValid(d) && Valid(dst)
    ensures r.Ok? ==> Valid(r.value.0) && r.value.0.rows == dst.rows
  {
    if target !in d.source.columns then Err(MissingColumn(target))
    else
      var model := TargetModel(d, target);
      match Predict(model, d.destFeatures, d.learner)
      case Err(e) => Err(PredictionFailed(target, e))
      case Ok(preds) =>
        if |preds.cells| != dst.rows then Err(LengthMismatch(target))
        else
          var name := PredColumnName(target, dst.columns);
          Ok((SetColumn(dst, name, preds), models[target := model]))
  }

  /**
   * The outcomes of one step: a missing target is a KeyError, a prediction of the wrong
   * length a ValueError; a success stores the prediction of the target's model under its
   * name, leaves every other column alone and records the model.
   */
  lemma StepOutcome(d: Direction, dst: Table, models: map<string, TrainedModel>, target: string)
    requires DirectionValid(d) && Valid(dst)
    ensures var r := EnrichStep(d, dst, models, target);
      && (target !in d.source.columns ==> r == Err(MissingColumn(target)))
      && (target in d.source.columns && Predict(TargetModel(d, target), d.destFeatures, d.learner).Ok?
            && |Predict(TargetModel(d, target), d.destFeatures, d.learner).value.cells| != dst.rows
          ==> r == Err(LengthMismatch(target)))
      && (r.Ok? ==>
            && target in d.source.columns
            && var name := PredColumnName(target, dst.columns);
            && r.value.0.columns == AddName(dst.columns, name)
            && Predict(TargetModel(d, target), d.destFeatures, d.learner).Ok?
            && r.value.0.data[name] == Predict(TargetModel(d, target), d.destFeatures, d.learner).value
            && (forall c :: c in dst.data && c != name ==> r.value.0.data[c] == dst.data[c])
            && r.value.1 == models[target := TargetModel(d, target)])
  {
  }

  /** The column list after enriching with `targets`, one `AddName` per target. */
  function EnrichedNames(columns: seq<string>, targets: seq<string>): seq<string>
    decreases |targets|
  {
    if targets == [] then columns
    else EnrichedNames(AddName(columns, PredColumnName(targets[0], columns)), targets[1..])
  }

  /** The name each target's predictions are stored under, in the order of the targets. */
  function PredNames(columns: seq<string>, targets: seq<string>): (r: seq<string>)
    ensures |r| == |targets|
    decreases |targets|
  {
    if targets == [] then []
    else
      var name := PredColumnName(targets[0], columns);
      [name] + PredNames(AddName(columns, name), targets[1..])
  }

  /** The enrichment loop as a left fold over the targets; the table keeps its rows. */
  function EnrichSpec(d: Direction, dst: Table, models: map<string, TrainedModel>, targets: seq<string>)
    : (r: Result<(Table, map<string, TrainedModel>), FusionError>)
    requires DirectionValid(d) && Valid(dst)
    ensures r.Ok? ==> Valid(r.value.0) && r.value.0.rows == dst.rows
    decreases |targets|
  {
    if targets == [] then Ok((dst, models))
    else
      match EnrichStep(d, dst, models, targets[0])
      case Err(e) => Err(e)
      case Ok(step) => EnrichSpec(d, step.0, step.1, targets[1..])
  }

  /**
   * A successful enrichment gives the table the columns `EnrichedNames` describes and
   * records one model per distinct target, the one `TargetModel` trains.
   */
  lemma EnrichShape(d: Direction, dst: Table, models: map<string, TrainedModel>, targets: seq<string>)
    requires DirectionValid(d) && Valid(dst)
    requires EnrichSpec(d, dst, models, targets).Ok?
    ensures var t, m := EnrichSpec(d, dst, models, targets).value.0, EnrichSpec(d, dst, models, targets).value.1;
      && t.columns == EnrichedNames(dst.columns, targets)
      && (forall x :: x in m <==> x in models || x in targets)
      && (forall x :: x in targets ==> x in d.source.columns && m[x] == TargetModel(d, x))
      && (forall x :: x in models && x !in targets ==> m[x] == models[x])
  {
    EnrichColumns(d, dst, models, targets);
    EnrichModels(d, dst, models, targets);
  }

  lemma {:induction false} EnrichColumns(d: Direction, dst: Table, models: map<string, TrainedModel>, targets: seq<string>)
    requires DirectionValid(d) && Valid(dst)
    requires EnrichSpec(d, dst, models, targets).Ok?
    ensures EnrichSpec(d, dst, models, targets).value.0.columns == EnrichedNames(dst.columns, targets)
    decreases |targets|
  {
    if targets != [] {
      var step := EnrichStep(d, dst, models, targets[0]);
      assert step.Ok?;
      var t, m := step.value.0, step.value.1;
      assert EnrichSpec(d, dst, models, targets) == EnrichSpec(d, t, m, targets[1..]);
      assert t.columns == AddName(dst.columns, PredColumnName(targets[0], dst.columns));
      EnrichColumns(d, t, m, targets[1..]);
    }
  }

  lemma EnrichModels(d: Direction, dst: Table, models: map<string, TrainedModel>, targets: seq<string>)
    requires DirectionValid(d) && Valid(dst)
    requires EnrichSpec(d, dst, models, targets).Ok?
    ensures var m := EnrichSpec(d, dst, models, targets).value.1;
      && (forall x :: x in m <==> x in models || x in targets)
      && (forall x :: x in targets ==> x in d.source.columns && m[x] == TargetModel(d, x))
      && (forall x :: x in models && x !in targets ==> m[x] == models[x])
  {
    EnrichTargetsPresent(d, dst, models, targets);
    EnrichModelsFold(d, dst, models, targets);
    ModelsForContents(d, models, targets);
  }

  /** The models an enrichment records, the same fold with the tables left out. */
  function ModelsFor(d: Direction, models: map<string, TrainedModel>, targets: seq<string>): map<string, TrainedModel>
    requires DirectionValid(d)
    decreases |targets|
  {
    if targets == [] then models
    else if targets[0] !in d.source.columns then ModelsFor(d, models, targets[1..])
    else ModelsFor(d, models[targets[0] := TargetModel(d, targets[0])], targets[1..])
  }

  lemma {:induction false} EnrichModelsFold(d: Direction, dst: Table, models: map<string, TrainedModel>, targets: seq<string>)
    requires DirectionValid(d) && Valid(dst)
    requires EnrichSpec(d, dst, models, targets).Ok?
    ensures EnrichSpec(d, dst, models, targets).value.1 == ModelsFor(d, models, targets)
    decreases |targets|
  {
    if targets != [] {
      SpecUnfold(d, dst, models, targets);
      var step := EnrichStep(d, dst, models, targets[0]);
      EnrichModelsFold(d, step.value.0, step.value.1, targets[1..]);
    }
  }

  /** Only an enrichment whose every target is a column of the source succeeds. */
  lemma {:induction false} EnrichTargetsPresent(d: Direction, dst: Table, models: map<string, TrainedModel>, targets: seq<string>)
    requires DirectionValid(d) && Valid(dst)
    requires EnrichSpec(d, dst, models, targets).Ok?
    ensures forall t :: t in targets ==> t in d.source.columns
    decreases |targets|
  {
    if targets != [] {
      SpecUnfold(d, dst, models, targets);
      var step := EnrichStep(d, dst, models, targets[0]);
      var rest := targets[1..];
      EnrichTargetsPresent(d, step.value.0, step.value.1, rest);
      forall t | t in targets
        ensures t in d.source.columns
      {
        if t != targets[0] {
          var i :| 0 <= i < |targets| && targets[i] == t;
          assert rest[i - 1] == t;
        }
      }
    }
  }

  /** The fold records exactly the targets, each with its own model, and keeps the others. */
  lemma {:induction false} ModelsForContents(d: Direction, models: map<string, TrainedModel>, targets: seq<string>)
    requires DirectionValid(d) && forall t :: t in targets ==> t in d.source.columns
    ensures var m := ModelsFor(d, models, targets);
      && (forall x :: x in m <==> x in models || x in targets)
      && (forall x :: x in targets ==> m[x] == TargetModel(d, x))
      && (forall x :: x in models && x !in targets ==> m[x] == models[x])
    decreases |targets|
  {
    if targets != [] {
      var t0, rest := targets[0], targets[1..];
      var m := models[t0 := TargetModel(d, t0)];
      ModelsForContents(d, m, rest);
      assert targets == [t0] + rest;
    }
  }

  /**
   * One unfolding of a successful `EnrichSpec`: the first step succeeds, records the
   * target's model, and the rest of the fold continues from its result.
   */
  lemma SpecUnfold(d: Direction, dst: Table, models: map<string, TrainedModel>, targets: seq<string>)
    requires DirectionValid(d) && Valid(dst) && targets != []
    requires EnrichSpec(d, dst, models, targets).Ok?
    ensures var step := EnrichStep(d, dst, models, targets[0]);
      && step.Ok? && Valid(step.value.0)
      && targets[0] in d.source.columns
      && step.value.1 == models[targets[0] := TargetModel(d, targets[0])]
      && EnrichSpec(d, dst, models, targets) == EnrichSpec(d, step.value.0, step.value.1, targets[1..])
  {
  }

  /** A successful enrichment leaves every column it does not write to as it was. */
  lemma {:induction false} EnrichKeeps(d: Direction, dst: Table, models: map<string, TrainedModel>, targets: seq<string>)
    requires DirectionValid(d) && Valid(dst)
    requires EnrichSpec(d, dst, models, targets).Ok?
    ensures var out, names := EnrichSpec(d, dst, models, targets).value.0, PredNames(dst.columns, targets);
      forall c :: c in dst.data && c !in names ==> c in out.data && out.data[c] == dst.data[c]
    decreases |targets|
  {
    if targets != [] {
      SpecUnfold(d, dst, models, targets);
      StepOutcome(d, dst, models, targets[0]);
      var step := EnrichStep(d, dst, models, targets[0]).value;
      EnrichKeeps(d, step.0, step.1, targets[1..]);
    }
  }

  /** No later target is stored under the name of the `i`-th one. */
  predicate LastWrite(names: seq<string>, i: nat)
    requires i < |names|
  {
    names[i] !in names[i + 1..]
  }

  /** The column of the `i`-th target holds its model's prediction on the destination features. */
  ghost predicate ProducedAt(d: Direction, out: Table, targets: seq<string>, names: seq<string>, i: nat)
    requires DirectionValid(d) && i < |targets| == |names|
  {
    && targets[i] in d.source.columns && names[i] in out.data
    && Predict(TargetModel(d, targets[i]), d.destFeatures, d.learner) == Ok(out.data[names[i]])
  }

  /**
   * After a successful enrichment, the column each target was stored under holds the
   * prediction of that target's model on the destination features, unless a later target
   * was stored under the same name and overwrote it.
   */
  lemma EnrichProduces(d: Direction, dst: Table, models: map<string, TrainedModel>, targets: seq<string>)
    requires DirectionValid(d) && Valid(dst)
    requires EnrichSpec(d, dst, models, targets).Ok?
    ensures var out, names := EnrichSpec(d, dst, models, targets).value.0, PredNames(dst.columns, targets);
      forall i :: 0 <= i < |targets| && LastWrite(names, i) ==> ProducedAt(d, out, targets, names, i)
  {
    forall i | 0 <= i < |targets| && LastWrite(PredNames(dst.columns, targets), i)
      ensures ProducedAt(d, EnrichSpec(d, dst, models, targets).value.0, targets, PredNames(dst.columns, targets), i)
    {
      ProducedAtIndex(d, dst, models, targets, i);
    }
  }

  /** `EnrichProduces` for one target, by induction on its position. */
  lemma {:induction false} ProducedAtIndex(d: Direction, dst: Table, models: map<string, TrainedModel>,
                                           targets: seq<string>, i: nat)
    requires DirectionValid(d) && Valid(dst)
    requires EnrichSpec(d, dst, models, targets).Ok?
    requires i < |targets| && LastWrite(PredNames(dst.columns, targets), i)
    ensures ProducedAt(d, EnrichSpec(d, dst, models, targets).value.0, targets, PredNames(dst.columns, targets), i)
    decreases i, 1
  {
    if i == 0 {
      ProducesFirst(d, dst, models, targets);
    } else {
      ProducedLater(d, dst, models, targets, i);
    }
  }

  lemma {:induction false} ProducedLater(d: Direction, dst: Table, models: map<string, TrainedModel>,
                                         targets: seq<string>, i: nat)
    requires DirectionValid(d) && Valid(dst)
    requires EnrichSpec(d, dst, models, targets).Ok?
    requires 0 < i < |targets| && LastWrite(PredNames(dst.columns, targets), i)
    ensures ProducedAt(d, EnrichSpec(d, dst, models, targets).value.0, targets, PredNames(dst.columns, targets), i)
    decreases i, 0
  {
    NamesUnfold(d, dst, models, targets);
    var step := EnrichStep(d, dst, models, targets[0]).value;
    var out := EnrichSpec(d, dst, models, targets).value.0;
    var names, tail := PredNames(dst.columns, targets), PredNames(step.0.columns, targets[1..]);
    ShiftWrite(d, out, targets, names, tail, i);
    ProducedAtIndex(d, step.0, step.1, targets[1..], i - 1);
    assert out == EnrichSpec(d, step.0, step.1, targets[1..]).value.0;
  }

  /** One unfolding of a successful `EnrichSpec`, with the names the rest of the fold uses. */
  lemma NamesUnfold(d: Direction, dst: Table, models: map<string, TrainedModel>, targets: seq<string>)
    requires DirectionValid(d) && Valid(dst) && targets != []
    requires EnrichSpec(d, dst, models, targets).Ok?
    ensures var step := EnrichStep(d, dst, models, targets[0]);
      && step.Ok? && Valid(step.value.0)
      && EnrichSpec(d, dst, models, targets) == EnrichSpec(d, step.value.0, step.value.1, targets[1..])
      && PredNames(dst.columns, targets)[1..] == PredNames(step.value.0.columns, targets[1..])
  {
    SpecUnfold(d, dst, models, targets);
    StepOutcome(d, dst, models, targets[0]);
  }

  /** The facts about the `i`-th target are those about the `(i-1)`-th of the tail. */
  lemma ShiftWrite(d: Direction, out: Table, targets: seq<string>, names: seq<string>, tail: seq<string>, i: nat)
    requires DirectionValid(d) && 0 < i < |targets| == |names| && tail == names[1..]
    ensures LastWrite(names, i) == LastWrite(tail, i - 1)
    ensures ProducedAt(d, out, targets, names, i) == ProducedAt(d, out, targets[1..], tail, i - 1)
  {
    assert names[i + 1..] == names[1..][i..];
  }

  /** The first target's column holds its prediction unless a later target overwrote it. */
  lemma ProducesFirst(d: Direction, dst: Table, models: map<string, TrainedModel>, targets: seq<string>)
    requires DirectionValid(d) && Valid(dst) && targets != []
    requires EnrichSpec(d, dst, models, targets).Ok?
    requires LastWrite(PredNames(dst.columns, targets), 0)
    ensures ProducedAt(d, EnrichSpec(d, dst, models, targets).value.0, targets, PredNames(dst.columns, targets), 0)
  {
    SpecUnfold(d, dst, models, targets);
    StepOutcome(d, dst, models, targets[0]);
    var step := EnrichStep(d, dst, models, targets[0]).value;
    EnrichKeeps(d, step.0, step.1, targets[1..]);
  }

  /**
   * Enrichment succeeds only if every target is a column of the source. With the
   * destination features holding every training feature, as many rows as the destination
   * and row-wise learners, that is also enough, and a failure is a missing target.
   */
  lemma {:induction false} EnrichOutcome(d: Direction, dst: Table, models: map<string, TrainedModel>, targets: seq<string>)
    requires DirectionValid(d) && Valid(dst)
    requires forall c :: c in d.sourceFeatures.columns ==> c in d.destFeatures.columns
    ensures EnrichSpec(d, dst, models, targets).Ok? ==> forall t :: t in targets ==> t in d.source.columns
    ensures Rowwise(d.learner) && d.destFeatures.rows == dst.rows ==>
      && (EnrichSpec(d, dst, models, targets).Ok? <==> forall t :: t in targets ==> t in d.source.columns)
      && (EnrichSpec(d, dst, models, targets).Err? ==>
            exists t :: t in targets && t !in d.source.columns && EnrichSpec(d, dst, models, targets).error == MissingColumn(t))
    decreases |targets|
  {
    if targets != [] {
      var t0 := targets[0];
      assert targets == [t0] + targets[1..];
      if t0 in d.source.columns {
        TrainedModelPredicts(d.sourceFeatures, d.source.data[t0], t0, Some(ProblemFor(d, t0)),
                             d.seed, d.preferPycaret, d.pycaretAvailable, d.learner, d.destFeatures);
        var step := EnrichStep(d, dst, models, t0);
        if step.Ok? {
          EnrichOutcome(d, step.value.0, step.value.1, targets[1..]);
        }
      }
    }
  }

  /** Distinct targets none of which is already a column are stored under their own names. */
  lemma {:induction false} BareNames(columns: seq<string>, targets: seq<string>)
    requires Distinct(targets)
    requires forall t :: t in targets ==> t !in columns
    ensures EnrichedNames(columns, targets) == columns + targets
    decreases |targets|
  {
    if targets != [] {
      var t0 := targets[0];
      assert forall i, j :: 0 <= i < j < |targets[1..]| ==> targets[1..][i] == targets[i + 1] && targets[1..][j] == targets[j + 1];
      assert forall t :: t in targets[1..] ==> t != t0 && t in targets;
      BareNames(columns + [t0], targets[1..]);
      assert columns + [t0] + targets[1..] == columns + targets;
    }
  }

  /**
   * The enrichment loop of `fuse_datasets`, written as the loop it is; it computes the fold
   * `EnrichSpec` starting from no models.
   */
  method EnrichDirection(d: Direction, dst: Table, targets: seq<string>)
    returns (r: Result<(Table, map<string, TrainedModel>), FusionError>)
    requires DirectionValid(d) && Valid(dst)
    ensures r == EnrichSpec(d, dst, map[], targets)
  {
    var pred := dst;
    var models: map<string, TrainedModel> := map[];
    var i := 0;
    while i < |targets|
      invariant 0 <= i <= |targets|
      invariant Valid(pred)
      invariant EnrichSpec(d, pred, models, targets[i..]) == EnrichSpec(d, dst, map[], targets)
    {
      var step := EnrichStep(d, pred, models, targets[i]);
      assert targets[i..][0] == targets[i] && targets[i..][1..] == targets[i + 1..];
      if step.Err? {
        return Err(step.error);
      }
      pred, models := step.value.0, step.value.1;
      i := i + 1;
    }
    r := Ok((pred, models));
  }

  /**
   * What one direction of `fuse_datasets` delivers: the enriched table keeps the rows of
   * `dst` and has the columns `EnrichedNames` describes, and there is exactly one model per
   * distinct target, each trained on `features`.
   */
  ghost predicate Delivered(dst: Table, targets: seq<string>, features: seq<string>,
                            out: Table, models: map<string, TrainedModel>)
  {
    && Valid(out) && out.rows == dst.rows
    && out.columns == EnrichedNames(dst.columns, targets)
    && (forall t :: t in models <==> t in targets)
    && (forall t :: t in models ==> models[t].features == features && models[t].target == t)
  }

  lemma EnrichDelivers(d: Direction, dst: Table, targets: seq<string>)
    requires DirectionValid(d) && Valid(dst)
    requires EnrichSpec(d, dst, map[], targets).Ok?
    ensures var out, models := EnrichSpec(d, dst, map[], targets).value.0, EnrichSpec(d, dst, map[], targets).value.1;
      Delivered(dst, targets, d.sourceFeatures.columns, out, models)
  {
    EnrichShape(d, dst, map[], targets);
  }

  /**
   * The cells an enrichment delivers: every column of `dst` that no target is stored under
   * keeps its cells, and the column each target was last stored under holds the prediction
   * of the target's recorded model on `features`.
   */
  ghost predicate CellsDelivered(dst: Table, targets: seq<string>, features: Table, learner: Learner,
                                 out: Table, models: map<string, TrainedModel>)
  {
    var names := PredNames(dst.columns, targets);
    && Valid(features)
    && (forall c :: c in dst.data && c !in names ==> c in out.data && out.data[c] == dst.data[c])
    && (forall i :: 0 <= i < |targets| && LastWrite(names, i) ==>
          && targets[i] in models && names[i] in out.data
          && Predict(models[targets[i]], features, learner) == Ok(out.data[names[i]]))
  }

  lemma EnrichDeliversCells(d: Direction, dst: Table, targets: seq<string>)
    requires DirectionValid(d) && Valid(dst)
    requires EnrichSpec(d, dst, map[], targets).Ok?
    ensures var out, models := EnrichSpec(d, dst, map[], targets).value.0, EnrichSpec(d, dst, map[], targets).value.1;
      CellsDelivered(dst, targets, d.destFeatures, d.learner, out, models)
  {
    EnrichKeeps(d, dst, map[], targets);
    EnrichModels(d, dst, map[], targets);
    var out, models := EnrichSpec(d, dst, map[], targets).value.0, EnrichSpec(d, dst, map[], targets).value.1;
    var names := PredNames(dst.columns, targets);
    forall i | 0 <= i < |targets| && LastWrite(names, i)
      ensures && targets[i] in models && names[i] in out.data
              && Predict(models[targets[i]], d.destFeatures, d.learner) == Ok(out.data[names[i]])
    {
      assert targets[i] in targets;
      ProducedAtIndex(d, dst, map[], targets, i);
    }
  }

  /**
   * One direction of `fuse_datasets` from no models: a success means every target was
   * present and delivers `Delivered` and `CellsDelivered` on the destination features;
   * with row-wise learners and destination features on the destination's rows and holding
   * every training feature, it succeeds exactly when every target is present.
   */
  lemma DirectionOutcome(d: Direction, dst: Table, targets: seq<string>)
    requires DirectionValid(d) && Valid(dst)
    requires forall c :: c in d.sourceFeatures.columns ==> c in d.destFeatures.columns
    ensures var r := EnrichSpec(d, dst, map[], targets);
      && (r.Ok? ==> && AllIn(targets, d.source)
                    && Delivered(dst, targets, d.sourceFeatures.columns, r.value.0, r.value.1)
                    && CellsDelivered(dst, targets, d.destFeatures, d.learner, r.value.0, r.value.1))
      && (Rowwise(d.learner) && d.destFeatures.rows == dst.rows ==> (r.Ok? <==> AllIn(targets, d.source)))
  {
    EnrichOutcome(d, dst, map[], targets);
    if EnrichSpec(d, dst, map[], targets).Ok? {
      EnrichDelivers(d, dst, targets);
      EnrichDeliversCells(d, dst, targets);
    }
  }

  /** Distinct targets none of which is already a column are each stored under their own name. */
  lemma {:induction false} BarePredNames(columns: seq<string>, targets: seq<string>)
    requires Distinct(targets)
    requires forall t :: t in targets ==> t !in columns
    ensures PredNames(columns, targets) == targets
    decreases |targets|
  {
    if targets != [] {
      var t0 := targets[0];
      assert forall i, j :: 0 <= i < j < |targets[1..]| ==> targets[1..][i] == targets[i + 1] && targets[1..][j] == targets[j + 1];
      assert forall t :: t in targets[1..] ==> t != t0 && t in targets;
      BarePredNames(columns + [t0], targets[1..]);
    }
  }

  /**
   * With the default targets, each of them is a new column holding its model's predictions,
   * and every original column keeps its cells.
   */
  lemma DefaultTargetCells(source: Table, dst: Table, features: Table, learner: Learner,
                           out: Table, models: map<string, TrainedModel>)
    requires Valid(dst)
    requires CellsDelivered(dst, ExclusiveColumns(source, dst), features, learner, out, models)
    ensures forall t :: t in ExclusiveColumns(source, dst) ==>
      t in models && t in out.data && Predict(models[t], features, learner) == Ok(out.data[t])
    ensures forall c :: c in dst.data ==> c in out.data && out.data[c] == dst.data[c]
  {
    var targets := ExclusiveColumns(source, dst);
    BarePredNames(dst.columns, targets);
    forall t | t in targets
      ensures t in models && t in out.data && Predict(models[t], features, learner) == Ok(out.data[t])
    {
      var i :| 0 <= i < |targets| && targets[i] == t;
      DistinctLastWrite(targets, i);
      assert LastWrite(PredNames(dst.columns, targets), i);
    }
    forall c | c in dst.data ensures c in out.data && out.data[c] == dst.data[c] {
      assert c !in PredNames(dst.columns, targets);
    }
  }

  /** In a list without repetitions every name is written last where it occurs. */
  lemma DistinctLastWrite(names: seq<string>, i: nat)
    requires Distinct(names) && i < |names|
    ensures LastWrite(names, i)
  {
  }

  // ---------------------------------------------------------------------------------------
  // The fused table and `fuse_datasets`

  /** `sorted(set(a.columns) | set(b.columns))`. */
  function FusedColumns(aPred: Table, bPred: Table): (r: seq<string>)
    ensures StrictlySorted(r, StrLess)
    ensures forall c :: c in r <==> c in aPred.columns || c in bPred.columns
  {
    StrLessIsStrictTotalOrder();
    SortedUnique(aPred.columns + bPred.columns, StrLess)
  }

  /**
   * The vertical concatenation of both enriched tables, each reindexed to the sorted union of
   * their columns.
   */
  function FusedTable(aPred: Table, bPred: Table): (r: Table)
    requires Valid(aPred) && Valid(bPred)
    ensures Valid(r) && r.rows == aPred.rows + bPred.rows
    ensures r.columns == FusedColumns(aPred, bPred)
  {
    var all := FusedColumns(aPred, bPred);
    ConcatRows(Reindex(aPred, all), Reindex(bPred, all))
  }

  /**
   * The fused table has the sorted union of the columns; its rows are those of `aPred`
   * followed by those of `bPred`, each cell missing where its table lacks the column.
   */
  lemma FusedTableCells(aPred: Table, bPred: Table)
    requires Valid(aPred) && Valid(bPred)
    ensures var r := FusedTable(aPred, bPred);
      && StrictlySorted(r.columns, StrLess)
      && (forall c :: c in r.columns <==> c in aPred.columns || c in bPred.columns)
      && (forall c, i :: c in r.data && 0 <= i < aPred.rows ==>
            r.data[c].cells[i] == if c in aPred.data then aPred.data[c].cells[i] else None)
      && (forall c, i :: c in r.data && 0 <= i < bPred.rows ==>
            r.data[c].cells[aPred.rows + i] == if c in bPred.data then bPred.data[c].cells[i] else None)
  {
    var all := FusedColumns(aPred, bPred);
    var r := FusedTable(aPred, bPred);
    forall c | c in r.data
      ensures forall i :: 0 <= i < aPred.rows ==>
        r.data[c].cells[i] == if c in aPred.data then aPred.data[c].cells[i] else None
      ensures forall i :: 0 <= i < bPred.rows ==>
        r.data[c].cells[aPred.rows + i] == if c in bPred.data then bPred.data[c].cells[i] else None
    {
      StackedColumn(aPred, bPred, all, c);
    }
  }

  /** One column of two tables reindexed to `cols` and stacked. */
  lemma StackedColumn(t1: Table, t2: Table, cols: seq<string>, c: string)
    requires Valid(t1) && Valid(t2) && c in cols
    ensures var r := ConcatRows(Reindex(t1, cols), Reindex(t2, cols));
      && c in r.data
      && (forall i :: 0 <= i < t1.rows ==>
            r.data[c].cells[i] == if c in t1.data then t1.data[c].cells[i] else None)
      && (forall i :: 0 <= i < t2.rows ==>
            r.data[c].cells[t1.rows + i] == if c in t2.data then t2.data[c].cells[i] else None)
  {
    var ra, rb := Reindex(t1, cols), Reindex(t2, cols);
    var cells := ra.data[c].cells + rb.data[c].cells;
    assert ConcatRows(ra, rb).data[c].cells == cells;
    assert forall i :: 0 <= i < t1.rows ==> cells[i] == ra.data[c].cells[i];
    assert forall i :: 0 <= i < t2.rows ==> cells[t1.rows + i] == rb.data[c].cells[i];
  }

  /** The overlap features align in the projections exactly when they align in the tables. */
  lemma ProjectedAlignment(a: Table, b: Table, overlap: seq<string>)
    requires Valid(a) && Valid(b)
    requires forall c :: c in overlap ==> c in a.columns && c in b.columns
    ensures Project(a, overlap).Some? && Project(b, overlap).Some?
    ensures AlignmentOk(Project(a, overlap).value, Project(b, overlap).value, overlap)
      <==> AlignmentOk(a, b, overlap)
  {
    var aSel, bSel := Project(a, overlap).value, Project(b, overlap).value;
    assert forall c :: c in overlap ==> aSel.data[c] == a.data[c] && bSel.data[c] == b.data[c];
  }

  /**
   * The overlap features of both tables, aligned: what the models of one direction are
   * trained on and those of the other predict from.
   */
  function OverlapFeatures(a: Table, b: Table, overlap: seq<string>): (r: (Table, Table))
    requires Valid(a) && Valid(b)
    requires forall c :: c in overlap ==> c in a.columns && c in b.columns
    requires AlignmentOk(a, b, overlap)
    ensures Valid(r.0) && Valid(r.1) && r.0.columns == overlap && r.1.columns == overlap
    ensures r.0.rows == a.rows && r.1.rows == b.rows
  {
    ProjectedAlignment(a, b, overlap);
    AlignedTables(Project(a, overlap).value, Project(b, overlap).value, overlap)
  }

  /**
   * `fuse_datasets`. It succeeds only when every overlap feature can be aligned and every
   * target is a column of its source table, and with row-wise learners exactly then; then
   * each enriched table keeps its rows and gains one column per distinct target (named after
   * it when the targets are the defaults), one model is recorded per distinct target, every
   * model is trained on exactly the overlap features, and the fused table stacks the two
   * enriched tables.
   */
  method FuseDatasets(a: Table, b: Table, overlapFeatures: Option<seq<string>>,
                      targetsFromA: Option<seq<string>>, targetsFromB: Option<seq<string>>,
                      problemTypeMap: Option<map<string, ProblemType>>, preferPycaret: bool,
                      seed: int, pycaretAvailable: bool, learner: Learner)
    returns (r: Result<FusionResult, FusionError>)
    requires Valid(a) && Valid(b)
    ensures var overlap := ResolveOverlap(a, b, overlapFeatures, targetsFromA, targetsFromB);
      var ta := ResolveTargets(a, b, targetsFromA);
      var tb := ResolveTargets(b, a, targetsFromB);
      && (r.Ok? ==> AlignmentOk(a, b, overlap) && AllIn(ta, a) && AllIn(tb, b))
      && (Rowwise(learner) ==> (r.Ok? <==> AlignmentOk(a, b, overlap) && AllIn(ta, a) && AllIn(tb, b)))
      && (r.Ok? ==>
            && Delivered(b, ta, overlap, r.value.bEnriched, r.value.modelsAToB)
            && Delivered(a, tb, overlap, r.value.aEnriched, r.value.modelsBToA)
            && r.value.fused == FusedTable(r.value.aEnriched, r.value.bEnriched)
            && r.value.fused.rows == a.rows + b.rows)
      && (r.Ok? ==>
            var features := OverlapFeatures(a, b, overlap);
            && CellsDelivered(b, ta, features.1, learner, r.value.bEnriched, r.value.modelsAToB)
            && CellsDelivered(a, tb, features.0, learner, r.value.aEnriched, r.value.modelsBToA))
      && (r.Ok? && targetsFromA.None? ==> r.value.bEnriched.columns == b.columns + ta)
      && (r.Ok? && targetsFromB.None? ==> r.value.aEnriched.columns == a.columns + tb)
  {
    var overlap := ResolveOverlap(a, b, overlapFeatures, targetsFromA, targetsFromB);
    var ta := ResolveTargets(a, b, targetsFromA);
    var tb := ResolveTargets(b, a, targetsFromB);
    var problemTypes := if problemTypeMap.Some? then problemTypeMap.value else map[];

    var aSel := Project(a, overlap).value;
    var bSel := Project(b, overlap).value;
    ProjectedAlignment(a, b, overlap);
    var aligned := CoerceCategoricalAlignment(aSel, bSel, overlap);
    if aligned.Err? {
      return Err(aligned.error);
    }
    var aFeat, bFeat := aligned.value.0, aligned.value.1;
    assert (aFeat, bFeat) == OverlapFeatures(a, b, overlap);

    var ab := Direction(a, aFeat, bFeat, problemTypes, seed, preferPycaret, pycaretAvailable, learner);
    var ba := Direction(b, bFeat, aFeat, problemTypes, seed, preferPycaret, pycaretAvailable, learner);
    DirectionOutcome(ab, b, ta);
    DirectionOutcome(ba, a, tb);

    var bEnriched := EnrichDirection(ab, b, ta);
    if bEnriched.Err? {
      return Err(bEnriched.error);
    }
    var aEnriched := EnrichDirection(ba, a, tb);
    if aEnriched.Err? {
      return Err(aEnriched.error);
    }
    if targetsFromA.None? {
      DefaultTargetNames(a, b);
    }
    if targetsFromB.None? {
      DefaultTargetNames(b, a);
    }
    var bPred, aPred := bEnriched.value.0, aEnriched.value.0;
    r := Ok(FusionResult(FusedTable(aPred, bPred), aPred, bPred, bEnriched.value.1, aEnriched.value.1));
  }
}
