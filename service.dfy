/**
 * The service layer around `fuse_datasets`: building the fusion configuration from a
 * request and shaping the response (column filters, row limit, return parts, metric
 * cleaning).
 */
module Service {
  import opened Wrappers
  import opened Seqs
  import opened Frame
  import opened Modeling
  import opened Fusion

  /** `FusionConfig` and its field defaults. */
  datatype FusionConfig = FusionConfig(
    preferPycaret: bool,
    randomState: int,
    cvSplits: int,
    nEstimators: int,
    useSparseOnehot: bool,
    maxCategoryCardinality: int,
    warnOnHighCardinality: bool)

  const DefaultConfig := FusionConfig(true, 42, 3, 300, true, 100, true)

  /** The fields of `FuseRequest` the service reads (the row data enters as tables). */
  datatype FuseRequest = FuseRequest(
    overlapFeatures: Option<seq<string>>,
    targetsFromA: Option<seq<string>>,
    targetsFromB: Option<seq<string>>,
    preferPycaret: Option<bool>,
    randomState: Option<int>,
    cvSplits: Option<int>,
    nEstimators: Option<int>,
    useSparseOnehot: Option<bool>,
    maxCategoryCardinality: Option<int>,
    warnOnHighCardinality: Option<bool>,
    returnParts: Option<seq<string>>,
    rowLimit: Option<nat>,
    columnsInclude: Option<seq<string>>,
    columnsExclude: Option<seq<string>>)

  /** A metric value as a Python float. */
  datatype Metric = Finite(x: real) | PosInf | NegInf | NaN

  type Metrics = map<string, map<string, Metric>>

  /** `FuseResponse`: every part is optional and stays None unless requested. */
  datatype FuseResponse = FuseResponse(
    fused: Option<seq<Record>>,
    aEnriched: Option<seq<Record>>,
    bEnriched: Option<seq<Record>>,
    metricsAToB: Option<Metrics>,
    metricsBToA: Option<Metrics>)

  /**
   * The configuration `perform_fusion` builds: `prefer_pycaret` and `random_state` fall
   * back to True and 42, and each advanced field replaces its default only when given.
   */
  method BuildConfig(req: FuseRequest) returns (config: FusionConfig)
    ensures config.preferPycaret == if req.preferPycaret.Some? then req.preferPycaret.value else true
    ensures config.randomState == if req.randomState.Some? then req.randomState.value else 42
    ensures config.cvSplits == if req.cvSplits.Some? then req.cvSplits.value else DefaultConfig.cvSplits
    ensures config.nEstimators == if req.nEstimators.Some? then req.nEstimators.value else DefaultConfig.nEstimators
    ensures config.useSparseOnehot == if req.useSparseOnehot.Some? then req.useSparseOnehot.value else DefaultConfig.useSparseOnehot
    ensures config.maxCategoryCardinality ==
      if req.maxCategoryCardinality.Some? then req.maxCategoryCardinality.value else DefaultConfig.maxCategoryCardinality
    ensures config.warnOnHighCardinality ==
      if req.warnOnHighCardinality.Some? then req.warnOnHighCardinality.value else DefaultConfig.warnOnHighCardinality
  {
    config := DefaultConfig.(
      preferPycaret := if req.preferPycaret.Some? then req.preferPycaret.value else true,
      randomState := if req.randomState.Some? then req.randomState.value else 42);
    if req.cvSplits.Some? {
      config := config.(cvSplits := req.cvSplits.value);
    }
    if req.nEstimators.Some? {
      config := config.(nEstimators := req.nEstimators.value);
    }
    if req.useSparseOnehot.Some? {
      config := config.(useSparseOnehot := req.useSparseOnehot.value);
    }
    if req.maxCategoryCardinality.Some? {
      config := config.(maxCategoryCardinality := req.maxCategoryCardinality.value);
    }
    if req.warnOnHighCardinality.Some? {
      config := config.(warnOnHighCardinality := req.warnOnHighCardinality.value);
    }
  }

  /** The include list selects something: it is given, non-empty and names a present column. */
  predicate IncludeHits(t: Table, includeCols: Option<seq<string>>)
  {
    includeCols.Some? && exists c :: c in includeCols.value && c in t.columns
  }

  /** A name the exclude list removes. */
  predicate Excluded(excludeCols: Option<seq<string>>, c: string)
  {
    excludeCols.Some? && c in excludeCols.value
  }

  /**
   * `_maybe_filter_dataframe`. The columns kept are those present that the include list
   * names (when it names any present column; otherwise all) and the exclude list does not
   * name; they keep the include list's order, or the table's order. The rows are the first
   * `min(rows, row_limit)`. Nothing is added and no cell changes.
   */
  function MaybeFilter(t: Table, rowLimit: Option<nat>, includeCols: Option<seq<string>>,
                       excludeCols: Option<seq<string>>): (r: Table)
    requires Valid(t)
    ensures Valid(r)
    ensures r.rows == if rowLimit.Some? && rowLimit.value < t.rows then rowLimit.value else t.rows
    ensures forall c :: c in r.columns <==>
      c in t.columns && (IncludeHits(t, includeCols) ==> c in includeCols.value) && !Excluded(excludeCols, c)
    ensures IncludeHits(t, includeCols) ==> IsSubsequence(r.columns, includeCols.value)
    ensures !IncludeHits(t, includeCols) ==> IsSubsequence(r.columns, t.columns)
    ensures forall c :: c in r.data ==> c in t.data && r.data[c].cells == t.data[c].cells[..r.rows]
  {
    var included := IncludeStage(t, includeCols);
    var excluded := ExcludeStage(included, excludeCols);
    assert IncludeHits(t, includeCols) ==> IsSubsequence(excluded.columns, includeCols.value) by {
      if IncludeHits(t, includeCols) {
        SubsequenceTransitive(excluded.columns, included.columns, includeCols.value);
      }
    }
    if rowLimit.Some? then Head(excluded, rowLimit.value) else excluded
  }

  /** The include step: the present listed columns in the list's order, when there are any. */
  function IncludeStage(t: Table, includeCols: Option<seq<string>>): (r: Table)
    requires Valid(t)
    ensures Valid(r) && r.rows == t.rows
    ensures forall c :: c in r.columns <==> c in t.columns && (IncludeHits(t, includeCols) ==> c in includeCols.value)
    ensures IncludeHits(t, includeCols) ==> IsSubsequence(r.columns, includeCols.value)
    ensures !IncludeHits(t, includeCols) ==> r == t
    ensures forall c :: c in r.data ==> c in t.data && r.data[c] == t.data[c]
  {
    if includeCols.Some? && includeCols.value != [] then
      var cols := Filter(includeCols.value, c => c in t.columns);
      if cols != [] then Project(t, cols).value else t
    else t
  }

  /** The exclude step: the columns the exclude list names are dropped. */
  function ExcludeStage(t: Table, excludeCols: Option<seq<string>>): (r: Table)
    requires Valid(t)
    ensures Valid(r) && r.rows == t.rows
    ensures forall c :: c in r.columns <==> c in t.columns && !Excluded(excludeCols, c)
    ensures IsSubsequence(r.columns, t.columns)
    ensures forall c :: c in r.data ==> c in t.data && r.data[c] == t.data[c]
  {
    if excludeCols.Some? && excludeCols.value != [] then
      var drop := Filter(excludeCols.value, c => c in t.columns);
      if drop != [] then DropColumns(t, drop)
      else
        SubsequenceReflexive(t.columns);
        t
    else
      SubsequenceReflexive(t.columns);
      t
  }

  /** Metric names of one table whose values are not NaN. */
  function CleanOne(sub: map<string, Metric>): (r: map<string, Metric>)
    ensures forall k :: k in r <==> k in sub && sub[k] != NaN
    ensures forall k :: k in r ==> r[k] == sub[k]
  {
    map k | k in sub && sub[k] != NaN :: sub[k]
  }

  /** `_clean`: every target kept; within it, exactly the NaN values are dropped. */
  function Clean(d: Metrics): (r: Metrics)
    ensures r.Keys == d.Keys
    ensures forall k, m :: k in r && m in r[k] <==> k in d && m in d[k] && d[k][m] != NaN
    ensures forall k, m :: k in r && m in r[k] ==> r[k][m] == d[k][m]
  {
    map k | k in d :: CleanOne(d[k])
  }

  /** The parts to return: the requested names, or all four when none are requested. */
  function WantedParts(returnParts: Option<seq<string>>): (r: set<string>)
    ensures returnParts.None? || returnParts.value == [] ==>
      r == {"fused", "a_enriched", "b_enriched", "metrics"}
    ensures returnParts.Some? && returnParts.value != [] ==> forall p :: p in r <==> p in returnParts.value
  {
    if returnParts.Some? && returnParts.value != [] then set p | p in returnParts.value
    else {"fused", "a_enriched", "b_enriched", "metrics"}
  }

  /**
   * The response assembled in `perform_fusion`: each requested table part as the records of
   * its filtered table, the metrics cleaned, and every part not requested left None.
   */
  method BuildResponse(req: FuseRequest, fused: Table, aEnriched: Table, bEnriched: Table,
                       metricsAToB: Metrics, metricsBToA: Metrics)
    returns (response: FuseResponse)
    requires Valid(fused) && Valid(aEnriched) && Valid(bEnriched)
    ensures var wanted := WantedParts(req.returnParts);
      && (response.fused.Some? <==> "fused" in wanted)
      && (response.aEnriched.Some? <==> "a_enriched" in wanted)
      && (response.bEnriched.Some? <==> "b_enriched" in wanted)
      && (response.metricsAToB.Some? <==> "metrics" in wanted)
      && (response.metricsBToA.Some? <==> "metrics" in wanted)
    ensures response.fused.Some? ==>
      response.fused.value == Records(MaybeFilter(fused, req.rowLimit, req.columnsInclude, req.columnsExclude))
    ensures response.aEnriched.Some? ==>
      response.aEnriched.value == Records(MaybeFilter(aEnriched, req.rowLimit, req.columnsInclude, req.columnsExclude))
    ensures response.bEnriched.Some? ==>
      response.bEnriched.value == Records(MaybeFilter(bEnriched, req.rowLimit, req.columnsInclude, req.columnsExclude))
    ensures response.metricsAToB.Some? ==> response.metricsAToB.value == Clean(metricsAToB)
    ensures response.metricsBToA.Some? ==> response.metricsBToA.value == Clean(metricsBToA)
  {
    var wanted := WantedParts(req.returnParts);
    response := FuseResponse(None, None, None, None, None);
    if "fused" in wanted {
      response := response.(fused := Some(Records(MaybeFilter(fused, req.rowLimit, req.columnsInclude, req.columnsExclude))));
    }
    if "a_enriched" in wanted {
      response := response.(aEnriched := Some(Records(MaybeFilter(aEnriched, req.rowLimit, req.columnsInclude, req.columnsExclude))));
    }
    if "b_enriched" in wanted {
      response := response.(bEnriched := Some(Records(MaybeFilter(bEnriched, req.rowLimit, req.columnsInclude, req.columnsExclude))));
    }
    if "metrics" in wanted {
      response := response.(metricsAToB := Some(Clean(metricsAToB)), metricsBToA := Some(Clean(metricsBToA)));
    }
  }

  /**
   * An include list naming present columns together with a row limit gives exactly the
   * limited number of records, each keyed by exactly the included names.
   */
  lemma IncludeAndLimit(t: Table, includeCols: seq<string>, limit: nat)
    requires Valid(t)
    requires includeCols != [] && forall c :: c in includeCols ==> c in t.columns
    ensures var recs := Records(MaybeFilter(t, Some(limit), Some(includeCols), None));
      && |recs| == (if limit < t.rows then limit else t.rows)
      && forall i :: 0 <= i < |recs| ==> recs[i].Keys == set c | c in includeCols
  {
    assert includeCols[0] in includeCols;
    var r := MaybeFilter(t, Some(limit), Some(includeCols), None);
    assert forall c :: c in r.data <==> c in includeCols;
  }

  /**
   * `perform_fusion` over tables already read from the request records: fuse with the
   * request's pycaret preference and seed (defaults True and 42), then shape the response
   * from the fusion's result. The metrics are inputs, since the `fuse_datasets` modelled here
   * computes none.
   */
  method PerformFusion(req: FuseRequest, a: Table, b: Table, pycaretAvailable: bool, learner: Learner,
                       metricsAToB: Metrics, metricsBToA: Metrics)
    returns (r: Result<(FusionConfig, FusionResult, FuseResponse), FusionError>)
    requires Valid(a) && Valid(b)
    ensures r.Ok? ==> r.value.0.preferPycaret == (req.preferPycaret != Some(false))
    ensures r.Ok? ==> r.value.0.randomState == if req.randomState.Some? then req.randomState.value else 42
    ensures Rowwise(learner) ==> (r.Ok? <==>
      var overlap := ResolveOverlap(a, b, req.overlapFeatures, req.targetsFromA, req.targetsFromB);
      && AlignmentOk(a, b, overlap)
      && AllIn(ResolveTargets(a, b, req.targetsFromA), a)
      && AllIn(ResolveTargets(b, a, req.targetsFromB), b))
    ensures r.Ok? ==> var result := r.value.1;
      && Valid(result.fused) && Valid(result.aEnriched) && Valid(result.bEnriched)
      && result.fused == FusedTable(result.aEnriched, result.bEnriched)
      && result.aEnriched.rows == a.rows && result.bEnriched.rows == b.rows
    ensures r.Ok? ==> var result := r.value.1;
      var overlap := ResolveOverlap(a, b, req.overlapFeatures, req.targetsFromA, req.targetsFromB);
      && Delivered(b, ResolveTargets(a, b, req.targetsFromA), overlap, result.bEnriched, result.modelsAToB)
      && Delivered(a, ResolveTargets(b, a, req.targetsFromB), overlap, result.aEnriched, result.modelsBToA)
    ensures r.Ok? ==> var result, response, wanted := r.value.1, r.value.2, WantedParts(req.returnParts);
      && (response.fused.Some? <==> "fused" in wanted)
      && (response.aEnriched.Some? <==> "a_enriched" in wanted)
      && (response.bEnriched.Some? <==> "b_enriched" in wanted)
      && (response.metricsAToB.Some? <==> "metrics" in wanted)
      && (response.metricsBToA.Some? <==> "metrics" in wanted)
      && (response.fused.Some? ==>
            response.fused.value == Records(MaybeFilter(result.fused, req.rowLimit, req.columnsInclude, req.columnsExclude)))
      && (response.aEnriched.Some? ==>
            response.aEnriched.value == Records(MaybeFilter(result.aEnriched, req.rowLimit, req.columnsInclude, req.columnsExclude)))
      && (response.bEnriched.Some? ==>
            response.bEnriched.value == Records(MaybeFilter(result.bEnriched, req.rowLimit, req.columnsInclude, req.columnsExclude)))
      && (response.metricsAToB.Some? ==> response.metricsAToB.value == Clean(metricsAToB))
      && (response.metricsBToA.Some? ==> response.metricsBToA.value == Clean(metricsBToA))
  {
    var config := BuildConfig(req);
    var result := FuseDatasets(a, b, req.overlapFeatures, req.targetsFromA, req.targetsFromB, None,
                               config.preferPycaret, config.randomState, pycaretAvailable, learner);
    if result.Err? {
      return Err(result.error);
    }
    var response := BuildResponse(req, result.value.fused, result.value.aEnriched, result.value.bEnriched,
                                  metricsAToB, metricsBToA);
    r := Ok((config, result.value, response));
  }
}
