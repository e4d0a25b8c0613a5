/** The entry point `get_cost_projections`
    (message_ix_models/tools/costs/projections.py): it validates the spatial
    resolution, settles the reference region and hands both to the stages of
    the cost pipeline, whose code is not part of this model. */
module CostProjections {
  import opened Wrappers

  /** The string returned instead of a table for an unknown resolution. */
  const ERROR_MESSAGE := "Please select a valid spatial resolution: R11, R12, or R20"

  /** The spatial resolutions the pipeline knows. */
  const RESOLUTIONS: seq<string> := ["R11", "R12", "R20"]

  /** Suffix of the default reference region, North America. */
  const DEFAULT_REGION_SUFFIX := "_NAM"

  /** `str.upper` on one character, for the ASCII letters. */
  function UpperChar(c: char): (r: char)
    ensures 'a' <= c <= 'z' ==> r as int == c as int - 32 && 'A' <= r <= 'Z'
    ensures !('a' <= c <= 'z') ==> r == c
  {
    if 'a' <= c <= 'z' then (c as int - 32) as char else c
  }

  /** `str.upper`: every ASCII lower-case letter becomes upper case, every
      other character is kept. */
  function Upper(s: string): (r: string)
    ensures |r| == |s|
    ensures forall i :: 0 <= i < |r| ==> !('a' <= r[i] <= 'z')
    ensures forall i :: 0 <= i < |s| && !('a' <= s[i] <= 'z') ==> r[i] == s[i]
    ensures forall i :: 0 <= i < |s| && 'a' <= s[i] <= 'z' ==> r[i] as int == s[i] as int - 32
  {
    seq(|s|, i requires 0 <= i < |s| => UpperChar(s[i]))
  }

  /** The arguments of `get_cost_projections`. `format` is accepted and
      never read. */
  datatype Request = Request(
    node: string,                 // sel_node
    refRegion: Option<string>,    // sel_ref_region, None by default
    baseYear: int,                // sel_base_year
    scenarioVersion: string,      // sel_scenario_version
    scenario: string,             // sel_scenario
    costMethod: string,           // sel_method
    convergenceYear: int,         // sel_convergence_year
    format: string)               // sel_format

  /** A call with every argument left at its default. */
  function DefaultRequest(baseYear: int): Request
  {
    Request("r12", None, baseYear, "updated", "all", "convergence", 2050, "message")
  }

  /** The resolution and reference region the pipeline runs with. */
  datatype Selection = Selection(node: string, refRegion: string)

  /** Lines 37-57: the upper-cased resolution must be R11, R12 or R20; the
      reference region defaults to that resolution's North America region,
      and a given one is upper-cased. */
  function SelectRegions(selNode: string, selRefRegion: Option<string>): (r: Result<Selection, string>)
    ensures r.Err? <==> Upper(selNode) !in RESOLUTIONS
    ensures r.Err? ==> r.error == ERROR_MESSAGE
    ensures r.Ok? ==> r.value.node == Upper(selNode)
    ensures r.Ok? && selRefRegion.None? ==> r.value.refRegion == Upper(selNode) + DEFAULT_REGION_SUFFIX
    ensures r.Ok? && selRefRegion.Some? ==> r.value.refRegion == Upper(selRefRegion.value)
  {
    var nodeUp := Upper(selNode);
    if nodeUp !in RESOLUTIONS then Err(ERROR_MESSAGE)
    else
      var refRegion :=
        match selRefRegion
        case None =>
          if nodeUp == "R11" then "R11_NAM"
          else if nodeUp == "R12" then "R12_NAM"
          else "R20_NAM"
        case Some(region) => Upper(region);
      Ok(Selection(nodeUp, refRegion))
  }

  /** The five stages of the pipeline, whose code is not part of this model,
      as functions over an opaque frame type. */
  datatype Stages<!F> = Stages(
    regionDiff: (string, string, int) -> F,                  // get_weo_region_differentiated_costs
    learning: (F, string, string, int) -> F,                 // project_ref_region_inv_costs_using_learning_rates
    gdpRatios: (F, string, string, int) -> F,                // calculate_gdp_adjusted_region_cost_ratios
    projectAll: (F, F, F, int, string, string) -> F,         // project_all_inv_costs
    finalCosts: (F, string) -> F)                            // get_final_inv_and_fom_costs

  /** What `get_cost_projections` returns: the error string or the cost frame. */
  datatype Answer<F> = Message(text: string) | Costs(frame: F)

  /** Lines 68-97: the stages, each given the resolution as the caller wrote it
      (not upper-cased) and the settled reference region. */
  function RunPipeline<F>(req: Request, refRegion: string, stages: Stages<F>): F
  {
    var regionDiff := stages.regionDiff(req.node, refRegion, req.baseYear);
    var learning := stages.learning(regionDiff, req.node, refRegion, req.baseYear);
    var ratios := stages.gdpRatios(regionDiff, req.node, refRegion, req.baseYear);
    var all := stages.projectAll(regionDiff, learning, ratios, req.convergenceYear,
                                 req.scenarioVersion, req.scenario);
    stages.finalCosts(all, req.costMethod)
  }

  /** `get_cost_projections`. */
  function GetCostProjections<F>(req: Request, stages: Stages<F>): (r: Answer<F>)
    ensures r.Message? <==> Upper(req.node) !in RESOLUTIONS
    ensures r.Message? ==> r.text == ERROR_MESSAGE
    ensures r.Costs? ==> r.frame == RunPipeline(req, SelectRegions(req.node, req.refRegion).value.refRegion, stages)
  {
    match SelectRegions(req.node, req.refRegion)
    case Err(msg) => Message(msg)
    case Ok(sel) => Costs(RunPipeline(req, sel.refRegion, stages))
  }

  /** Only 'r' and 'R' upper-case to 'R'. */
  lemma UpperCharIsR(c: char)
    ensures UpperChar(c) == 'R' <==> c == 'r' || c == 'R'
  {
  }

  /** Only a digit itself upper-cases to that digit. */
  lemma UpperCharIsDigit(c: char, d: char)
    requires '0' <= d <= '9'
    ensures UpperChar(c) == d <==> c == d
  {
  }

  /** A resolution is accepted exactly when it is R11, R12 or R20 in either case. */
  lemma ValidResolutionIff(node: string)
    ensures Upper(node) in RESOLUTIONS <==>
      |node| == 3 && (node[0] == 'r' || node[0] == 'R') && node[1..] in ["11", "12", "20"]
  {
    if |node| == 3 {
      var u := Upper(node);
      assert u == [UpperChar(node[0]), UpperChar(node[1]), UpperChar(node[2])];
      UpperCharIsR(node[0]);
      UpperCharIsDigit(node[1], '1');
      UpperCharIsDigit(node[1], '2');
      UpperCharIsDigit(node[2], '0');
      UpperCharIsDigit(node[2], '1');
      UpperCharIsDigit(node[2], '2');
      assert node[1..] == [node[1], node[2]];
    }
  }

  /** Upper-casing a three-letter resolution, letter by letter. */
  lemma UpperOfThree(a: char, b: char, c: char)
    ensures Upper([a, b, c]) == [UpperChar(a), UpperChar(b), UpperChar(c)]
  {
  }

  /** With no reference region given, each resolution gets its North America
      region, whatever the case of the resolution. */
  lemma DefaultReferenceRegions()
    ensures SelectRegions("R11", None) == Ok(Selection("R11", "R11_NAM"))
    ensures SelectRegions("R12", None) == Ok(Selection("R12", "R12_NAM"))
    ensures SelectRegions("R20", None) == Ok(Selection("R20", "R20_NAM"))
    ensures SelectRegions("r12", None) == Ok(Selection("R12", "R12_NAM"))
  {
    UpperOfThree('R', '1', '1');
    UpperOfThree('R', '1', '2');
    UpperOfThree('R', '2', '0');
    UpperOfThree('r', '1', '2');
  }

  /** A call with all defaults runs the pipeline for R12 with R12_NAM. */
  lemma DefaultRequestRuns<F>(baseYear: int, stages: Stages<F>)
    ensures GetCostProjections(DefaultRequest(baseYear), stages)
      == Costs(RunPipeline(DefaultRequest(baseYear), "R12_NAM", stages))
  {
    DefaultReferenceRegions();
  }

  /** An unknown resolution gives the error string whatever the stages would
      compute: no stage result reaches the answer. */
  lemma RejectionIgnoresStages<F>(req: Request, s1: Stages<F>, s2: Stages<F>)
    requires Upper(req.node) !in RESOLUTIONS
    ensures GetCostProjections(req, s1) == GetCostProjections(req, s2) == Message(ERROR_MESSAGE)
  {
  }

  /** Upper-casing twice is upper-casing once. */
  lemma UpperIdempotent(s: string)
    ensures Upper(Upper(s)) == Upper(s)
  {
    var u := Upper(s);
    forall i | 0 <= i < |u| ensures Upper(u)[i] == u[i] {
      assert !('a' <= u[i] <= 'z');
    }
  }

  /** Feeding a settled selection back in settles on the same selection. */
  lemma SelectionIsStable(selNode: string, selRefRegion: Option<string>)
    requires SelectRegions(selNode, selRefRegion).Ok?
    ensures var sel := SelectRegions(selNode, selRefRegion).value;
      SelectRegions(sel.node, Some(sel.refRegion)) == Ok(sel)
  {
    var sel := SelectRegions(selNode, selRefRegion).value;
    UpperIdempotent(selNode);
    assert Upper(sel.refRegion) == sel.refRegion by {
      match selRefRegion
      case Some(region) =>
        UpperIdempotent(region);
      case None =>
        UpperSuffix(Upper(selNode), DEFAULT_REGION_SUFFIX);
        UpperIdempotent(selNode);
    }
  }

  /** Upper-casing works character by character, so it distributes over
      concatenation. */
  lemma UpperSuffix(a: string, b: string)
    ensures Upper(a + b) == Upper(a) + Upper(b)
  {
  }
}
