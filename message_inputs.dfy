/** `create_message_inputs` (message_ix_models/tools/costs/projections.py):
    the cost projection frame is split into groups by scenario version,
    scenario, technology and region; each group is padded out to the horizon
    and turned into investment-cost and fixed-cost records. */
module MessageInputs {
  import opened Wrappers
  import opened Seqs
  import opened Horizon
  import opened FixedCosts

  /** The (scenario_version, scenario, message_technology, region) of a group. */
  datatype GroupKey = GroupKey(version: string, scenario: string, tech: string, region: string)

  /** The two frames the function returns: `msg_inv` and `msg_fom`. */
  datatype Tables = Tables(inv: seq<InvRecord>, fix: seq<FixRecord>)

  function KeyOf(row: CostRow): GroupKey
  {
    GroupKey(row.version, row.scenario, row.tech, row.region)
  }

  function Versions(rows: seq<CostRow>): (r: seq<string>)
    ensures |r| == |rows| && forall i :: 0 <= i < |rows| ==> r[i] == rows[i].version
  {
    seq(|rows|, i requires 0 <= i < |rows| => rows[i].version)
  }

  function Scenarios(rows: seq<CostRow>): (r: seq<string>)
    ensures |r| == |rows| && forall i :: 0 <= i < |rows| ==> r[i] == rows[i].scenario
  {
    seq(|rows|, i requires 0 <= i < |rows| => rows[i].scenario)
  }

  function Techs(rows: seq<CostRow>): (r: seq<string>)
    ensures |r| == |rows| && forall i :: 0 <= i < |rows| ==> r[i] == rows[i].tech
  {
    seq(|rows|, i requires 0 <= i < |rows| => rows[i].tech)
  }

  function Regions(rows: seq<CostRow>): (r: seq<string>)
    ensures |r| == |rows| && forall i :: 0 <= i < |rows| ==> r[i] == rows[i].region
  {
    seq(|rows|, i requires 0 <= i < |rows| => rows[i].region)
  }

  /** `itertools.product` of four lists, the first varying slowest. */
  function Product(vs: seq<string>, ss: seq<string>, ts: seq<string>, rs: seq<string>): seq<GroupKey>
  {
    var p := Pairs(Pairs(Pairs(vs, ss), ts), rs);
    seq(|p|, i requires 0 <= i < |p| => GroupKey(p[i].0.0.0, p[i].0.0.1, p[i].0.1, p[i].1))
  }

  /** The product has one key per combination, laid out in nesting order:
      the combination (a, b, c, d) sits at ((a * |ss| + b) * |ts| + c) * |rs| + d. */
  lemma ProductAt(vs: seq<string>, ss: seq<string>, ts: seq<string>, rs: seq<string>,
                  a: nat, b: nat, c: nat, d: nat, k: nat)
    requires a < |vs| && b < |ss| && c < |ts| && d < |rs|
    requires k == ((a * |ss| + b) * |ts| + c) * |rs| + d
    ensures k < |Product(vs, ss, ts, rs)| && Product(vs, ss, ts, rs)[k] == GroupKey(vs[a], ss[b], ts[c], rs[d])
  {
    var p1 := Pairs(vs, ss);
    var p2 := Pairs(p1, ts);
    var p3 := Pairs(p2, rs);
    var i1 := a * |ss| + b;
    PairsAt(vs, ss, a, b);
    var i2 := i1 * |ts| + c;
    PairsAt(p1, ts, i1, c);
    PairsAt(p2, rs, i2, d);
    assert k < |p3| && p3[k] == (((vs[a], ss[b]), ts[c]), rs[d]);
  }

  lemma ProductLength(vs: seq<string>, ss: seq<string>, ts: seq<string>, rs: seq<string>)
    ensures |Product(vs, ss, ts, rs)| == |vs| * |ss| * |ts| * |rs|
  {
    PairsLength(vs, ss);
    PairsLength(Pairs(vs, ss), ts);
    PairsLength(Pairs(Pairs(vs, ss), ts), rs);
  }

  /** A key is in the product exactly when each of its parts is in its list. */
  lemma ProductMember(vs: seq<string>, ss: seq<string>, ts: seq<string>, rs: seq<string>, key: GroupKey)
    ensures key in Product(vs, ss, ts, rs) <==>
      key.version in vs && key.scenario in ss && key.tech in ts && key.region in rs
  {
    var p1 := Pairs(vs, ss);
    var p2 := Pairs(p1, ts);
    var p3 := Pairs(p2, rs);
    var t := (((key.version, key.scenario), key.tech), key.region);
    PairsMember(vs, ss, t.0.0);
    PairsMember(p1, ts, t.0);
    PairsMember(p2, rs, t);
    if key in Product(vs, ss, ts, rs) {
      var i :| 0 <= i < |p3| && Product(vs, ss, ts, rs)[i] == key;
      assert p3[i] == t;
    }
    if t in p3 {
      var i :| 0 <= i < |p3| && p3[i] == t;
      assert Product(vs, ss, ts, rs)[i] == key;
    }
  }

  /** The groups visited: the product of the unique values of the four key
      columns, each in order of first appearance. */
  function GroupKeys(rows: seq<CostRow>): seq<GroupKey>
  {
    Product(Unique(Versions(rows)), Unique(Scenarios(rows)), Unique(Techs(rows)), Unique(Regions(rows)))
  }

  /** A key is visited exactly when each of its four values occurs in the frame,
      not necessarily in the same row. */
  lemma GroupKeysMember(rows: seq<CostRow>, key: GroupKey)
    ensures key in GroupKeys(rows) <==>
      && (exists i :: 0 <= i < |rows| && rows[i].version == key.version)
      && (exists i :: 0 <= i < |rows| && rows[i].scenario == key.scenario)
      && (exists i :: 0 <= i < |rows| && rows[i].tech == key.tech)
      && (exists i :: 0 <= i < |rows| && rows[i].region == key.region)
  {
    var vs, ss, ts, rs := Versions(rows), Scenarios(rows), Techs(rows), Regions(rows);
    ProductMember(Unique(vs), Unique(ss), Unique(ts), Unique(rs), key);
    assert key.version in vs <==> exists i :: 0 <= i < |rows| && rows[i].version == key.version by {
      if key.version in vs {
        var i :| 0 <= i < |vs| && vs[i] == key.version;
      }
    }
    assert key.scenario in ss <==> exists i :: 0 <= i < |rows| && rows[i].scenario == key.scenario by {
      if key.scenario in ss {
        var i :| 0 <= i < |ss| && ss[i] == key.scenario;
      }
    }
    assert key.tech in ts <==> exists i :: 0 <= i < |rows| && rows[i].tech == key.tech by {
      if key.tech in ts {
        var i :| 0 <= i < |ts| && ts[i] == key.tech;
      }
    }
    assert key.region in rs <==> exists i :: 0 <= i < |rows| && rows[i].region == key.region by {
      if key.region in rs {
        var i :| 0 <= i < |rs| && rs[i] == key.region;
      }
    }
  }

  lemma PositiveProduct(a: nat, b: nat, c: nat, d: nat)
    requires a > 0 && b > 0 && c > 0 && d > 0
    ensures a * b * c * d > 0
  {
    assert a * b >= 1;
    assert a * b * c >= 1;
  }

  /** There is a group to visit exactly when the frame has a row. */
  lemma GroupKeysEmptyIff(rows: seq<CostRow>)
    ensures GroupKeys(rows) == [] <==> rows == []
  {
    var vs, ss, ts, rs := Unique(Versions(rows)), Unique(Scenarios(rows)), Unique(Techs(rows)), Unique(Regions(rows));
    ProductLength(vs, ss, ts, rs);
    if rows != [] {
      assert |vs| > 0 && |ss| > 0 && |ts| > 0 && |rs| > 0 by {
        assert Versions(rows)[0] in vs && Scenarios(rows)[0] in ss;
        assert Techs(rows)[0] in ts && Regions(rows)[0] in rs;
      }
      PositiveProduct(|vs|, |ss|, |ts|, |rs|);
    } else {
      assert vs == [] by {
        assert Versions(rows) == [];
      }
    }
  }

  /** `df_proj.query(...)` for one key: the rows of that group, in order. */
  function InGroup(rows: seq<CostRow>, key: GroupKey): (r: seq<CostRow>)
    ensures forall x :: x in r <==> x in rows && KeyOf(x) == key
  {
    if rows == [] then []
    else (if KeyOf(rows[0]) == key then [rows[0]] else []) + InGroup(rows[1..], key)
  }

  /** `tech_inv` and `tech_fom` of one group, or the failure that stops the call. */
  function GroupRecords(group: seq<CostRow>, cfg: Config): Result<Tables, Failure>
  {
    if HistYears(cfg) == [] || FutYears(cfg) == [] then Err(NothingToConcatenate)
    else GroupTables(Padded(group, cfg))
  }

  /** The records of a padded group, or the vintage without an initial value. */
  function GroupTables(padded: seq<CostRow>): Result<Tables, Failure>
  {
    match FixTriangle(padded, SeqYears())
    case Err(e) => Err(e)
    case Ok(fix) => Ok(Tables(InvRecords(padded), fix))
  }

  /** The result of each visited group, in visiting order. */
  function GroupResults(rows: seq<CostRow>, keys: seq<GroupKey>, cfg: Config): (r: seq<Result<Tables, Failure>>)
    ensures |r| == |keys|
    ensures forall k :: 0 <= k < |keys| ==> r[k] == GroupRecords(InGroup(rows, keys[k]), cfg)
  {
    seq(|keys|, k requires 0 <= k < |keys| => GroupRecords(InGroup(rows, keys[k]), cfg))
  }

  /** The loop over the groups: each group's records appended after the
      previous ones; the first failing group stops the loop. */
  function Collect(results: seq<Result<Tables, Failure>>): Result<Tables, Failure>
  {
    if results == [] then Ok(Tables([], []))
    else
      var n := |results| - 1;
      match Collect(results[..n])
      case Err(e) => Err(e)
      case Ok(t) =>
        match results[n]
        case Err(e) => Err(e)
        case Ok(g) => Ok(Tables(t.inv + g.inv, t.fix + g.fix))
  }

  /** `create_message_inputs`: with no group at all the final `pd.concat`
      has nothing to concatenate. */
  function MessageInputs(rows: seq<CostRow>, cfg: Config): Result<Tables, Failure>
  {
    var keys := GroupKeys(rows);
    if keys == [] then Err(NothingToConcatenate) else Collect(GroupResults(rows, keys, cfg))
  }

  /** The `l_hist` / `l_fut` loop: one frame per padding year, holding the
      group's anchor-year rows re-dated to that year. */
  method PadFrames(group: seq<CostRow>, anchor: int, years: seq<int>) returns (frames: seq<seq<CostRow>>)
    ensures frames == PadBlocks(group, anchor, years)
  {
    frames := [];
    for i := 0 to |years|
      invariant frames == PadBlocks(group, anchor, years[..i])
    {
      assert years[..i + 1][..i] == years[..i];
      frames := frames + [Retimed(AtYear(group, anchor), years[i])];
    }
    assert years[..|years|] == years;
  }

  /** The `l_fom_updated` loop over the vintages, concatenated into `tech_fom`:
      each vintage looks up its initial value (failing where `.values[0]`
      finds nothing) and contributes one record per row from the vintage on. */
  method BuildFom(costsTot: seq<CostRow>, seqYears: seq<int>) returns (res: Result<seq<FixRecord>, Failure>)
    ensures res == FixTriangle(costsTot, seqYears)
  {
    var lFom: seq<seq<FixRecord>> := [];
    for n := 0 to |seqYears|
      invariant FixTriangle(costsTot, seqYears[..n]) == Ok(Flatten(lFom))
    {
      var y := seqYears[n];
      var fom := FromYear(costsTot, y);
      var at := if y <= DECAY_START then AtYear(fom, DECAY_START) else AtYear(fom, y);
      TriangleStep(costsTot, seqYears[..n + 1]);
      assert seqYears[..n + 1][..n] == seqYears[..n];
      if at == [] {
        TriangleErrPersists(costsTot, seqYears, n + 1);
        return Err(NoInitialValue(y));
      }
      var initVal := at[0].fixCost;
      var fomUpdated := FixBlock(fom, y, initVal);
      assert (lFom + [fomUpdated])[..|lFom|] == lFom;
      lFom := lFom + [fomUpdated];
    }
    assert seqYears[..|seqYears|] == seqYears;
    res := Ok(Flatten(lFom));
  }

  /** The loop body for one group: `tech_inv` and `tech_fom`. */
  method BuildGroup(group: seq<CostRow>, cfg: Config) returns (res: Result<Tables, Failure>)
    ensures res == GroupRecords(group, cfg)
  {
    var seqYears := SeqYears();
    var histYears := SmallerThan(seqYears, cfg.baseYear - 5);
    var futYears := LargerThan(seqYears, cfg.lastModelYear);
    var lHist := PadFrames(group, HIST_ANCHOR, histYears);
    var lFut := PadFrames(group, FUT_ANCHOR, futYears);
    if lHist == [] || lFut == [] {
      assert |lHist| == |HistYears(cfg)| && |lFut| == |FutYears(cfg)|;
      return Err(NothingToConcatenate);
    }
    var costsTot := Flatten(lHist) + group + Flatten(lFut);
    assert GroupRecords(group, cfg) == GroupTables(costsTot) by {
      assert HistYears(cfg) != [] && FutYears(cfg) != [];
      assert costsTot == Padded(group, cfg);
    }
    var techInv := InvRecords(costsTot);
    var techFom := BuildFom(costsTot, seqYears);
    if techFom.Err? {
      return Err(techFom.error);
    }
    res := Ok(Tables(techInv, techFom.value));
  }

  /** Once a prefix of the groups fails, the whole loop fails the same way. */
  lemma {:induction false} CollectErrPersists(results: seq<Result<Tables, Failure>>, k: nat)
    requires k <= |results| && Collect(results[..k]).Err?
    ensures Collect(results) == Collect(results[..k])
  {
    if k < |results| {
      var n := |results| - 1;
      assert results[..n][..k] == results[..k];
      CollectErrPersists(results[..n], k);
    } else {
      assert results[..k] == results;
    }
  }

  /** One more group: its records are appended, or its failure ends the loop. */
  lemma CollectStep(results: seq<Result<Tables, Failure>>, n: nat)
    requires n < |results| && Collect(results[..n]).Ok?
    ensures var t := Collect(results[..n]).value;
      Collect(results[..n + 1])
        == if results[n].Err? then Err(results[n].error)
           else Ok(Tables(t.inv + results[n].value.inv, t.fix + results[n].value.fix))
  {
    assert results[..n + 1][..n] == results[..n];
  }

  /** One more successful group: its frames are appended to `l_inv` and `l_fix`. */
  lemma CollectAppend(results: seq<Result<Tables, Failure>>, n: nat,
                      lInv: seq<seq<InvRecord>>, lFix: seq<seq<FixRecord>>)
    requires n < |results| && results[n].Ok?
    requires Collect(results[..n]) == Ok(Tables(Flatten(lInv), Flatten(lFix)))
    ensures Collect(results[..n + 1])
      == Ok(Tables(Flatten(lInv + [results[n].value.inv]), Flatten(lFix + [results[n].value.fix])))
  {
    CollectStep(results, n);
    assert (lInv + [results[n].value.inv])[..|lInv|] == lInv;
    assert (lFix + [results[n].value.fix])[..|lFix|] == lFix;
  }

  /** A failing group makes the whole loop fail. */
  lemma {:induction false} CollectFailureStops(results: seq<Result<Tables, Failure>>, k: nat)
    requires k < |results| && results[k].Err?
    ensures Collect(results).Err?
  {
    var n := |results| - 1;
    if k < n {
      assert results[..n][k] == results[k];
      CollectFailureStops(results[..n], k);
    }
  }

  /** The loop succeeds exactly when every group does. */
  lemma {:induction false} CollectOkIff(results: seq<Result<Tables, Failure>>)
    ensures Collect(results).Ok? <==> forall k :: 0 <= k < |results| ==> results[k].Ok?
  {
    if results != [] {
      var n := |results| - 1;
      CollectOkIff(results[..n]);
      assert forall k :: 0 <= k < n ==> results[..n][k] == results[k];
    }
  }

  /** The investment frames of the groups, in visiting order (empty for a
      failing group). */
  function InvParts(results: seq<Result<Tables, Failure>>): (r: seq<seq<InvRecord>>)
    ensures |r| == |results|
  {
    if results == [] then []
    else
      var n := |results| - 1;
      InvParts(results[..n]) + [if results[n].Ok? then results[n].value.inv else []]
  }

  /** The fixed-cost frames of the groups, in visiting order (empty for a
      failing group). */
  function FixParts(results: seq<Result<Tables, Failure>>): (r: seq<seq<FixRecord>>)
    ensures |r| == |results|
  {
    if results == [] then []
    else
      var n := |results| - 1;
      FixParts(results[..n]) + [if results[n].Ok? then results[n].value.fix else []]
  }

  /** Entry k of the parts is group k's frames when that group succeeds. */
  lemma {:induction false} PartsAt(results: seq<Result<Tables, Failure>>, k: nat)
    requires k < |results| && results[k].Ok?
    ensures InvParts(results)[k] == results[k].value.inv
    ensures FixParts(results)[k] == results[k].value.fix
  {
    var n := |results| - 1;
    if k < n {
      assert results[..n][k] == results[k];
      PartsAt(results[..n], k);
    }
  }

  /** When every group succeeds, the result is every group's investment frame
      and every group's fixed-cost frame, concatenated in visiting order. */
  lemma {:induction false} CollectFlattens(results: seq<Result<Tables, Failure>>)
    requires forall k :: 0 <= k < |results| ==> results[k].Ok?
    ensures Collect(results) == Ok(Tables(Flatten(InvParts(results)), Flatten(FixParts(results))))
  {
    if results != [] {
      var n := |results| - 1;
      var front := results[..n];
      assert forall k :: 0 <= k < n ==> front[k] == results[k];
      CollectFlattens(front);
      var inv, fix := InvParts(results), FixParts(results);
      assert inv[..n] == InvParts(front);
      assert fix[..n] == FixParts(front);
    }
  }

  /** `create_message_inputs` returns its frames exactly when the input frame
      is not empty and every visited group finds all its initial values. */
  lemma MessageInputsOkIff(rows: seq<CostRow>, cfg: Config)
    ensures MessageInputs(rows, cfg).Ok? <==>
      rows != [] &&
      forall k :: 0 <= k < |GroupKeys(rows)| ==> GroupRecords(InGroup(rows, GroupKeys(rows)[k]), cfg).Ok?
  {
    GroupKeysEmptyIff(rows);
    CollectOkIff(GroupResults(rows, GroupKeys(rows), cfg));
  }

  /** Every investment record of the loop's result comes from one group. */
  lemma {:induction false} CollectInvMember(results: seq<Result<Tables, Failure>>, r: InvRecord)
    requires Collect(results).Ok? && r in Collect(results).value.inv
    ensures exists k :: 0 <= k < |results| && results[k].Ok? && r in results[k].value.inv
  {
    var n := |results| - 1;
    if r in Collect(results[..n]).value.inv {
      CollectInvMember(results[..n], r);
      var k :| 0 <= k < n && results[..n][k].Ok? && r in results[..n][k].value.inv;
      assert results[..n][k] == results[k];
    } else {
      assert results[n].Ok? && r in results[n].value.inv;
    }
  }

  /** Every fixed-cost record of the loop's result comes from one group. */
  lemma {:induction false} CollectFixMember(results: seq<Result<Tables, Failure>>, f: FixRecord)
    requires Collect(results).Ok? && f in Collect(results).value.fix
    ensures exists k :: 0 <= k < |results| && results[k].Ok? && f in results[k].value.fix
  {
    var n := |results| - 1;
    if f in Collect(results[..n]).value.fix {
      CollectFixMember(results[..n], f);
      var k :| 0 <= k < n && results[..n][k].Ok? && f in results[..n][k].value.fix;
      assert results[..n][k] == results[k];
    } else {
      assert results[n].Ok? && f in results[n].value.fix;
    }
  }

  /** `create_message_inputs`: the unique values of the four key columns, in
      order of first appearance, and the groups of their product. */
  method CreateMessageInputs(rows: seq<CostRow>, cfg: Config) returns (res: Result<Tables, Failure>)
    ensures res == MessageInputs(rows, cfg)
  {
    var unVers := Unique(Versions(rows));
    var unScen := Unique(Scenarios(rows));
    var unTech := Unique(Techs(rows));
    var unReg := Unique(Regions(rows));
    var keys := Product(unVers, unScen, unTech, unReg);
    assert keys == GroupKeys(rows);
    res := ConcatGroups(rows, keys, cfg);
  }

  /** The loop over the groups, appending each group's frames to `l_inv` and
      `l_fix` and concatenating them at the end; the first failing group, or
      an empty list of groups, ends it with that failure. */
  method ConcatGroups(rows: seq<CostRow>, keys: seq<GroupKey>, cfg: Config) returns (res: Result<Tables, Failure>)
    ensures keys == [] ==> res == Err(NothingToConcatenate)
    ensures keys != [] ==> res == Collect(GroupResults(rows, keys, cfg))
  {
    ghost var results := GroupResults(rows, keys, cfg);
    var lInv: seq<seq<InvRecord>> := [];
    var lFix: seq<seq<FixRecord>> := [];
    for n := 0 to |keys|
      invariant |lInv| == n
      invariant Collect(results[..n]) == Ok(Tables(Flatten(lInv), Flatten(lFix)))
    {
      var tech := InGroup(rows, keys[n]);
      var g := BuildGroup(tech, cfg);
      assert results[n] == g;
      if g.Err? {
        assert Collect(results[..n + 1]) == Err(g.error) by {
          CollectStep(results, n);
        }
        CollectErrPersists(results, n + 1);
        return Err(g.error);
      }
      CollectAppend(results, n, lInv, lFix);
      lInv := lInv + [g.value.inv];
      lFix := lFix + [g.value.fix];
    }
    assert results[..|keys|] == results;
    if lInv == [] {
      return Err(NothingToConcatenate);
    }
    res := Ok(Tables(Flatten(lInv), Flatten(lFix)));
  }

  /** An empty frame has no group, so the final `pd.concat` fails. */
  lemma EmptyFrameFails(rows: seq<CostRow>, cfg: Config)
    requires rows == []
    ensures MessageInputs(rows, cfg) == Err(NothingToConcatenate)
  {
    GroupKeysEmptyIff(rows);
  }

  /** The horizon is too short to pad when BASE_YEAR - 5 is at most 1960 or
      LAST_MODEL_YEAR at least 2110: the first group's `pd.concat` of the
      empty padding list fails. */
  lemma ShortHorizonFails(rows: seq<CostRow>, cfg: Config)
    requires cfg.baseYear - 5 <= HORIZON_START || cfg.lastModelYear >= HORIZON_END
    ensures MessageInputs(rows, cfg) == Err(NothingToConcatenate)
  {
    HorizonEmptyIff(cfg);
    var keys := GroupKeys(rows);
    if keys != [] {
      var results := GroupResults(rows, keys, cfg);
      assert Collect(results[..1]) == Err(NothingToConcatenate) by {
        assert results[..1][..0] == [];
      }
      CollectErrPersists(results, 1);
    } else {
      GroupKeysEmptyIff(rows);
    }
  }

  /** Without a 2020 row in the group, the padded frame has none either when
      LAST_MODEL_YEAR >= 2020: the future padding only has later years. */
  lemma NoAnchorRowPadded(group: seq<CostRow>, cfg: Config)
    requires AtYear(group, HIST_ANCHOR) == [] && cfg.lastModelYear >= HIST_ANCHOR
    ensures AtYear(Padded(group, cfg), HIST_ANCHOR) == []
  {
    var fut := Padding(group, FUT_ANCHOR, FutYears(cfg));
    assert Padded(group, cfg) == group + fut by {
      NoAnchorNoPadding(group, HIST_ANCHOR, HistYears(cfg));
    }
    assert AtYear(fut, HIST_ANCHOR) == [] by {
      FutPaddingLater(group, cfg);
      NoRowOfYear(fut, HIST_ANCHOR);
    }
    AtYearConcat(group, fut, HIST_ANCHOR);
  }

  /** A padded frame without a 2020 row fails at the first vintage, 1960. */
  lemma NoAnchorTriangle(padded: seq<CostRow>)
    requires AtYear(padded, HIST_ANCHOR) == []
    ensures FixTriangle(padded, SeqYears()) == Err(NoInitialValue(HORIZON_START))
  {
    var vs := SeqYears();
    assert vs[0] == HORIZON_START;
    TriangleStep(padded, vs[..1]);
    assert vs[..1][..0] == [];
    TriangleErrPersists(padded, vs, 1);
  }

  /** A group without a 2020 row fails at the first vintage, 1960, when the
      future padding cannot supply a 2020 row either (LAST_MODEL_YEAR >= 2020). */
  lemma MissingAnchorFails(group: seq<CostRow>, cfg: Config)
    requires HistYears(cfg) != [] && FutYears(cfg) != []
    requires AtYear(group, HIST_ANCHOR) == [] && cfg.lastModelYear >= HIST_ANCHOR
    ensures GroupRecords(group, cfg) == Err(NoInitialValue(HORIZON_START))
  {
    NoAnchorRowPadded(group, cfg);
    NoAnchorTriangle(Padded(group, cfg));
  }

  /** A combination of key values that no row has is still visited; its
      empty group has no 2020 row, so the whole call fails. */
  lemma AbsentCombinationFails(rows: seq<CostRow>, cfg: Config, key: GroupKey)
    requires key in GroupKeys(rows) && InGroup(rows, key) == []
    requires HistYears(cfg) != [] && FutYears(cfg) != [] && cfg.lastModelYear >= HIST_ANCHOR
    ensures MessageInputs(rows, cfg).Err?
  {
    var keys := GroupKeys(rows);
    var k :| 0 <= k < |keys| && keys[k] == key;
    MissingAnchorFails([], cfg);
    CollectFailureStops(GroupResults(rows, keys, cfg), k);
  }

  /** A group as the projection stages deliver it, on a horizon long enough to
      pad, finds the initial value of every vintage: its records are built. */
  lemma OnGridSucceeds(group: seq<CostRow>, cfg: Config)
    requires OnGrid(group, cfg) && HistYears(cfg) != [] && FutYears(cfg) != []
    ensures GroupRecords(group, cfg).Ok?
  {
    var padded := Padded(group, cfg);
    var vs := SeqYears();
    PaddedYears(group, cfg);
    SeqYearsShape();
    forall k | 0 <= k < |vs| ensures InitVal(padded, vs[k]).Some? {
      assert InitYear(vs[k]) in Years(padded);
      RowAtYear(padded, InitYear(vs[k]));
    }
    TriangleOkIff(padded, vs);
  }

  /** The records of a group that builds: the investment records of the padded
      frame and the vintage triangle over the grid. */
  lemma GroupRecordsOk(group: seq<CostRow>, cfg: Config)
    requires GroupRecords(group, cfg).Ok?
    ensures HistYears(cfg) != [] && FutYears(cfg) != []
    ensures GroupRecords(group, cfg).value.inv == InvRecords(Padded(group, cfg))
    ensures FixTriangle(Padded(group, cfg), SeqYears()).Ok?
    ensures GroupRecords(group, cfg).value.fix == FixTriangle(Padded(group, cfg), SeqYears()).value
  {
  }

  /** The investment records of an on-grid group are those of its padded frame. */
  lemma OnGridInv(group: seq<CostRow>, cfg: Config)
    requires OnGrid(group, cfg) && HistYears(cfg) != [] && FutYears(cfg) != []
    ensures GroupRecords(group, cfg).Ok?
    ensures GroupRecords(group, cfg).value.inv == InvRecords(Padded(group, cfg))
  {
    OnGridSucceeds(group, cfg);
    GroupRecordsOk(group, cfg);
  }

  /** The investment records of an on-grid padded frame follow the grid. */
  lemma PaddedInvVintages(group: seq<CostRow>, cfg: Config)
    requires OnGrid(group, cfg)
    ensures var inv := InvRecords(Padded(group, cfg));
      |inv| == |SeqYears()| &&
      forall k :: 0 <= k < |inv| ==> inv[k].yearVtg == SeqYears()[k] && inv[k].unit == UNIT
  {
    var padded := Padded(group, cfg);
    PaddedYears(group, cfg);
    assert forall k :: 0 <= k < |padded| ==> Years(padded)[k] == padded[k].year;
  }

  /** An on-grid group gets one investment record per grid year, dated by
      that year as vintage, in grid order. */
  lemma GroupInvVintages(group: seq<CostRow>, cfg: Config)
    requires OnGrid(group, cfg) && HistYears(cfg) != [] && FutYears(cfg) != []
    ensures GroupRecords(group, cfg).Ok?
    ensures var inv := GroupRecords(group, cfg).value.inv;
      |inv| == |SeqYears()| &&
      forall k :: 0 <= k < |inv| ==> inv[k].yearVtg == SeqYears()[k] && inv[k].unit == UNIT
  {
    OnGridInv(group, cfg);
    PaddedInvVintages(group, cfg);
  }

  /** The padded frame repeats the 2020 row's investment cost before
      BASE_YEAR - 5 and the 2100 row's after LAST_MODEL_YEAR. */
  lemma PaddedInvCosts(group: seq<CostRow>, cfg: Config)
    requires OnGrid(group, cfg)
    ensures |AtYear(group, HIST_ANCHOR)| == 1 && |AtYear(group, FUT_ANCHOR)| == 1
    ensures var padded := Padded(group, cfg);
      var h, g := |HistYears(cfg)|, |group|;
      |padded| == h + g + |FutYears(cfg)| &&
      (forall k :: 0 <= k < h ==> padded[k].invCost == AtYear(group, HIST_ANCHOR)[0].invCost) &&
      (forall k :: h + g <= k < |padded| ==> padded[k].invCost == AtYear(group, FUT_ANCHOR)[0].invCost)
  {
    assert |AtYear(group, HIST_ANCHOR)| == 1 && |AtYear(group, FUT_ANCHOR)| == 1 by {
      OnGridAnchors(group, cfg);
    }
    var padded, h, g := Padded(group, cfg), |HistYears(cfg)|, |group|;
    PaddedHistPart(group, cfg);
    PaddedFutPart(group, cfg);
  }

  /** Before BASE_YEAR - 5 the investment records repeat the group's 2020
      investment cost; after LAST_MODEL_YEAR they repeat its 2100 one. */
  lemma GroupInvPadding(group: seq<CostRow>, cfg: Config)
    requires OnGrid(group, cfg) && HistYears(cfg) != [] && FutYears(cfg) != []
    ensures GroupRecords(group, cfg).Ok?
    ensures |AtYear(group, HIST_ANCHOR)| == 1 && |AtYear(group, FUT_ANCHOR)| == 1
    ensures var inv := GroupRecords(group, cfg).value.inv;
      var h, g := |HistYears(cfg)|, |group|;
      |inv| == h + g + |FutYears(cfg)| &&
      (forall k :: 0 <= k < h ==> inv[k].value == AtYear(group, HIST_ANCHOR)[0].invCost) &&
      (forall k :: h + g <= k < |inv| ==> inv[k].value == AtYear(group, FUT_ANCHOR)[0].invCost)
  {
    OnGridInv(group, cfg);
    PaddedInvCosts(group, cfg);
  }

  /** The group's own rows sit unchanged between the padding. */
  lemma PaddedOwnRows(group: seq<CostRow>, cfg: Config)
    requires OnGrid(group, cfg)
    ensures var padded := Padded(group, cfg);
      var h := |HistYears(cfg)|;
      |padded| == h + |group| + |FutYears(cfg)| &&
      forall k :: 0 <= k < |group| ==> padded[h + k] == group[k]
  {
    assert |AtYear(group, HIST_ANCHOR)| == 1 && |AtYear(group, FUT_ANCHOR)| == 1 by {
      OnGridAnchors(group, cfg);
    }
    PaddedGroupPart(group, cfg);
  }

  /** Between the padding, each of the group's own rows gives its own
      investment record, in order. */
  lemma GroupInvOwnRows(group: seq<CostRow>, cfg: Config)
    requires OnGrid(group, cfg) && HistYears(cfg) != [] && FutYears(cfg) != []
    ensures GroupRecords(group, cfg).Ok?
    ensures var inv := GroupRecords(group, cfg).value.inv;
      var h := |HistYears(cfg)|;
      |inv| == h + |group| + |FutYears(cfg)| &&
      forall k :: 0 <= k < |group| ==>
        inv[h + k] == InvRecord(group[k].version, group[k].scenario, group[k].region,
                                group[k].tech, group[k].year, group[k].invCost, UNIT)
  {
    OnGridInv(group, cfg);
    PaddedOwnRows(group, cfg);
  }

  /** The fixed-cost records of vintage y of a group are one record per padded
      row from year y on, in the padded order. */
  lemma GroupFixByVintage(group: seq<CostRow>, cfg: Config, y: int)
    requires GroupRecords(group, cfg).Ok? && y in SeqYears()
    ensures InitVal(Padded(group, cfg), y).Some?
    ensures WithVintage(GroupRecords(group, cfg).value.fix, y)
      == FixBlock(FromYear(Padded(group, cfg), y), y, InitVal(Padded(group, cfg), y).value)
  {
    GroupRecordsOk(group, cfg);
    SeqYearsShape();
    TriangleByVintage(Padded(group, cfg), SeqYears(), y);
  }

  /** The investment records of one group carry the unit and the group's key. */
  lemma GroupInvKey(group: seq<CostRow>, cfg: Config, key: GroupKey, r: InvRecord)
    requires forall y :: y in group ==> KeyOf(y) == key
    requires GroupRecords(group, cfg).Ok? && r in GroupRecords(group, cfg).value.inv
    ensures r.unit == UNIT
    ensures GroupKey(r.scenarioVersion, r.scenario, r.technology, r.nodeLoc) == key
  {
    GroupRecordsOk(group, cfg);
    var padded := Padded(group, cfg);
    var i :| 0 <= i < |padded| && InvRecords(padded)[i] == r;
    PaddedRowKey(group, cfg, key, padded[i]);
  }

  /** The fixed-cost records of one group have a vintage on the grid, an
      activity year no earlier than it, the unit and the group's key. */
  lemma GroupFixKey(group: seq<CostRow>, cfg: Config, key: GroupKey, f: FixRecord)
    requires forall y :: y in group ==> KeyOf(y) == key
    requires GroupRecords(group, cfg).Ok? && f in GroupRecords(group, cfg).value.fix
    ensures f.yearVtg in SeqYears() && f.yearAct >= f.yearVtg && f.unit == UNIT
    ensures GroupKey(f.scenarioVersion, f.scenario, f.technology, f.nodeLoc) == key
  {
    GroupRecordsOk(group, cfg);
    var padded := Padded(group, cfg);
    TriangleShape(padded, SeqYears(), f);
    TriangleMember(padded, SeqYears(), f);
    var row :| row in FromYear(padded, f.yearVtg)
      && f == FixRecordOf(row, f.yearVtg, InitVal(padded, f.yearVtg).value);
    PaddedRowKey(group, cfg, key, row);
  }

  /** Every investment record of the result carries the unit and the key of
      a group of the frame. */
  lemma InputsInvRecord(rows: seq<CostRow>, cfg: Config, r: InvRecord)
    requires MessageInputs(rows, cfg).Ok? && r in MessageInputs(rows, cfg).value.inv
    ensures r.unit == UNIT
    ensures GroupKey(r.scenarioVersion, r.scenario, r.technology, r.nodeLoc) in GroupKeys(rows)
  {
    var keys := GroupKeys(rows);
    var results := GroupResults(rows, keys, cfg);
    CollectInvMember(results, r);
    var k :| 0 <= k < |results| && results[k].Ok? && r in results[k].value.inv;
    GroupInvKey(InGroup(rows, keys[k]), cfg, keys[k], r);
  }

  /** Every fixed-cost record of the result has a vintage on the grid, an
      activity year no earlier than its vintage, the unit, and the key of a
      group of the frame. */
  lemma InputsFixRecord(rows: seq<CostRow>, cfg: Config, f: FixRecord)
    requires MessageInputs(rows, cfg).Ok? && f in MessageInputs(rows, cfg).value.fix
    ensures f.yearVtg in SeqYears() && f.yearAct >= f.yearVtg && f.unit == UNIT
    ensures GroupKey(f.scenarioVersion, f.scenario, f.technology, f.nodeLoc) in GroupKeys(rows)
  {
    var keys := GroupKeys(rows);
    var results := GroupResults(rows, keys, cfg);
    CollectFixMember(results, f);
    var k :| 0 <= k < |results| && results[k].Ok? && f in results[k].value.fix;
    GroupFixKey(InGroup(rows, keys[k]), cfg, keys[k], f);
  }

  /** Every row of a padded group carries the group's key. */
  lemma PaddedRowKey(group: seq<CostRow>, cfg: Config, key: GroupKey, x: CostRow)
    requires forall y :: y in group ==> KeyOf(y) == key
    requires x in Padded(group, cfg)
    ensures KeyOf(x) == key
  {
    PaddingRowKey(group, HIST_ANCHOR, HistYears(cfg), x);
    PaddingRowKey(group, FUT_ANCHOR, FutYears(cfg), x);
  }

  lemma PaddingRowKey(group: seq<CostRow>, anchor: int, years: seq<int>, x: CostRow)
    ensures x in Padding(group, anchor, years) ==>
      exists y :: y in group && x == y.(year := x.year)
  {
    if x in Padding(group, anchor, years) {
      var blocks := PadBlocks(group, anchor, years);
      var i :| 0 <= i < |blocks| && x in blocks[i];
      var rows := AtYear(group, anchor);
      var j :| 0 <= j < |rows| && Retimed(rows, years[i])[j] == x;
      assert rows[j] in rows;
    }
  }
}
