/** The investment-cost and fixed-cost records that `create_message_inputs`
    builds from one padded group (message_ix_models/tools/costs/projections.py). */
module FixedCosts {
  import opened Wrappers
  import opened Horizon

  /** The unit written on every record. */
  const UNIT := "USD/kWa"
  /** Fixed costs fall by 0.25 % per year after the vintage. */
  const DECAY: real := 1.0 - 0.0025
  /** Activity years up to this one keep their own fixed cost; it is also the
      year whose fixed cost starts the decay of the vintages up to it. */
  const DECAY_START := 2020
  /** Last year of the decay table that is merged onto the rows (`range(y, 2111)`). */
  const DECAY_END := 2110

  /** A cell of the `value` column; `Missing` is pandas' NaN. */
  datatype Cell = Value(amount: real) | Missing

  /** A row of the investment-cost output. */
  datatype InvRecord = InvRecord(
    scenarioVersion: string,
    scenario: string,
    nodeLoc: string,
    technology: string,
    yearVtg: int,
    value: real,
    unit: string)

  /** A row of the fixed-cost output. */
  datatype FixRecord = FixRecord(
    scenarioVersion: string,
    scenario: string,
    nodeLoc: string,
    technology: string,
    yearVtg: int,
    yearAct: int,
    value: Cell,
    unit: string)

  /** Why `create_message_inputs` raises: `pd.concat` of an empty list, or
      `.values[0]` of an empty selection while looking up a vintage's initial value. */
  datatype Failure = NothingToConcatenate | NoInitialValue(vintage: int)

  /** An initial value after n years of decay. */
  function Decayed(init: real, n: nat): real
  {
    if n == 0 then init else DECAY * Decayed(init, n - 1)
  }

  /** Decaying m years and then n more is decaying m + n years. */
  lemma {:induction false} DecayedAdd(init: real, m: nat, n: nat)
    ensures Decayed(Decayed(init, m), n) == Decayed(init, m + n)
  {
    if n > 0 {
      DecayedAdd(init, m, n - 1);
    }
  }

  /** Decay keeps a non-negative value non-negative and never raises it. */
  lemma {:induction false} DecayedBounds(init: real, n: nat)
    requires init >= 0.0
    ensures 0.0 <= Decayed(init, n) <= init
  {
    if n > 0 {
      DecayedBounds(init, n - 1);
    }
  }

  /** The investment record of one padded row. */
  function InvRecordOf(row: CostRow): InvRecord
  {
    InvRecord(row.version, row.scenario, row.region, row.tech, row.year, row.invCost, UNIT)
  }

  /** `tech_inv`: one record per padded row, dated by the row's year as vintage. */
  function InvRecords(padded: seq<CostRow>): (r: seq<InvRecord>)
    ensures |r| == |padded|
    ensures forall i :: 0 <= i < |padded| ==>
      && r[i].scenarioVersion == padded[i].version && r[i].scenario == padded[i].scenario
      && r[i].nodeLoc == padded[i].region && r[i].technology == padded[i].tech
      && r[i].yearVtg == padded[i].year && r[i].value == padded[i].invCost && r[i].unit == UNIT
  {
    seq(|padded|, i requires 0 <= i < |padded| => InvRecordOf(padded[i]))
  }

  /** The year whose fixed cost starts the decay of a vintage. */
  function InitYear(vintage: int): int
  {
    if vintage <= DECAY_START then DECAY_START else vintage
  }

  /** `init_val`: the fixed cost of the first row of the initial year among
      the rows from the vintage on; None where `.values[0]` would fail. */
  function InitVal(padded: seq<CostRow>, vintage: int): (r: Option<real>)
    ensures r.None? <==> AtYear(padded, InitYear(vintage)) == []
    ensures r.Some? ==> r.value == AtYear(padded, InitYear(vintage))[0].fixCost
  {
    var fom := FromYear(padded, vintage);
    var at := if vintage <= DECAY_START then AtYear(fom, DECAY_START) else AtYear(fom, vintage);
    AtYearFromYear(padded, vintage, InitYear(vintage));
    if at == [] then None else Some(at[0].fixCost)
  }

  /** The `value` of a fixed-cost record: the row's own fixed cost up to 2020,
      afterwards the initial value decayed for every year since the vintage;
      NaN where the decay table has no year. */
  function FixValue(year: int, fixCost: real, vintage: int, init: real): Cell
  {
    if year <= DECAY_START then Value(fixCost)
    else if vintage <= year <= DECAY_END then Value(Decayed(init, year - vintage))
    else Missing
  }

  function FixRecordOf(row: CostRow, vintage: int, init: real): FixRecord
  {
    FixRecord(row.version, row.scenario, row.region, row.tech, vintage, row.year,
              FixValue(row.year, row.fixCost, vintage, init), UNIT)
  }

  /** `fom_updated` of one vintage: one record per selected row, in order. */
  function FixBlock(fom: seq<CostRow>, vintage: int, init: real): (r: seq<FixRecord>)
    ensures |r| == |fom|
  {
    seq(|fom|, i requires 0 <= i < |fom| => FixRecordOf(fom[i], vintage, init))
  }

  /** Each record of a vintage block is the record of one selected row. */
  lemma FixBlockMember(fom: seq<CostRow>, vintage: int, init: real, f: FixRecord)
    requires f in FixBlock(fom, vintage, init)
    ensures exists i :: 0 <= i < |fom| && f == FixRecordOf(fom[i], vintage, init)
  {
    var i :| 0 <= i < |fom| && FixBlock(fom, vintage, init)[i] == f;
  }

  /** `tech_fom`: the vintage blocks one after the other, failing at the first
      vintage whose initial value is missing. */
  function FixTriangle(padded: seq<CostRow>, vintages: seq<int>): Result<seq<FixRecord>, Failure>
  {
    if vintages == [] then Ok([])
    else
      var n := |vintages| - 1;
      match FixTriangle(padded, vintages[..n])
      case Err(e) => Err(e)
      case Ok(done) =>
        match InitVal(padded, vintages[n])
        case None => Err(NoInitialValue(vintages[n]))
        case Some(v) => Ok(done + FixBlock(FromYear(padded, vintages[n]), vintages[n], v))
  }

  /** One step of the triangle: the earlier vintages, then the last one. */
  lemma TriangleStep(padded: seq<CostRow>, vintages: seq<int>)
    requires vintages != []
    ensures var n := |vintages| - 1;
      FixTriangle(padded, vintages).Ok? <==>
        FixTriangle(padded, vintages[..n]).Ok? && InitVal(padded, vintages[n]).Some?
    ensures var n := |vintages| - 1;
      FixTriangle(padded, vintages).Ok? ==>
        FixTriangle(padded, vintages).value
          == FixTriangle(padded, vintages[..n]).value
             + FixBlock(FromYear(padded, vintages[n]), vintages[n], InitVal(padded, vintages[n]).value)
    ensures var n := |vintages| - 1;
      FixTriangle(padded, vintages[..n]).Err? ==>
        FixTriangle(padded, vintages) == FixTriangle(padded, vintages[..n])
    ensures var n := |vintages| - 1;
      FixTriangle(padded, vintages[..n]).Ok? && InitVal(padded, vintages[n]).None? ==>
        FixTriangle(padded, vintages) == Err(NoInitialValue(vintages[n]))
  {
  }

  /** Once a prefix of the vintages fails, the whole triangle fails the same way. */
  lemma {:induction false} TriangleErrPersists(padded: seq<CostRow>, vintages: seq<int>, k: nat)
    requires k <= |vintages| && FixTriangle(padded, vintages[..k]).Err?
    ensures FixTriangle(padded, vintages) == FixTriangle(padded, vintages[..k])
  {
    if k < |vintages| {
      var n := |vintages| - 1;
      assert vintages[..n][..k] == vintages[..k];
      TriangleErrPersists(padded, vintages[..n], k);
      assert FixTriangle(padded, vintages) == FixTriangle(padded, vintages[..n]) by {
        TriangleStep(padded, vintages);
      }
    } else {
      assert vintages[..k] == vintages;
    }
  }

  /** The triangle is built exactly when every vintage finds its initial value. */
  lemma {:induction false} TriangleOkIff(padded: seq<CostRow>, vintages: seq<int>)
    ensures FixTriangle(padded, vintages).Ok? <==>
      forall k :: 0 <= k < |vintages| ==> InitVal(padded, vintages[k]).Some?
  {
    if vintages != [] {
      var n := |vintages| - 1;
      var pre := vintages[..n];
      TriangleOkIff(padded, pre);
      TriangleStep(padded, vintages);
      if FixTriangle(padded, vintages).Ok? {
        assert FixTriangle(padded, pre).Ok? && InitVal(padded, vintages[n]).Some?;
        forall k | 0 <= k < |vintages| ensures InitVal(padded, vintages[k]).Some? {
          if k < n {
            assert vintages[k] == pre[k];
            assert InitVal(padded, pre[k]).Some?;
          } else {
            assert k == n;
          }
        }
      } else if FixTriangle(padded, pre).Ok? {
        assert InitVal(padded, vintages[n]).None?;
      } else {
        var k :| 0 <= k < n && InitVal(padded, pre[k]).None?;
        assert vintages[k] == pre[k];
      }
    }
  }

  /** The triangle fails at vintage k: the first vintage whose initial-value
      year has no row. */
  ghost predicate FailsAt(padded: seq<CostRow>, vintages: seq<int>, k: int)
  {
    && 0 <= k < |vintages|
    && FixTriangle(padded, vintages) == Err(NoInitialValue(vintages[k]))
    && AtYear(padded, InitYear(vintages[k])) == []
    && forall j :: 0 <= j < k ==> AtYear(padded, InitYear(vintages[j])) != []
  }

  /** A failing triangle fails at the first vintage without an initial value. */
  lemma {:induction false} TriangleFailsFirst(padded: seq<CostRow>, vintages: seq<int>)
    requires FixTriangle(padded, vintages).Err?
    ensures exists k :: FailsAt(padded, vintages, k)
  {
    var n := |vintages| - 1;
    if FixTriangle(padded, vintages[..n]).Err? {
      TriangleFailsFirst(padded, vintages[..n]);
      var k :| FailsAt(padded, vintages[..n], k);
      FailsAtPrefix(padded, vintages, k);
    } else {
      FailsAtLast(padded, vintages);
    }
  }

  lemma FailsAtPrefix(padded: seq<CostRow>, vintages: seq<int>, k: int)
    requires vintages != [] && FailsAt(padded, vintages[..|vintages| - 1], k)
    ensures FailsAt(padded, vintages, k)
  {
    var pre := vintages[..|vintages| - 1];
    assert FixTriangle(padded, vintages) == FixTriangle(padded, pre) by {
      TriangleStep(padded, vintages);
    }
    assert pre[k] == vintages[k];
    forall j | 0 <= j < k
      ensures AtYear(padded, InitYear(vintages[j])) != []
    {
      assert pre[j] == vintages[j];
    }
  }

  lemma FailsAtLast(padded: seq<CostRow>, vintages: seq<int>)
    requires vintages != [] && FixTriangle(padded, vintages).Err?
    requires FixTriangle(padded, vintages[..|vintages| - 1]).Ok?
    ensures FailsAt(padded, vintages, |vintages| - 1)
  {
    var n := |vintages| - 1;
    var pre := vintages[..n];
    assert FixTriangle(padded, vintages) == Err(NoInitialValue(vintages[n]))
        && AtYear(padded, InitYear(vintages[n])) == [] by {
      TriangleStep(padded, vintages);
    }
    assert forall j :: 0 <= j < n ==> AtYear(padded, InitYear(vintages[j])) != [] by {
      TriangleOkIff(padded, pre);
      forall j | 0 <= j < n
        ensures AtYear(padded, InitYear(vintages[j])) != []
      {
        assert vintages[j] == pre[j];
      }
    }
  }

  /** Every fixed-cost record comes from a padded row of a year no earlier than
      its vintage, with the initial value looked up for that vintage. */
  lemma {:induction false} TriangleMember(padded: seq<CostRow>, vintages: seq<int>, f: FixRecord)
    requires FixTriangle(padded, vintages).Ok? && f in FixTriangle(padded, vintages).value
    ensures f.yearVtg in vintages && InitVal(padded, f.yearVtg).Some?
    ensures exists row ::
              && row in FromYear(padded, f.yearVtg)
              && f == FixRecordOf(row, f.yearVtg, InitVal(padded, f.yearVtg).value)
  {
    var n := |vintages| - 1;
    var pre := vintages[..n];
    var done := FixTriangle(padded, pre).value;
    var y := vintages[n];
    var v := InitVal(padded, y).value;
    assert FixTriangle(padded, vintages).value == done + FixBlock(FromYear(padded, y), y, v);
    if f in done {
      TriangleMember(padded, pre, f);
    } else {
      assert f in FixBlock(FromYear(padded, y), y, v);
      var row :| row in FromYear(padded, y) && f == FixRecordOf(row, y, v);
      assert f.yearVtg == y;
    }
  }

  /** Activity years never precede vintages, vintages come from the vintage
      list and every record carries the unit. */
  lemma TriangleShape(padded: seq<CostRow>, vintages: seq<int>, f: FixRecord)
    requires FixTriangle(padded, vintages).Ok? && f in FixTriangle(padded, vintages).value
    ensures f.yearVtg in vintages && f.yearAct >= f.yearVtg && f.unit == UNIT
  {
    TriangleMember(padded, vintages, f);
  }

  /** The records of the triangle whose vintage is y. */
  function WithVintage(fix: seq<FixRecord>, y: int): (r: seq<FixRecord>)
    ensures forall f :: f in r <==> f in fix && f.yearVtg == y
  {
    if fix == [] then []
    else (if fix[0].yearVtg == y then [fix[0]] else []) + WithVintage(fix[1..], y)
  }

  lemma {:induction false} WithVintageConcat(a: seq<FixRecord>, b: seq<FixRecord>, y: int)
    ensures WithVintage(a + b, y) == WithVintage(a, y) + WithVintage(b, y)
  {
    if a != [] {
      var head := if a[0].yearVtg == y then [a[0]] else [];
      assert (a + b)[0] == a[0];
      assert (a + b)[1..] == a[1..] + b;
      assert WithVintage(a + b, y) == head + WithVintage(a[1..] + b, y);
      WithVintageConcat(a[1..], b, y);
      assert WithVintage(a, y) == head + WithVintage(a[1..], y);
    } else {
      assert a + b == b;
    }
  }

  lemma {:induction false} WithVintageAll(fix: seq<FixRecord>, y: int)
    requires forall k :: 0 <= k < |fix| ==> fix[k].yearVtg == y
    ensures WithVintage(fix, y) == fix
  {
    if fix != [] {
      WithVintageAll(fix[1..], y);
    }
  }

  lemma {:induction false} WithVintageNone(fix: seq<FixRecord>, y: int)
    requires forall k :: 0 <= k < |fix| ==> fix[k].yearVtg != y
    ensures WithVintage(fix, y) == []
  {
    if fix != [] {
      WithVintageNone(fix[1..], y);
    }
  }

  predicate Distinct(s: seq<int>)
  {
    forall a, b :: 0 <= a < b < |s| ==> s[a] != s[b]
  }

  /** Every record of a vintage block has that vintage. */
  lemma BlockVintage(fom: seq<CostRow>, vintage: int, init: real)
    ensures forall k :: 0 <= k < |fom| ==> FixBlock(fom, vintage, init)[k].yearVtg == vintage
  {
  }

  /** A vintage missing from the list has no records in the triangle. */
  lemma AbsentVintage(padded: seq<CostRow>, vintages: seq<int>, y: int)
    requires FixTriangle(padded, vintages).Ok? && y !in vintages
    ensures WithVintage(FixTriangle(padded, vintages).value, y) == []
  {
    var fix := FixTriangle(padded, vintages).value;
    forall k | 0 <= k < |fix| ensures fix[k].yearVtg != y {
      TriangleShape(padded, vintages, fix[k]);
    }
    WithVintageNone(fix, y);
  }

  /** A value other than the last one is among the earlier ones. */
  lemma InFront(s: seq<int>, y: int)
    requires y in s && y != s[|s| - 1]
    ensures y in s[..|s| - 1]
  {
    var k :| 0 <= k < |s| && s[k] == y;
    assert s[..|s| - 1][k] == y;
  }

  /** Dropping the last value keeps the values distinct. */
  lemma DistinctFront(s: seq<int>)
    requires s != [] && Distinct(s)
    ensures Distinct(s[..|s| - 1])
  {
    var pre := s[..|s| - 1];
    forall a, b | 0 <= a < b < |pre| ensures pre[a] != pre[b] {
      assert pre[a] == s[a] && pre[b] == s[b];
    }
  }

  /** For distinct vintages, the records of vintage y are exactly one record
      per padded row of a year from y on, in the padded order. */
  lemma {:induction false} TriangleByVintage(padded: seq<CostRow>, vintages: seq<int>, y: int)
    requires Distinct(vintages) && y in vintages && FixTriangle(padded, vintages).Ok?
    ensures InitVal(padded, y).Some?
    ensures WithVintage(FixTriangle(padded, vintages).value, y)
      == FixBlock(FromYear(padded, y), y, InitVal(padded, y).value)
  {
    var n := |vintages| - 1;
    var pre := vintages[..n];
    var last := vintages[n];
    assert FixTriangle(padded, pre).Ok? && InitVal(padded, last).Some? by {
      TriangleStep(padded, vintages);
    }
    var done := FixTriangle(padded, pre).value;
    var block := FixBlock(FromYear(padded, last), last, InitVal(padded, last).value);
    assert FixTriangle(padded, vintages).value == done + block by {
      TriangleStep(padded, vintages);
    }
    WithVintageConcat(done, block, y);
    BlockVintage(FromYear(padded, last), last, InitVal(padded, last).value);
    if y == last {
      assert y !in pre by {
        forall k | 0 <= k < n ensures pre[k] != y {
          assert pre[k] == vintages[k];
        }
      }
      AbsentVintage(padded, pre, y);
      WithVintageAll(block, y);
    } else {
      InFront(vintages, y);
      DistinctFront(vintages);
      TriangleByVintage(padded, pre, y);
      WithVintageNone(block, y);
    }
  }

  /** A record of the triangle is the record of one padded row of a year no
      earlier than its vintage. */
  lemma TriangleRow(padded: seq<CostRow>, vintages: seq<int>, f: FixRecord) returns (row: CostRow)
    requires FixTriangle(padded, vintages).Ok? && f in FixTriangle(padded, vintages).value
    ensures InitVal(padded, f.yearVtg).Some?
    ensures row in padded && row.year == f.yearAct && f.yearVtg <= f.yearAct
    ensures f.value == FixValue(row.year, row.fixCost, f.yearVtg, InitVal(padded, f.yearVtg).value)
  {
    TriangleMember(padded, vintages, f);
    row :| row in FromYear(padded, f.yearVtg)
      && f == FixRecordOf(row, f.yearVtg, InitVal(padded, f.yearVtg).value);
  }

  /** Up to 2020 a fixed-cost record carries its own row's fixed cost. */
  lemma FixedCostEarly(padded: seq<CostRow>, vintages: seq<int>, f: FixRecord)
    requires FixTriangle(padded, vintages).Ok? && f in FixTriangle(padded, vintages).value
    requires f.yearAct <= DECAY_START
    ensures exists row :: row in padded && row.year == f.yearAct && f.value == Value(row.fixCost)
  {
    var row := TriangleRow(padded, vintages, f);
  }

  /** From 2021 to 2110 a fixed-cost record carries the initial value of its
      vintage decayed by 0.25 % for every year since the vintage. */
  lemma FixedCostDecayed(padded: seq<CostRow>, vintages: seq<int>, f: FixRecord)
    requires FixTriangle(padded, vintages).Ok? && f in FixTriangle(padded, vintages).value
    requires DECAY_START < f.yearAct <= DECAY_END
    ensures AtYear(padded, InitYear(f.yearVtg)) != [] && f.yearVtg <= f.yearAct
    ensures f.value == Value(Decayed(AtYear(padded, InitYear(f.yearVtg))[0].fixCost, f.yearAct - f.yearVtg))
  {
    var row := TriangleRow(padded, vintages, f);
  }

  /** After 2110 a fixed-cost record is NaN. */
  lemma FixedCostMissing(padded: seq<CostRow>, vintages: seq<int>, f: FixRecord)
    requires FixTriangle(padded, vintages).Ok? && f in FixTriangle(padded, vintages).value
    requires DECAY_END < f.yearAct
    ensures f.value == Missing
  {
    var row := TriangleRow(padded, vintages, f);
  }

  /** For a vintage after 2020, the record of the vintage year itself carries
      the fixed cost of that year: the decay starts from it. */
  lemma ValueAtVintage(padded: seq<CostRow>, vintages: seq<int>, f: FixRecord)
    requires FixTriangle(padded, vintages).Ok? && f in FixTriangle(padded, vintages).value
    requires DECAY_START < f.yearVtg == f.yearAct <= DECAY_END
    ensures AtYear(padded, f.yearVtg) != []
    ensures f.value == Value(AtYear(padded, f.yearVtg)[0].fixCost)
  {
    FixedCostDecayed(padded, vintages, f);
  }

  /** Two records of one vintage that carry the same initial value decayed:
      the later one is the earlier one decayed further. */
  lemma DecayedRecords(init: real, f: FixRecord, g: FixRecord)
    requires f.yearVtg == g.yearVtg <= f.yearAct <= g.yearAct
    requires f.value == Value(Decayed(init, f.yearAct - f.yearVtg))
    requires g.value == Value(Decayed(init, g.yearAct - g.yearVtg))
    ensures g.value.amount == Decayed(f.value.amount, g.yearAct - f.yearAct)
  {
    DecayedAdd(init, f.yearAct - f.yearVtg, g.yearAct - f.yearAct);
  }

  /** Within one vintage, each year after 2020 costs 0.25 % less than the year
      before: from activity year a to b the value decays for b - a more years. */
  lemma DecayBetween(padded: seq<CostRow>, vintages: seq<int>, f: FixRecord, g: FixRecord)
    requires FixTriangle(padded, vintages).Ok?
    requires f in FixTriangle(padded, vintages).value && g in FixTriangle(padded, vintages).value
    requires f.yearVtg == g.yearVtg && DECAY_START < f.yearAct <= g.yearAct <= DECAY_END
    ensures f.value.Value? && g.value.Value?
    ensures g.value.amount == Decayed(f.value.amount, g.yearAct - f.yearAct)
  {
    FixedCostDecayed(padded, vintages, f);
    FixedCostDecayed(padded, vintages, g);
    DecayedRecords(AtYear(padded, InitYear(f.yearVtg))[0].fixCost, f, g);
  }

  /** A fixed-cost value built from non-negative costs is non-negative. */
  lemma FixValueNonNegative(year: int, fixCost: real, vintage: int, init: real)
    requires fixCost >= 0.0 && init >= 0.0
    ensures FixValue(year, fixCost, vintage, init).Value? ==> FixValue(year, fixCost, vintage, init).amount >= 0.0
  {
    if DECAY_START < year && vintage <= year <= DECAY_END {
      DecayedBounds(init, year - vintage);
    }
  }

  /** Non-negative fixed costs give non-negative fixed-cost records. */
  lemma TriangleNonNegative(padded: seq<CostRow>, vintages: seq<int>, f: FixRecord)
    requires forall row :: row in padded ==> row.fixCost >= 0.0
    requires FixTriangle(padded, vintages).Ok? && f in FixTriangle(padded, vintages).value
    ensures f.value.Value? ==> f.value.amount >= 0.0
  {
    var row := TriangleRow(padded, vintages, f);
    var at := AtYear(padded, InitYear(f.yearVtg));
    assert at[0] in at;
    FixValueNonNegative(row.year, row.fixCost, f.yearVtg, InitVal(padded, f.yearVtg).value);
  }
}
