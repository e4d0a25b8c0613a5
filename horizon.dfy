/** The year grid of `create_message_inputs` and the padding of one cost
    group out to the full horizon (message_ix_models/tools/costs/projections.py). */
module Horizon {
  import opened Seqs

  /** First and last year of the model horizon (HORIZON_START, HORIZON_END). */
  const HORIZON_START := 1960
  const HORIZON_END := 2110
  /** Rows of this year are repeated for the years before the base year. */
  const HIST_ANCHOR := 2020
  /** Rows of this year are repeated for the years after the last model year. */
  const FUT_ANCHOR := 2100

  /** BASE_YEAR and LAST_MODEL_YEAR of the cost configuration module. */
  datatype Config = Config(baseYear: int, lastModelYear: int)

  /** One row of the cost projection frame. */
  datatype CostRow = CostRow(
    version: string,   // scenario_version
    scenario: string,
    tech: string,      // message_technology
    region: string,
    year: int,
    invCost: real,
    fixCost: real)

  predicate Increasing(s: seq<int>)
  {
    forall a, b :: 0 <= a < b < |s| ==> s[a] < s[b]
  }

  /** Python's `range(start, stop, 5)`. */
  function Grid(start: int, stop: int): (r: seq<int>)
    ensures forall i :: 0 <= i < |r| ==> r[i] == start + 5 * i && r[i] < stop
    ensures start + 5 * |r| >= stop
  {
    seq(if start < stop then (stop - start + 4) / 5 else 0, i => start + 5 * i)
  }

  /** `seq_years`: the 5-year grid of the horizon, end year included. */
  function SeqYears(): seq<int>
  {
    Grid(HORIZON_START, HORIZON_END + 5)
  }

  /** The grid is 1960, 1965, ..., 2110: contiguous at step 5, 2110 included. */
  lemma SeqYearsShape()
    ensures |SeqYears()| == 31
    ensures SeqYears()[0] == HORIZON_START && SeqYears()[30] == HORIZON_END
    ensures forall y :: y in SeqYears() <==> HORIZON_START <= y <= HORIZON_END && y % 5 == 0
    ensures Increasing(SeqYears())
  {
    var s := SeqYears();
    forall y | HORIZON_START <= y <= HORIZON_END && y % 5 == 0
      ensures y in s
    {
      assert s[(y - HORIZON_START) / 5] == y;
    }
  }

  /** `smaller_than(sequence, value)`. */
  function SmallerThan(s: seq<int>, v: int): (r: seq<int>)
    ensures forall x :: x in r <==> x in s && x < v
    ensures |r| <= |s|
  {
    if s == [] then []
    else (if s[0] < v then [s[0]] else []) + SmallerThan(s[1..], v)
  }

  /** `larger_than(sequence, value)`. */
  function LargerThan(s: seq<int>, v: int): (r: seq<int>)
    ensures forall x :: x in r <==> x in s && x > v
    ensures |r| <= |s|
  {
    if s == [] then []
    else (if s[0] > v then [s[0]] else []) + LargerThan(s[1..], v)
  }

  /** The elements of `s` from `lo` to `hi` inclusive: the years a projection covers. */
  function Between(s: seq<int>, lo: int, hi: int): (r: seq<int>)
    ensures forall x :: x in r <==> x in s && lo <= x <= hi
    ensures Increasing(s) ==> Increasing(r)
  {
    if s == [] then []
    else
      var rest := Between(s[1..], lo, hi);
      var r := (if lo <= s[0] <= hi then [s[0]] else []) + rest;
      assert Increasing(s) ==> Increasing(r) by {
        if Increasing(s) {
          assert Increasing(s[1..]);
          forall x | x in rest
            ensures x > s[0]
          {
            var k :| 0 <= k < |s[1..]| && s[1..][k] == x;
            assert s[k + 1] == x;
          }
          forall a, b | 0 <= a < b < |r|
            ensures r[a] < r[b]
          {
            if lo <= s[0] <= hi && a == 0 {
              assert r[b] == rest[b - 1];
              assert r[b] in rest;
            }
          }
        }
      }
      r
  }

  lemma {:induction false} NoneSmaller(s: seq<int>, v: int)
    requires forall k :: 0 <= k < |s| ==> s[k] >= v
    ensures SmallerThan(s, v) == []
  {
    if s != [] {
      NoneSmaller(s[1..], v);
    }
  }

  lemma {:induction false} NoneLarger(s: seq<int>, v: int)
    requires forall k :: 0 <= k < |s| ==> s[k] <= v
    ensures LargerThan(s, v) == []
  {
    if s != [] {
      NoneLarger(s[1..], v);
    }
  }

  lemma {:induction false} NoneBetween(s: seq<int>, lo: int, hi: int)
    requires forall k :: 0 <= k < |s| ==> s[k] > hi
    ensures Between(s, lo, hi) == []
  {
    if s != [] {
      NoneBetween(s[1..], lo, hi);
    }
  }

  /** `hist_years`: the grid years before BASE_YEAR - 5. */
  function HistYears(cfg: Config): seq<int>
  {
    SmallerThan(SeqYears(), cfg.baseYear - 5)
  }

  /** `fut_years`: the grid years after LAST_MODEL_YEAR. */
  function FutYears(cfg: Config): seq<int>
  {
    LargerThan(SeqYears(), cfg.lastModelYear)
  }

  /** No historical year is padded exactly when BASE_YEAR - 5 is at most 1960,
      and no future year exactly when LAST_MODEL_YEAR is at least 2110. */
  lemma HorizonEmptyIff(cfg: Config)
    ensures HistYears(cfg) == [] <==> cfg.baseYear - 5 <= HORIZON_START
    ensures FutYears(cfg) == [] <==> cfg.lastModelYear >= HORIZON_END
  {
    SeqYearsShape();
    var s := SeqYears();
    if cfg.baseYear - 5 > HORIZON_START {
      assert HORIZON_START in HistYears(cfg);
    } else {
      assert forall k :: 0 <= k < |s| ==> s[k] in s;
      NoneSmaller(s, cfg.baseYear - 5);
    }
    if cfg.lastModelYear < HORIZON_END {
      assert HORIZON_END in FutYears(cfg);
    } else {
      assert forall k :: 0 <= k < |s| ==> s[k] in s;
      NoneLarger(s, cfg.lastModelYear);
    }
  }

  /** An increasing sequence splits into the part below `lo`, the part in
      [lo, hi] and the part above `hi`, in that order. */
  lemma {:induction false} Partition(s: seq<int>, lo: int, hi: int)
    requires Increasing(s) && lo <= hi + 1
    ensures s == SmallerThan(s, lo) + Between(s, lo, hi) + LargerThan(s, hi)
  {
    if s != [] {
      var s0, rest := s[0], s[1..];
      assert Increasing(rest);
      Partition(rest, lo, hi);
      if s0 < lo {
        PartitionBelow(s, lo, hi);
      } else {
        AboveHead(s);
        if s0 <= hi {
          PartitionInside(s, lo, hi);
        } else {
          PartitionAbove(s, lo, hi);
        }
      }
    }
  }

  lemma AboveHead(s: seq<int>)
    requires Increasing(s) && s != []
    ensures forall k :: 0 <= k < |s[1..]| ==> s[1..][k] > s[0]
  {
    forall k | 0 <= k < |s[1..]| ensures s[1..][k] > s[0] {
      assert s[1..][k] == s[k + 1];
    }
  }

  lemma Unfold(s: seq<int>, lo: int, hi: int)
    requires s != []
    ensures SmallerThan(s, lo) == (if s[0] < lo then [s[0]] else []) + SmallerThan(s[1..], lo)
    ensures Between(s, lo, hi) == (if lo <= s[0] <= hi then [s[0]] else []) + Between(s[1..], lo, hi)
    ensures LargerThan(s, hi) == (if s[0] > hi then [s[0]] else []) + LargerThan(s[1..], hi)
  {
  }

  lemma SplitHead(s: seq<int>, a: seq<int>, b: seq<int>, c: seq<int>)
    requires s != [] && s[1..] == a + b + c
    ensures s == ([s[0]] + a) + b + c
    ensures a == [] ==> s == a + ([s[0]] + b) + c
    ensures a == [] && b == [] ==> s == a + b + ([s[0]] + c)
  {
    assert s == [s[0]] + s[1..];
    if a == [] {
      assert a + ([s[0]] + b) + c == [s[0]] + (b + c);
      assert s[1..] == b + c;
      if b == [] {
        assert a + b + ([s[0]] + c) == [s[0]] + c;
      }
    }
  }

  /** The head below `lo` goes to the first part. */
  lemma PartitionBelow(s: seq<int>, lo: int, hi: int)
    requires s != [] && s[0] < lo <= hi + 1
    requires s[1..] == SmallerThan(s[1..], lo) + Between(s[1..], lo, hi) + LargerThan(s[1..], hi)
    ensures s == SmallerThan(s, lo) + Between(s, lo, hi) + LargerThan(s, hi)
  {
    var a, b, c := SmallerThan(s[1..], lo), Between(s[1..], lo, hi), LargerThan(s[1..], hi);
    assert SmallerThan(s, lo) == [s[0]] + a && Between(s, lo, hi) == b && LargerThan(s, hi) == c by {
      Unfold(s, lo, hi);
    }
    SplitHead(s, a, b, c);
  }

  /** A head in [lo, hi], with everything after it larger, goes to the middle part. */
  lemma PartitionInside(s: seq<int>, lo: int, hi: int)
    requires s != [] && lo <= s[0] <= hi
    requires forall k :: 0 <= k < |s[1..]| ==> s[1..][k] > s[0]
    requires s[1..] == SmallerThan(s[1..], lo) + Between(s[1..], lo, hi) + LargerThan(s[1..], hi)
    ensures s == SmallerThan(s, lo) + Between(s, lo, hi) + LargerThan(s, hi)
  {
    var b, c := Between(s[1..], lo, hi), LargerThan(s[1..], hi);
    assert SmallerThan(s[1..], lo) == [] by {
      NoneSmaller(s[1..], lo);
    }
    assert SmallerThan(s, lo) == [] && Between(s, lo, hi) == [s[0]] + b && LargerThan(s, hi) == c by {
      Unfold(s, lo, hi);
    }
    SplitHead(s, [], b, c);
  }

  /** A head above `hi`, with everything after it larger, goes to the last part. */
  lemma PartitionAbove(s: seq<int>, lo: int, hi: int)
    requires s != [] && lo <= hi + 1 && hi < s[0]
    requires forall k :: 0 <= k < |s[1..]| ==> s[1..][k] > s[0]
    requires s[1..] == SmallerThan(s[1..], lo) + Between(s[1..], lo, hi) + LargerThan(s[1..], hi)
    ensures s == SmallerThan(s, lo) + Between(s, lo, hi) + LargerThan(s, hi)
  {
    var c := LargerThan(s[1..], hi);
    assert SmallerThan(s[1..], lo) == [] && Between(s[1..], lo, hi) == [] by {
      NoneSmaller(s[1..], lo);
      NoneBetween(s[1..], lo, hi);
    }
    assert SmallerThan(s, lo) == [] && Between(s, lo, hi) == [] && LargerThan(s, hi) == [s[0]] + c by {
      Unfold(s, lo, hi);
    }
    SplitHead(s, [], [], c);
  }

  /** The `year` column of a frame. */
  function Years(rows: seq<CostRow>): (r: seq<int>)
    ensures |r| == |rows|
  {
    seq(|rows|, i requires 0 <= i < |rows| => rows[i].year)
  }

  /** `query("year == y")`. */
  function AtYear(rows: seq<CostRow>, y: int): (r: seq<CostRow>)
    ensures forall x :: x in r <==> x in rows && x.year == y
    ensures |r| <= |rows|
  {
    if rows == [] then []
    else (if rows[0].year == y then [rows[0]] else []) + AtYear(rows[1..], y)
  }

  /** `query("year >= y")`. */
  function FromYear(rows: seq<CostRow>, y: int): (r: seq<CostRow>)
    ensures forall x :: x in r <==> x in rows && x.year >= y
    ensures |r| <= |rows|
  {
    if rows == [] then []
    else (if rows[0].year >= y then [rows[0]] else []) + FromYear(rows[1..], y)
  }

  /** Selecting the years from `y` on keeps every row of a later year, in order. */
  lemma {:induction false} AtYearFromYear(rows: seq<CostRow>, y: int, t: int)
    requires y <= t
    ensures AtYear(FromYear(rows, y), t) == AtYear(rows, t)
  {
    if rows != [] {
      var r0, rest := rows[0], rows[1..];
      AtYearFromYear(rest, y, t);
      var f := FromYear(rest, y);
      if r0.year >= y {
        var g := [r0] + f;
        assert FromYear(rows, y) == g;
        assert g[0] == r0 && g[1..] == f;
        assert AtYear(g, t) == (if r0.year == t then [r0] else []) + AtYear(f, t);
      } else {
        assert FromYear(rows, y) == f;
        assert AtYear(rows, t) == AtYear(rest, t);
      }
    }
  }

  /** A frame has no row of a year missing from its year column. */
  lemma {:induction false} NoRowAtYear(rows: seq<CostRow>, y: int)
    requires y !in Years(rows)
    ensures AtYear(rows, y) == []
  {
    if rows != [] {
      assert Years(rows)[0] == rows[0].year;
      assert Years(rows[1..]) == Years(rows)[1..];
      NoRowAtYear(rows[1..], y);
    }
  }

  /** A frame none of whose rows has year y has no row of year y. */
  lemma {:induction false} NoRowOfYear(rows: seq<CostRow>, y: int)
    requires forall x :: x in rows ==> x.year != y
    ensures AtYear(rows, y) == []
  {
    if rows != [] {
      assert rows[0] in rows;
      NoRowOfYear(rows[1..], y);
    }
  }

  /** A frame has a row of each year of its year column. */
  lemma RowAtYear(rows: seq<CostRow>, y: int)
    requires y in Years(rows)
    ensures AtYear(rows, y) != []
  {
    var k :| 0 <= k < |rows| && Years(rows)[k] == y;
    assert rows[k] in AtYear(rows, y);
  }

  /** A frame with increasing years has exactly one row of each of its years. */
  lemma {:induction false} SingleRowAtYear(rows: seq<CostRow>, y: int)
    requires Increasing(Years(rows)) && y in Years(rows)
    ensures |AtYear(rows, y)| == 1 && AtYear(rows, y)[0].year == y
  {
    var rest := rows[1..];
    assert Years(rest) == Years(rows)[1..];
    if rows[0].year == y {
      forall k | 0 <= k < |rest|
        ensures Years(rest)[k] != y
      {
        assert Years(rest)[k] == Years(rows)[k + 1] > Years(rows)[0];
      }
      NoRowAtYear(rest, y);
    } else {
      var k :| 0 <= k < |rows| && Years(rows)[k] == y;
      assert Years(rest)[k - 1] == y;
      SingleRowAtYear(rest, y);
    }
  }

  /** `assign(year=y)`: the rows with only their year replaced. */
  function Retimed(rows: seq<CostRow>, y: int): (r: seq<CostRow>)
    ensures |r| == |rows|
  {
    seq(|rows|, i requires 0 <= i < |rows| => rows[i].(year := y))
  }

  /** The frames appended to `l_hist` / `l_fut`: for each padding year, the
      group's rows of the anchor year, re-dated to that year. */
  function PadBlocks(group: seq<CostRow>, anchor: int, years: seq<int>): (r: seq<seq<CostRow>>)
    ensures |r| == |years|
    ensures forall i :: 0 <= i < |years| ==> r[i] == Retimed(AtYear(group, anchor), years[i])
  {
    if years == [] then []
    else
      var n := |years| - 1;
      PadBlocks(group, anchor, years[..n]) + [Retimed(AtYear(group, anchor), years[n])]
  }

  /** `pd.concat(l_hist)` / `pd.concat(l_fut)`. */
  function Padding(group: seq<CostRow>, anchor: int, years: seq<int>): seq<CostRow>
  {
    Flatten(PadBlocks(group, anchor, years))
  }

  /** The padding holds, for the i-th padding year, every anchor row with only
      its year changed, in the anchor rows' order. */
  lemma PaddingAt(group: seq<CostRow>, anchor: int, years: seq<int>, i: nat, j: nat)
    requires i < |years| && j < |AtYear(group, anchor)|
    ensures var m := |AtYear(group, anchor)|;
      i * m + j < |Padding(group, anchor, years)| &&
      Padding(group, anchor, years)[i * m + j] == AtYear(group, anchor)[j].(year := years[i])
  {
    var m := |AtYear(group, anchor)|;
    FlattenLength(PadBlocks(group, anchor, years), m);
    FlattenAt(PadBlocks(group, anchor, years), m, i, j);
  }

  /** The padding holds one copy of the anchor rows per padding year. */
  lemma PaddingLength(group: seq<CostRow>, anchor: int, years: seq<int>)
    ensures |Padding(group, anchor, years)| == |years| * |AtYear(group, anchor)|
  {
    FlattenLength(PadBlocks(group, anchor, years), |AtYear(group, anchor)|);
  }

  /** Every padding row carries one of the padding years. */
  lemma PaddingRowYears(group: seq<CostRow>, anchor: int, years: seq<int>, x: CostRow)
    requires x in Padding(group, anchor, years)
    ensures x.year in years
  {
    var blocks := PadBlocks(group, anchor, years);
    var i :| 0 <= i < |blocks| && x in blocks[i];
    var rows := AtYear(group, anchor);
    var j :| 0 <= j < |rows| && Retimed(rows, years[i])[j] == x;
  }

  /** The future padding only has years after LAST_MODEL_YEAR. */
  lemma FutPaddingLater(group: seq<CostRow>, cfg: Config)
    ensures forall x :: x in Padding(group, FUT_ANCHOR, FutYears(cfg)) ==> x.year > cfg.lastModelYear
  {
    forall x | x in Padding(group, FUT_ANCHOR, FutYears(cfg))
      ensures x.year > cfg.lastModelYear
    {
      PaddingRowYears(group, FUT_ANCHOR, FutYears(cfg), x);
    }
  }

  /** Selecting one year distributes over concatenation. */
  lemma {:induction false} AtYearConcat(a: seq<CostRow>, b: seq<CostRow>, y: int)
    ensures AtYear(a + b, y) == AtYear(a, y) + AtYear(b, y)
  {
    if a == [] {
      assert a + b == b;
    } else {
      assert (a + b)[1..] == a[1..] + b;
      AtYearConcat(a[1..], b, y);
    }
  }

  /** Without an anchor row there is no padding at all. */
  lemma NoAnchorNoPadding(group: seq<CostRow>, anchor: int, years: seq<int>)
    requires AtYear(group, anchor) == []
    ensures Padding(group, anchor, years) == []
  {
    PaddingLength(group, anchor, years);
  }

  /** `costs_tot`: historical padding, the group's own rows, future padding. */
  function Padded(group: seq<CostRow>, cfg: Config): seq<CostRow>
  {
    Padding(group, HIST_ANCHOR, HistYears(cfg)) + group + Padding(group, FUT_ANCHOR, FutYears(cfg))
  }

  /** A group as the projection stages deliver it: one row for each grid year
      from BASE_YEAR - 5 to LAST_MODEL_YEAR, in order, 2020 and 2100 among them. */
  ghost predicate OnGrid(group: seq<CostRow>, cfg: Config)
  {
    && Years(group) == Between(SeqYears(), cfg.baseYear - 5, cfg.lastModelYear)
    && HIST_ANCHOR in Years(group)
    && FUT_ANCHOR in Years(group)
  }

  /** With a single anchor row, the padding is that row re-dated once per year. */
  lemma PaddingSingle(group: seq<CostRow>, anchor: int, years: seq<int>)
    requires |AtYear(group, anchor)| == 1
    ensures |Padding(group, anchor, years)| == |years|
    ensures forall k :: 0 <= k < |years| ==>
      Padding(group, anchor, years)[k] == AtYear(group, anchor)[0].(year := years[k])
    ensures Years(Padding(group, anchor, years)) == years
  {
    PaddingLength(group, anchor, years);
    forall k | 0 <= k < |years|
      ensures Padding(group, anchor, years)[k] == AtYear(group, anchor)[0].(year := years[k])
    {
      PaddingAt(group, anchor, years, k, 0);
    }
  }

  lemma YearsConcat(a: seq<CostRow>, b: seq<CostRow>, c: seq<CostRow>)
    ensures Years(a + b + c) == Years(a) + Years(b) + Years(c)
  {
  }

  /** An on-grid group has exactly one row of each anchor year. */
  lemma OnGridAnchors(group: seq<CostRow>, cfg: Config)
    requires OnGrid(group, cfg)
    ensures |AtYear(group, HIST_ANCHOR)| == 1 && |AtYear(group, FUT_ANCHOR)| == 1
    ensures cfg.baseYear - 5 <= HIST_ANCHOR < FUT_ANCHOR <= cfg.lastModelYear
  {
    SeqYearsShape();
    var lo, hi := cfg.baseYear - 5, cfg.lastModelYear;
    assert HIST_ANCHOR in Between(SeqYears(), lo, hi);
    assert FUT_ANCHOR in Between(SeqYears(), lo, hi);
    SingleRowAtYear(group, HIST_ANCHOR);
    SingleRowAtYear(group, FUT_ANCHOR);
  }

  /** Padding an on-grid group yields exactly the horizon 1960..2110. */
  lemma PaddedYears(group: seq<CostRow>, cfg: Config)
    requires OnGrid(group, cfg)
    ensures Years(Padded(group, cfg)) == SeqYears()
  {
    OnGridAnchors(group, cfg);
    PaddedSplit(group, cfg);
    GridSplit(cfg);
  }

  lemma PaddedSplit(group: seq<CostRow>, cfg: Config)
    requires |AtYear(group, HIST_ANCHOR)| == 1 && |AtYear(group, FUT_ANCHOR)| == 1
    ensures Years(Padded(group, cfg)) == HistYears(cfg) + Years(group) + FutYears(cfg)
  {
    var hist, fut := HistYears(cfg), FutYears(cfg);
    PaddingSingle(group, HIST_ANCHOR, hist);
    PaddingSingle(group, FUT_ANCHOR, fut);
    YearsConcat(Padding(group, HIST_ANCHOR, hist), group, Padding(group, FUT_ANCHOR, fut));
  }

  /** The grid is the historical years, the projected years and the future years. */
  lemma GridSplit(cfg: Config)
    requires cfg.baseYear - 5 <= cfg.lastModelYear + 1
    ensures SeqYears() == HistYears(cfg) + Between(SeqYears(), cfg.baseYear - 5, cfg.lastModelYear) + FutYears(cfg)
  {
    SeqYearsShape();
    Partition(SeqYears(), cfg.baseYear - 5, cfg.lastModelYear);
  }

  lemma MiddlePart<T>(a: seq<T>, b: seq<T>, c: seq<T>, k: nat)
    requires k < |b|
    ensures (a + b + c)[|a| + k] == b[k]
  {
  }

  lemma ThirdPart<T>(a: seq<T>, b: seq<T>, c: seq<T>, k: nat)
    requires k < |c|
    ensures (a + b + c)[|a| + |b| + k] == c[k]
  {
  }

  /** With one row of each anchor year, the padded frame is the 2020 row
      re-dated to each historical year, then the group unchanged, then the
      2100 row re-dated to each future year. */
  lemma PaddedRows(group: seq<CostRow>, cfg: Config)
    requires |AtYear(group, HIST_ANCHOR)| == 1 && |AtYear(group, FUT_ANCHOR)| == 1
    ensures var padded, h, g := Padded(group, cfg), |HistYears(cfg)|, |group|;
      && |padded| == h + g + |FutYears(cfg)|
      && (forall k :: 0 <= k < h ==>
            padded[k] == AtYear(group, HIST_ANCHOR)[0].(year := HistYears(cfg)[k]))
      && (forall k :: 0 <= k < g ==> padded[h + k] == group[k])
      && (forall k :: h + g <= k < |padded| ==>
            padded[k] == AtYear(group, FUT_ANCHOR)[0].(year := FutYears(cfg)[k - h - g]))
  {
    PaddedHistPart(group, cfg);
    PaddedGroupPart(group, cfg);
    PaddedFutPart(group, cfg);
  }

  lemma PaddedGroupPart(group: seq<CostRow>, cfg: Config)
    requires |AtYear(group, HIST_ANCHOR)| == 1 && |AtYear(group, FUT_ANCHOR)| == 1
    ensures |Padded(group, cfg)| == |HistYears(cfg)| + |group| + |FutYears(cfg)|
    ensures forall k :: 0 <= k < |group| ==> Padded(group, cfg)[|HistYears(cfg)| + k] == group[k]
  {
    var a, b := Padding(group, HIST_ANCHOR, HistYears(cfg)), Padding(group, FUT_ANCHOR, FutYears(cfg));
    PaddedLength(group, cfg);
    forall k | 0 <= k < |group|
      ensures Padded(group, cfg)[|HistYears(cfg)| + k] == group[k]
    {
      MiddlePart(a, group, b, k);
    }
  }

  lemma PaddedLength(group: seq<CostRow>, cfg: Config)
    requires |AtYear(group, HIST_ANCHOR)| == 1 && |AtYear(group, FUT_ANCHOR)| == 1
    ensures Padded(group, cfg) == Padding(group, HIST_ANCHOR, HistYears(cfg)) + group
                                  + Padding(group, FUT_ANCHOR, FutYears(cfg))
    ensures |Padding(group, HIST_ANCHOR, HistYears(cfg))| == |HistYears(cfg)|
    ensures |Padded(group, cfg)| == |HistYears(cfg)| + |group| + |FutYears(cfg)|
  {
    PaddingLength(group, HIST_ANCHOR, HistYears(cfg));
    PaddingLength(group, FUT_ANCHOR, FutYears(cfg));
  }

  lemma PaddedHistPart(group: seq<CostRow>, cfg: Config)
    requires |AtYear(group, HIST_ANCHOR)| == 1 && |AtYear(group, FUT_ANCHOR)| == 1
    ensures |Padded(group, cfg)| == |HistYears(cfg)| + |group| + |FutYears(cfg)|
    ensures forall k :: 0 <= k < |HistYears(cfg)| ==>
      Padded(group, cfg)[k] == AtYear(group, HIST_ANCHOR)[0].(year := HistYears(cfg)[k])
  {
    var hist := HistYears(cfg);
    var a := Padding(group, HIST_ANCHOR, hist);
    PaddedLength(group, cfg);
    PaddingSingle(group, HIST_ANCHOR, hist);
    forall k | 0 <= k < |hist|
      ensures Padded(group, cfg)[k] == AtYear(group, HIST_ANCHOR)[0].(year := hist[k])
    {
      assert Padded(group, cfg)[k] == a[k];
    }
  }

  lemma PaddedFutPart(group: seq<CostRow>, cfg: Config)
    requires |AtYear(group, HIST_ANCHOR)| == 1 && |AtYear(group, FUT_ANCHOR)| == 1
    ensures |Padded(group, cfg)| == |HistYears(cfg)| + |group| + |FutYears(cfg)|
    ensures forall k :: |HistYears(cfg)| + |group| <= k < |Padded(group, cfg)| ==>
      Padded(group, cfg)[k]
        == AtYear(group, FUT_ANCHOR)[0].(year := FutYears(cfg)[k - |HistYears(cfg)| - |group|])
  {
    var fut := FutYears(cfg);
    var a, b := Padding(group, HIST_ANCHOR, HistYears(cfg)), Padding(group, FUT_ANCHOR, fut);
    var off := |HistYears(cfg)| + |group|;
    PaddedLength(group, cfg);
    PaddingSingle(group, FUT_ANCHOR, fut);
    forall k | off <= k < |Padded(group, cfg)|
      ensures Padded(group, cfg)[k] == AtYear(group, FUT_ANCHOR)[0].(year := fut[k - off])
    {
      ThirdPart(a, group, b, k - off);
    }
  }
}
