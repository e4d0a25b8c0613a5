# Cost projections: request validation and MESSAGE input records

This project is a Dafny model of the core of
`message_ix_models/tools/costs/projections.py`, with proofs about that model.
It covers two functions.

**`get_cost_projections`** (module `CostProjections`):
- The requested spatial resolution is upper-cased and must be R11, R12 or R20.
  Any other value returns the error string
  "Please select a valid spatial resolution: R11, R12, or R20" in place of a table.
- A missing reference region defaults to the North America region of the
  resolution (`R11_NAM`, `R12_NAM`, `R20_NAM`). A given reference region is upper-cased.
- The five stages of the cost pipeline are function-valued parameters (`Stages`).
  The source passes them the resolution exactly as the caller wrote it, not
  upper-cased, and the model does the same.

**`create_message_inputs`** (modules `Horizon`, `FixedCosts`, `MessageInputs`):
- Groups: the cost rows are grouped by scenario version, scenario, technology and
  region. The groups are visited in the order of the product of the unique
  values of the four columns, each list in order of first appearance.
- Grid and padding: each group is padded out to the 5-year grid 1960..2110.
  Years before BASE_YEAR - 5 get copies of the group's 2020 rows. Years after
  LAST_MODEL_YEAR get copies of its 2100 rows. Only the year of a copy changes.
- Investment records: one record per padded row, dated by the row's year as vintage.
- Fixed-cost records: a vintage × activity-year triangle. Up to 2020 a record
  carries its row's own fixed cost. From 2021 to 2110 it carries the vintage's
  initial value decayed by the factor 1 - 0.0025 for every year since the
  vintage. After 2110 it is missing (NaN in the source).
- Failures:
  - A missing initial-value row makes `.values[0]` fail (`NoInitialValue`).
  - An empty list passed to `pd.concat` fails (`NothingToConcatenate`).
  - The first failing group ends the whole call.

The pure parts are functions: the grid, the padding, the record builders and the
triangle. The loops of `create_message_inputs` are methods proved equal to those
functions:
- `PadFrames` (`l_hist`, `l_fut`).
- `BuildFom` (`l_fom_updated`).
- `BuildGroup` (one group).
- `CreateMessageInputs` (the unique key values and their product).
- `ConcatGroups` (the loop over the groups with `l_inv` and `l_fix`).

`BASE_YEAR` and `LAST_MODEL_YEAR` come from a configuration module that is not
part of this model. They are the `Config` parameter.

Two details of the fixed-cost decay, as the code has them:
- For vintages up to 2020 the initial value is the 2020 fixed cost, and the
  decay exponent is `year_act - vintage`, not `year_act - 2020`
  (projections.py:199-207).
- The comment at projections.py:204 speaks of a 0.5 % yearly decrease. The
  code uses a factor of `1 - 0.0025`, a 0.25 % decrease, and the model follows
  the code.

## Model

| member | source | states |
|---|---|---|
| CostProjections.Upper | message_ix_models/tools/costs/projections.py:38 | every lower-case ASCII letter becomes upper case, every other character is kept, the length is kept |
| CostProjections.SelectRegions | message_ix_models/tools/costs/projections.py:37-57 | the error string is returned exactly when the upper-cased resolution is not R11, R12 or R20; otherwise the resolution is the upper-cased one, the reference region defaults to `<resolution>_NAM` and a given one is upper-cased |
| CostProjections.GetCostProjections | message_ix_models/tools/costs/projections.py:27-97 | an invalid resolution gives the error message and nothing else; a valid one gives the result of the stage chain run with the selected reference region |
| CostProjections.ValidResolutionIff | message_ix_models/tools/costs/projections.py:38-42 | a resolution is accepted exactly when it has three characters, `r` or `R` then `11`, `12` or `20` |
| CostProjections.DefaultReferenceRegions | message_ix_models/tools/costs/projections.py:49-55 | with no reference region, R11, R12 and R20 select R11_NAM, R12_NAM and R20_NAM; lower-case `r12` is accepted as R12 |
| CostProjections.DefaultRequestRuns | message_ix_models/tools/costs/projections.py:27-35 | a call with every argument at its default runs the stages with reference region R12_NAM |
| CostProjections.RejectionIgnoresStages | message_ix_models/tools/costs/projections.py:40-42 | for an invalid resolution the answer is the error message whatever the stages compute: no stage result reaches it |
| CostProjections.SelectionIsStable | message_ix_models/tools/costs/projections.py:37-57 | feeding an accepted selection back in selects the same resolution and reference region |
| CostProjections.UpperIdempotent | message_ix_models/tools/costs/projections.py:38 | upper-casing twice is upper-casing once |
| Horizon.Grid | message_ix_models/tools/costs/projections.py:135 | `range(start, stop, 5)`: element i is start + 5i and lies below stop, and the list goes on until the next step would reach stop |
| Horizon.SeqYearsShape | message_ix_models/tools/costs/projections.py:114-115 | the grid has 31 years, from 1960 to 2110 inclusive; a year is on it exactly when it is a multiple of 5 in that range; it is increasing |
| Horizon.SmallerThan | message_ix_models/tools/costs/projections.py:129-130 | an element is kept exactly when it is below the value |
| Horizon.LargerThan | message_ix_models/tools/costs/projections.py:132-133 | an element is kept exactly when it is above the value |
| Horizon.HorizonEmptyIff | message_ix_models/tools/costs/projections.py:136-137 | no historical year exactly when BASE_YEAR - 5 <= 1960; no future year exactly when LAST_MODEL_YEAR >= 2110 |
| Horizon.GridSplit | message_ix_models/tools/costs/projections.py:135-137 | the grid is the historical years, then the projected years from BASE_YEAR - 5 to LAST_MODEL_YEAR, then the future years |
| Horizon.AtYear | message_ix_models/tools/costs/projections.py:147 | `query("year == y")` keeps exactly the rows of that year |
| Horizon.FromYear | message_ix_models/tools/costs/projections.py:184 | `query("year >= y")` keeps exactly the rows of that year or later |
| Horizon.AtYearFromYear | message_ix_models/tools/costs/projections.py:184-202 | looking up a year at or after y in the rows from y on finds the same rows as in the whole frame |
| Horizon.PadBlocks | message_ix_models/tools/costs/projections.py:145-154 | one frame per padding year, holding the group's anchor-year rows with their year set to that padding year |
| Horizon.PaddingLength | message_ix_models/tools/costs/projections.py:145-157 | the padding holds one copy of the anchor rows per padding year |
| Horizon.PaddingAt | message_ix_models/tools/costs/projections.py:145-157 | the concatenated padding holds, for padding year i, anchor row j re-dated at position i * (number of anchor rows) + j |
| Horizon.PaddingRowYears | message_ix_models/tools/costs/projections.py:146-154 | every padding row carries one of the padding years |
| Horizon.NoAnchorNoPadding | message_ix_models/tools/costs/projections.py:147-157 | a group without anchor-year rows gets no padding at all |
| Horizon.FutPaddingLater | message_ix_models/tools/costs/projections.py:137-154 | every future padding row is dated after LAST_MODEL_YEAR |
| Horizon.AtYearConcat | message_ix_models/tools/costs/projections.py:147-159 | selecting one year from a concatenation selects it from each part |
| Horizon.SingleRowAtYear | message_ix_models/tools/costs/projections.py:147 | a frame with increasing years has exactly one row of each of its years |
| Horizon.PaddedRows | message_ix_models/tools/costs/projections.py:144-159 | with one 2020 row and one 2100 row, the padded frame is the 2020 row re-dated to each historical year, then the group unchanged and in order, then the 2100 row re-dated to each future year |
| Horizon.PaddedYears | message_ix_models/tools/costs/projections.py:135-159 | a group covering BASE_YEAR - 5 .. LAST_MODEL_YEAR on the grid is padded to exactly the grid years, in order |
| FixedCosts.DecayedAdd | message_ix_models/tools/costs/projections.py:205-207 | decaying m years and then n more is decaying m + n years |
| FixedCosts.DecayedBounds | message_ix_models/tools/costs/projections.py:205-207 | decay keeps a non-negative initial value between 0 and that value |
| FixedCosts.InvRecords | message_ix_models/tools/costs/projections.py:161-179 | one investment record per padded row, in order, with year_vtg = year, value = inv_cost, unit USD/kWa, technology and node_loc copied |
| FixedCosts.InitVal | message_ix_models/tools/costs/projections.py:199-202 | no initial value exactly when the frame has no row of the vintage's initial year (2020 up to 2020, the vintage itself after); otherwise the first such row's fixed cost |
| FixedCosts.FixBlockMember | message_ix_models/tools/costs/projections.py:183-231 | every record of one vintage is the record built from one of the selected rows |
| FixedCosts.TriangleErrPersists | message_ix_models/tools/costs/projections.py:182-202 | once a vintage fails, the whole triangle fails with that failure |
| FixedCosts.TriangleOkIff | message_ix_models/tools/costs/projections.py:182-202 | the triangle is built exactly when every vintage has an initial value |
| FixedCosts.TriangleFailsFirst | message_ix_models/tools/costs/projections.py:182-202 | a failing triangle names the first vintage without an initial value |
| FixedCosts.TriangleMember | message_ix_models/tools/costs/projections.py:181-235 | every fixed-cost record comes from a padded row of a year no earlier than its vintage, with that vintage's initial value |
| FixedCosts.TriangleShape | message_ix_models/tools/costs/projections.py:196-214 | every fixed-cost record has a vintage from the list, year_act >= year_vtg and unit USD/kWa |
| FixedCosts.TriangleByVintage | message_ix_models/tools/costs/projections.py:181-235 | the records of vintage y are exactly the records built from the padded rows of year >= y, in order |
| FixedCosts.FixedCostEarly | message_ix_models/tools/costs/projections.py:212 | up to 2020 a record carries the fixed cost of a padded row of its activity year |
| FixedCosts.FixedCostDecayed | message_ix_models/tools/costs/projections.py:199-212 | from 2021 to 2110 a record carries the vintage's initial value decayed for year_act - year_vtg years |
| FixedCosts.FixedCostMissing | message_ix_models/tools/costs/projections.py:205-212 | after 2110 a record has no value |
| FixedCosts.ValueAtVintage | message_ix_models/tools/costs/projections.py:201-212 | for a vintage after 2020, the record of the vintage year itself carries that year's fixed cost |
| FixedCosts.DecayBetween | message_ix_models/tools/costs/projections.py:205-207 | two records of one vintage between 2021 and 2110 differ by exactly the decay over the years between them |
| FixedCosts.TriangleNonNegative | message_ix_models/tools/costs/projections.py:199-212 | non-negative fixed costs give non-negative fixed-cost records |
| MessageInputs.ProductAt | message_ix_models/tools/costs/projections.py:126 | the combination of the a-th, b-th, c-th and d-th values sits at ((a * S + b) * T + c) * R + d: versions vary slowest, regions fastest |
| MessageInputs.ProductLength | message_ix_models/tools/costs/projections.py:126 | the product has one key per combination |
| MessageInputs.ProductMember | message_ix_models/tools/costs/projections.py:126 | a key is in the product exactly when each of its values is in its list |
| Seqs.Unique | message_ix_models/tools/costs/projections.py:119-122 | `unique()`: the same values, no repeats, in order of first appearance |
| MessageInputs.GroupKeysMember | message_ix_models/tools/costs/projections.py:119-126 | a key is visited exactly when each of its four values occurs in the frame, not necessarily in one row |
| MessageInputs.GroupKeysEmptyIff | message_ix_models/tools/costs/projections.py:119-126 | there is no group exactly when the frame is empty |
| MessageInputs.InGroup | message_ix_models/tools/costs/projections.py:139-142 | the query keeps exactly the rows with the group's four key values |
| MessageInputs.PadFrames | message_ix_models/tools/costs/projections.py:145-154 | the `l_hist` / `l_fut` loop builds exactly the padding frames |
| MessageInputs.BuildFom | message_ix_models/tools/costs/projections.py:181-235 | the vintage loop builds exactly the fixed-cost triangle, or fails at the first vintage without an initial value |
| MessageInputs.BuildGroup | message_ix_models/tools/costs/projections.py:135-238 | the loop body builds exactly the group's investment and fixed-cost records, or its failure |
| MessageInputs.CreateMessageInputs | message_ix_models/tools/costs/projections.py:102-126 | the whole function returns exactly `MessageInputs`: the groups of the product of the unique key values, concatenated, or the first failure |
| MessageInputs.ConcatGroups | message_ix_models/tools/costs/projections.py:126-243 | the loop over the groups fails on an empty list of groups, and otherwise returns exactly the fold of the group results: the first failure, or the concatenated frames |
| MessageInputs.CollectOkIff | message_ix_models/tools/costs/projections.py:126-241 | the loop over the groups succeeds exactly when every group succeeds |
| MessageInputs.CollectFlattens | message_ix_models/tools/costs/projections.py:237-241 | when every group succeeds, the result is every group's investment frame, then every group's fixed-cost frame, each concatenated in visiting order |
| MessageInputs.PartsAt | message_ix_models/tools/costs/projections.py:237-238 | entry k of the frame lists is group k's investment and fixed-cost frame |
| MessageInputs.MessageInputsOkIff | message_ix_models/tools/costs/projections.py:102-243 | the call returns its frames exactly when the input frame is not empty and every visited group finds all its initial values |
| MessageInputs.CollectErrPersists | message_ix_models/tools/costs/projections.py:126-238 | once a group fails, the whole call fails with that failure |
| MessageInputs.CollectFailureStops | message_ix_models/tools/costs/projections.py:126-238 | any failing group makes the whole call fail |
| MessageInputs.CollectInvMember | message_ix_models/tools/costs/projections.py:237-240 | every investment record of the result comes from one group's records |
| MessageInputs.CollectFixMember | message_ix_models/tools/costs/projections.py:238-241 | every fixed-cost record of the result comes from one group's records |
| MessageInputs.EmptyFrameFails | message_ix_models/tools/costs/projections.py:240-241 | an empty frame has no group, so the final concatenation fails |
| MessageInputs.ShortHorizonFails | message_ix_models/tools/costs/projections.py:136-158 | if BASE_YEAR - 5 <= 1960 or LAST_MODEL_YEAR >= 2110, the concatenation of the empty padding list fails |
| MessageInputs.NoAnchorRowPadded | message_ix_models/tools/costs/projections.py:144-159 | a group without a 2020 row has none after padding either, when LAST_MODEL_YEAR >= 2020 |
| MessageInputs.MissingAnchorFails | message_ix_models/tools/costs/projections.py:199-200 | such a group fails at vintage 1960 |
| MessageInputs.AbsentCombinationFails | message_ix_models/tools/costs/projections.py:126-142 | a combination of key values that no row has is still visited, and its empty group makes the whole call fail |
| MessageInputs.OnGridSucceeds | message_ix_models/tools/costs/projections.py:144-235 | a group with one row per grid year from BASE_YEAR - 5 to LAST_MODEL_YEAR, 2020 and 2100 among them, finds every initial value |
| MessageInputs.GroupInvVintages | message_ix_models/tools/costs/projections.py:161-179 | such a group's investment records have the grid years as vintages, in order, all in USD/kWa |
| MessageInputs.GroupInvPadding | message_ix_models/tools/costs/projections.py:144-179 | before BASE_YEAR - 5 its investment records repeat the 2020 investment cost; after LAST_MODEL_YEAR they repeat the 2100 one |
| MessageInputs.GroupInvOwnRows | message_ix_models/tools/costs/projections.py:159-179 | between the padding, each own row gives its own investment record, in order |
| MessageInputs.GroupFixByVintage | message_ix_models/tools/costs/projections.py:181-235 | a group's fixed-cost records of grid vintage y are exactly those built from its padded rows of year >= y |
| MessageInputs.GroupInvKey | message_ix_models/tools/costs/projections.py:139-179 | a group's investment records carry the group's key and unit |
| MessageInputs.GroupFixKey | message_ix_models/tools/costs/projections.py:139-231 | a group's fixed-cost records carry the group's key and unit, a grid vintage and year_act >= year_vtg |
| MessageInputs.InputsInvRecord | message_ix_models/tools/costs/projections.py:161-240 | every investment record of the result carries USD/kWa and the key of a visited group |
| MessageInputs.InputsFixRecord | message_ix_models/tools/costs/projections.py:181-241 | every fixed-cost record of the result has a grid vintage, year_act >= year_vtg, USD/kWa and the key of a visited group |

## Left out

- The five pipeline stages (`get_weo_region_differentiated_costs`,
  `project_ref_region_inv_costs_using_learning_rates`,
  `calculate_gdp_adjusted_region_cost_ratios`, `project_all_inv_costs`,
  `get_final_inv_and_fom_costs`, projections.py:68-97). Their code is not part
  of this model, so they are opaque function parameters. Only the arguments
  passed to them are modelled.
- `sel_format` is accepted and never read by the source. The model keeps it in
  `Request` and reads it nowhere.
- The `print` calls (projections.py:60-66, 127): console output only.
- The commented-out older `get_cost_projections` and its IAMC pivot
  (projections.py:246-378): dead code.
- `message_ix_models/model/water/data/__init__.py` is not part of this model.
  It only dispatches to data-generating functions and writes into an external
  scenario database.
- The configuration module (`BASE_YEAR`, `LAST_MODEL_YEAR`) is not part of this
  model. Both values are fields of the `Config` parameter.
- Floating point: costs are `real`, so the decay `init * 0.9975^n` is exact.
  Rounding of IEEE doubles is not modelled. The NaN of the left merge is the
  `Missing` cell.
- Pandas mechanics are modelled as sequence filters and record construction:
  `query`, `reindex`, `merge`, `assign`, `reset_index` and column order.
  Index labels are not modelled.
- Columns of the input frame other than the seven the core reads are not modelled.
- CostProjections.Upper: only ASCII letters are upper-cased. Python's
  `str.upper` also maps other Unicode letters. The accept/reject decision is
  unaffected, because no other character upper-cases to `R` or a digit. An
  explicitly given reference region with non-ASCII letters is echoed less
  upper-cased than by Python.
- CostProjections.GetCostProjections: the stage results are opaque, so the
  contract says which stages run with which arguments, not what they compute.
