/** The constraint record the scheduler reads (`SchedulingConstraints` of the
    repository's constraint module, which is not part of this model): the four
    numeric bounds, the per-attribute bounds and the combined bounds. */
module Constraints {
  import opened Wrappers
  import opened Dict

  /** The dictionary stored for one attribute: 'min_per_group' and
      'max_per_group', each present only when the form supplied it. */
  datatype AttrBound = AttrBound(minPerGroup: Option<int>, maxPerGroup: Option<int>)

  /** One element of the decoded `combined_constraints` JSON array:
      `combined.get('attributes', [])`, `combined.get('min')`, `combined.get('max')`. */
  datatype CombinedBound = CombinedBound(attributes: seq<string>, min: Option<int>, max: Option<int>)

  datatype SchedulingConstraints = SchedulingConstraints(
    attributeBounds: Dict<AttrBound>,
    groupSizeMin: int,
    groupSizeMax: int,
    groupCountMin: int,
    groupCountMax: int,
    combined: seq<CombinedBound>)
}
