/** The gas limit of the next block: it follows the usage of the parent block and is drawn towards a target range. */
module GasLimit {

  const TWO_64: nat := 0x1_0000_0000_0000_0000
  type uint64 = x: nat | x < TWO_64

  const GAS_LIMIT_BOUND_DIVISOR: uint64 := 1024
  const MIN_GAS_LIMIT: uint64 := 5000

  /** The largest gas limit that consensus admits. */
  const MAX_GAS_LIMIT: uint64 := 0x7FFF_FFFF_FFFF_FFFF

  /** Arithmetic of the source's unsigned integers. */
  function Wrap(x: int): uint64 {
    x % TWO_64
  }

  function Decay(limit: uint64): uint64 {
    Wrap(limit / GAS_LIMIT_BOUND_DIVISOR - 1)
  }

  function Contribution(used: uint64): uint64 {
    Wrap(used + used / 2) / GAS_LIMIT_BOUND_DIVISOR
  }

  function CalcGasLimit(limit: uint64, used: uint64, floor: uint64, ceil: uint64): uint64 {
    var decay := Decay(limit);
    var wanted := Wrap(limit - decay + Contribution(used));
    var next := if wanted < MIN_GAS_LIMIT then MIN_GAS_LIMIT else wanted;
    if next < floor then
      var up := Wrap(limit + decay);
      if up > floor then floor else up
    else if next > ceil then
      var down := Wrap(limit - decay);
      if down < ceil then ceil else down
    else next
  }

  /** A parent block as consensus admits it. */
  ghost predicate ParentOk(limit: uint64, used: uint64) {
    MIN_GAS_LIMIT <= limit <= MAX_GAS_LIMIT && used <= limit
  }

  /** The consensus rule on consecutive gas limits. */
  ghost predicate WithinBound(limit: uint64, next: uint64) {
    next > limit - limit / GAS_LIMIT_BOUND_DIVISOR && next < limit + limit / GAS_LIMIT_BOUND_DIVISOR
  }

  /** No operation wraps around for an admitted parent, so the limit is the one of unbounded arithmetic. */
  lemma NothingWraps(limit: uint64, used: uint64, floor: uint64, ceil: uint64)
    requires ParentOk(limit, used)
    ensures Decay(limit) == limit / 1024 - 1 >= 3 && Contribution(used) == (used + used / 2) / 1024
    ensures Wrap(limit - Decay(limit) + Contribution(used)) == limit - Decay(limit) + Contribution(used)
    ensures Wrap(limit + Decay(limit)) == limit + Decay(limit) && Wrap(limit - Decay(limit)) == limit - Decay(limit)
  {
  }

  lemma StaysAboveMinimum(limit: uint64, used: uint64, floor: uint64, ceil: uint64)
    requires ParentOk(limit, used) && floor <= ceil && MIN_GAS_LIMIT <= ceil <= MAX_GAS_LIMIT
    ensures ParentOk(CalcGasLimit(limit, used, floor, ceil), 0)
  {
    NothingWraps(limit, used, floor, ceil);
  }

  /**
   The next limit obeys the consensus rule for every parent limit of at least 5 * 1024. Below that the rule leaves
   less room than a full block asks for: it is broken exactly when the parent block is so full that the limit rises
   by four, and the target range does not prevent this.
   */
  lemma ObeysBoundExactly(limit: uint64, used: uint64, floor: uint64, ceil: uint64)
    requires ParentOk(limit, used) && floor <= ceil && MIN_GAS_LIMIT <= ceil
    ensures WithinBound(limit, CalcGasLimit(limit, used, floor, ceil)) <==>
            limit >= 5120 || used + used / 2 < 7168 || limit + 4 < floor || limit + 4 > ceil
  {
    NothingWraps(limit, used, floor, ceil);
    assert 2 * Contribution(used) * 1024 <= 3 * limit;
  }

  /** A parent of 5119 gas, all used, makes the limit rise by 4, and 5119 / 1024 is 4. */
  lemma BoundCanBreak()
    ensures ParentOk(5119, 5119) && !WithinBound(5119, CalcGasLimit(5119, 5119, 5000, 8000000))
  {
    ObeysBoundExactly(5119, 5119, 5000, 8000000);
  }

  /**
   Where the target range does not interfere, the limit follows the usage: it rises after a block that used two thirds
   of it, does not rise after one that used so much less, and never rises less for more usage.
   */
  lemma FollowsUsage(limit: uint64, used: uint64, more: uint64, floor: uint64, ceil: uint64)
    requires ParentOk(limit, used) && used <= more <= limit && floor <= MIN_GAS_LIMIT && 2 * limit <= ceil
    ensures 3 * used >= 2 * limit + 2 ==> CalcGasLimit(limit, used, floor, ceil) > limit
    ensures 3 * used + 2048 <= 2 * limit ==> CalcGasLimit(limit, used, floor, ceil) <= limit
    ensures CalcGasLimit(limit, used, floor, ceil) <= CalcGasLimit(limit, more, floor, ceil)
    ensures limit >= 6000 ==> CalcGasLimit(limit, 0, floor, ceil) == limit - limit / 1024 + 1
  {
    NothingWraps(limit, used, floor, ceil);
    NothingWraps(limit, more, floor, ceil);
    NothingWraps(limit, 0, floor, ceil);
  }

  // ----- runs of blocks -----

  /** How far a limit is from the target range. */
  function Distance(limit: nat, floor: nat, ceil: nat): nat {
    if limit < floor then floor - limit else if limit > ceil then limit - ceil else 0
  }

  /** Once in the range the limit stays there; outside it comes closer by at least three. */
  lemma Approaches(limit: uint64, used: uint64, floor: uint64, ceil: uint64)
    requires ParentOk(limit, used) && floor <= ceil && MIN_GAS_LIMIT <= ceil <= MAX_GAS_LIMIT
    ensures var d := Distance(limit, floor, ceil);
            Distance(CalcGasLimit(limit, used, floor, ceil), floor, ceil) <= if d < 3 then 0 else d - 3
  {
    NothingWraps(limit, used, floor, ceil);
  }

  /** The limits of a chain of blocks; a block uses the given gas or its limit, whichever is less. */
  function After(limit: uint64, useds: seq<uint64>, floor: uint64, ceil: uint64): uint64 {
    if useds == [] then limit
    else
      var before := After(limit, useds[..|useds| - 1], floor, ceil);
      var used := useds[|useds| - 1];
      CalcGasLimit(before, if used < before then used else before, floor, ceil)
  }

  /** Over any run, the limit stays admitted and closes in on the range. */
  lemma {:induction false} RunApproaches(limit: uint64, useds: seq<uint64>, floor: uint64, ceil: uint64)
    requires ParentOk(limit, 0) && floor <= ceil && MIN_GAS_LIMIT <= ceil <= MAX_GAS_LIMIT
    ensures ParentOk(After(limit, useds, floor, ceil), 0)
    ensures Distance(After(limit, useds, floor, ceil), floor, ceil) + 3 * |useds| <= Distance(limit, floor, ceil)
            || floor <= After(limit, useds, floor, ceil) <= ceil
    decreases |useds|
  {
    if useds != [] {
      RunApproaches(limit, useds[..|useds| - 1], floor, ceil);
      var before := After(limit, useds[..|useds| - 1], floor, ceil);
      var used := useds[|useds| - 1];
      StaysAboveMinimum(before, if used < before then used else before, floor, ceil);
      Approaches(before, if used < before then used else before, floor, ceil);
    }
  }

  /** Whatever the blocks use, the range is reached after finitely many blocks and never left. */
  lemma RangeIsReached(limit: uint64, useds: seq<uint64>, floor: uint64, ceil: uint64)
    requires ParentOk(limit, 0) && floor <= ceil && MIN_GAS_LIMIT <= ceil <= MAX_GAS_LIMIT
    requires floor - 3 * |useds| < limit < ceil + 3 * |useds| || floor <= limit <= ceil
    ensures floor <= After(limit, useds, floor, ceil) <= ceil
  {
    RunApproaches(limit, useds, floor, ceil);
  }
}
