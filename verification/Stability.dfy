/** The gates that decide whether a selection is applied. */
module Stability {
  import opened ArmContract

  /** 1 = cold, 2 = warm, 3 = gradual; every other number behaves as cold. */
  datatype MigrationStrategy = MigrationStrategy(number: nat)

  const WARM := MigrationStrategy(2)
  const GRADUAL := MigrationStrategy(3)

  datatype Settings = Settings(
    evictPartialCapacityFilling: bool,
    migrationStrategy: MigrationStrategy,
    minHitRateImprovement: real,
    switchCooldownEpochs: int,
    minEpochRequests: int,
    observeOnly: bool)

  function HitRate(s: Stats): (r: real)
    ensures 0.0 <= r <= 1.0
    ensures s.Total() > 0 ==> r * s.Total() as real == s.hits as real
  {
    if s.Total() == 0 then 0.0 else s.hits as real / s.Total() as real
  }

  predicate SwitchGated(c: Settings) {
    c.minHitRateImprovement > 0.0 || c.switchCooldownEpochs > 0 || c.minEpochRequests > 0
  }

  /** What the configured gates demand of the evidence of the two arms. */
  ghost predicate EvidencePasses(c: Settings, active: Stats, candidate: Stats) {
    && (c.minEpochRequests > 0 ==> active.Total() >= c.minEpochRequests && candidate.Total() >= c.minEpochRequests)
    && (c.minHitRateImprovement > 0.0 ==> HitRate(candidate) >= HitRate(active) + c.minHitRateImprovement)
  }
}
