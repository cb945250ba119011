/** The rule record and its validation (include/corertt/game_rules.h, src/game_rules.cpp). */
module GameRules {
  import opened Common

  datatype Rules = Rules(
    width: u8, height: u8, baseSize: u8, unitHealth: u8,
    naturalEnergyRate: u8, resourceZoneEnergyRate: u8, attackCooldown: u8,
    captureTurnThreshold: u8, visionLv1: u8, visionLv2: u8,
    capacityLv1: u16, capacityLv2: u16, capacityUpgradeCost: u16,
    visionUpgradeCost: u16, damageUpgradeCost: u16, manufactCost: u16)
  {
    predicate Validate() {
      && 4 <= width && 4 <= height
      && 2 <= baseSize <= 8
      && 1 <= unitHealth && 1 <= naturalEnergyRate && 1 <= resourceZoneEnergyRate
      && 1 <= attackCooldown && 1 <= captureTurnThreshold
      && 1 <= visionLv1 <= visionLv2
      && 1 <= capacityLv1 <= capacityLv2
      && 1 <= capacityUpgradeCost && 1 <= visionUpgradeCost && 1 <= damageUpgradeCost
      && 1 <= manufactCost
    }
  }

  /** Rules are accepted exactly if no number is 0, the board is at least 4 by 4, a base 2
      to 8 wide, and the second levels are not below the first. */
  lemma AcceptedRules(r: Rules)
    ensures r.Validate() <==>
              && r.width > 3 && r.height > 3 && r.baseSize in {2, 3, 4, 5, 6, 7, 8}
              && 0 !in [r.unitHealth, r.naturalEnergyRate, r.resourceZoneEnergyRate, r.attackCooldown,
                        r.captureTurnThreshold, r.visionLv1, r.visionLv2]
              && 0 !in [r.capacityLv1, r.capacityLv2, r.capacityUpgradeCost, r.visionUpgradeCost, r.damageUpgradeCost,
                        r.manufactCost]
              && !(r.visionLv2 < r.visionLv1) && !(r.capacityLv2 < r.capacityLv1)
  {
  }
}
