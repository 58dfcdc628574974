/**
 * The numeric settings of config.py. Hit points are floats there but every
 * value is integral, so they are integers here. The board size settings
 * are not needed: the board's width and height are parameters of `Grid`.
 */
module Config {

  const InitialHerbivores: nat := 6
  const InitialPredators: nat := 3

  const BaseHerbivoreHp: int := 100
  const BasePredatorHp: int := 100
  const GrassRecoveryHp: int := 25
  const PredatorHpGainOnKill: int := 50

  const HungerHpLossPerTurn: int := 5

  const PredatorAttackDamage: int := 50

  const HerbivoreSpeed: int := 1
  const PredatorSpeed: int := 2

  /** Probability per empty cell and turn that grass regrows (`random() < rate`). */
  const InitialGrassRegrowthRate: real := 0.01
}
