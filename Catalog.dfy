/**
 * The static card catalog and the rarity weight table, and the facts about
 * them that the game engine relies on.
 */
module Catalog {
  import opened GameTypes

  const RookieClicker: CardInfo :=
    CardInfo("rookie_clicker", Common, Clicker, 10, Amounts(10, 0, 0, 0),
             Effect(Some(1), None, None, None))
  const IronFinger: CardInfo :=
    CardInfo("iron_finger", Common, Clicker, 8, Amounts(25, 0, 0, 0),
             Effect(Some(2), None, None, None))
  const SwiftTap: CardInfo :=
    CardInfo("swift_tap", Common, Clicker, 6, Amounts(50, 1, 0, 0),
             Effect(Some(3), None, None, None))
  const AutoFinger: CardInfo :=
    CardInfo("auto_finger", Uncommon, Generator, 15, Amounts(100, 2, 0, 0),
             Effect(None, Some(1), None, None))
  const ClickBot: CardInfo :=
    CardInfo("click_bot", Uncommon, Generator, 12, Amounts(250, 5, 1, 0),
             Effect(None, Some(3), None, None))
  const ThunderClicker: CardInfo :=
    CardInfo("thunder_clicker", Uncommon, Clicker, 10, Amounts(200, 3, 0, 0),
             Effect(Some(5), None, None, None))
  const RubyAmplifier: CardInfo :=
    CardInfo("ruby_amplifier", Rare, Multiplier, 8, Amounts(500, 10, 2, 0),
             Effect(None, None, Some(1.5), None))
  const CrystalCore: CardInfo :=
    CardInfo("crystal_core", Rare, Multiplier, 6, Amounts(1000, 20, 5, 1),
             Effect(None, None, Some(2.0), None))
  const QuantumClicker: CardInfo :=
    CardInfo("quantum_clicker", Rare, Generator, 10, Amounts(800, 15, 3, 0),
             Effect(None, Some(8), None, None))
  const DiamondFist: CardInfo :=
    CardInfo("diamond_fist", Epic, Clicker, 5, Amounts(2000, 50, 10, 2),
             Effect(Some(25), None, None, None))
  const TimeDilator: CardInfo :=
    CardInfo("time_dilator", Epic, Multiplier, 4, Amounts(3000, 75, 15, 5),
             Effect(None, None, Some(3.0), None))
  const VoidEngine: CardInfo :=
    CardInfo("void_engine", Epic, Generator, 8, Amounts(5000, 100, 25, 5),
             Effect(None, Some(25), None, None))
  const CelestialTouch: CardInfo :=
    CardInfo("celestial_touch", Legendary, Clicker, 3, Amounts(10000, 200, 50, 15),
             Effect(Some(100), None, None, None))
  const InfinityLoop: CardInfo :=
    CardInfo("infinity_loop", Legendary, Multiplier, 3, Amounts(15000, 300, 75, 25),
             Effect(None, None, Some(5.0), None))
  const CosmicGenerator: CardInfo :=
    CardInfo("cosmic_generator", Legendary, Generator, 5, Amounts(20000, 400, 100, 20),
             Effect(None, Some(100), None, None))
  const OriginClick: CardInfo :=
    CardInfo("origin_click", Mythic, Clicker, 1, Amounts(100000, 1000, 500, 100),
             Effect(Some(500), None, None, None))
  const RealityBreaker: CardInfo :=
    CardInfo("reality_breaker", Mythic, Multiplier, 1, Amounts(150000, 1500, 750, 150),
             Effect(None, None, Some(10.0), None))
  const UniverseEngine: CardInfo :=
    CardInfo("universe_engine", Mythic, Generator, 1, Amounts(200000, 2000, 1000, 200),
             Effect(None, Some(1000), None, None))

  /** Every collectible card, grouped by rarity from common to mythic. */
  const Cards: seq<CardInfo> := [
    RookieClicker, IronFinger, SwiftTap,
    AutoFinger, ClickBot, ThunderClicker,
    RubyAmplifier, CrystalCore, QuantumClicker,
    DiamondFist, TimeDilator, VoidEngine,
    CelestialTouch, InfinityLoop, CosmicGenerator,
    OriginClick, RealityBreaker, UniverseEngine
  ]

  /** The ids of all catalog cards. */
  function CatalogIds(): set<string>
  {
    set i | 0 <= i < |Cards| :: Cards[i].id
  }

  /** The order in which the weight table lists the rarities. */
  const WeightOrder: seq<Rarity> := [Common, Uncommon, Rare, Epic, Legendary, Mythic]

  /** The relative discovery weight of each rarity. */
  function Weight(r: Rarity): (w: real)
    ensures w > 0.0
  {
    match r
    case Common => 50.0
    case Uncommon => 30.0
    case Rare => 15.0
    case Epic => 4.0
    case Legendary => 0.9
    case Mythic => 0.1
  }

  /** The sum of the weights of `rs` (the reduction over the weight table). */
  function SumWeights(rs: seq<Rarity>): real
  {
    if rs == [] then 0.0 else Weight(rs[0]) + SumWeights(rs[1..])
  }

  /**
   * The total weight a discovery scales its uniform draw by. The game sums
   * the table each time; TotalWeightIsSum shows that sum is this constant.
   */
  const TotalWeight: real := 100.0

  /** The weights add up to one hundred. */
  lemma TotalWeightIsSum()
    ensures SumWeights(WeightOrder) == TotalWeight
  {
    assert WeightOrder[0..][1..] == WeightOrder[1..];
    assert WeightOrder[1..][1..] == WeightOrder[2..];
    assert WeightOrder[2..][1..] == WeightOrder[3..];
    assert WeightOrder[3..][1..] == WeightOrder[4..];
    assert WeightOrder[4..][1..] == WeightOrder[5..];
    assert WeightOrder[5..][1..] == WeightOrder[6..];
  }

  /** The weight table lists each rarity once, rarest last, with strictly falling weights. */
  lemma WeightOrderIsRarityOrder()
    ensures forall r :: r in WeightOrder
    ensures forall i, j :: 0 <= i < j < |WeightOrder| ==> WeightOrder[i] != WeightOrder[j]
    ensures forall i, j :: 0 <= i < j < |WeightOrder| ==> Weight(WeightOrder[i]) > Weight(WeightOrder[j])
  {
    forall r ensures r in WeightOrder {
      match r
      case Common => assert WeightOrder[0] == r;
      case Uncommon => assert WeightOrder[1] == r;
      case Rare => assert WeightOrder[2] == r;
      case Epic => assert WeightOrder[3] == r;
      case Legendary => assert WeightOrder[4] == r;
      case Mythic => assert WeightOrder[5] == r;
    }
  }

  /** No two catalog cards share an id. */
  lemma IdsDistinct()
    ensures forall i, j :: 0 <= i < j < |Cards| ==> Cards[i].id != Cards[j].id
  {
  }

  /** A card can be levelled at least once, at most fifteen times, and costs nothing negative. */
  predicate LevelsAndCostsWellFormed(c: CardInfo)
  {
    1 <= c.maxLevel <= 15 && NonNegative(c.baseCost)
  }

  /** Exactly one of the three numeric bonuses is set, the one the card type names, and it helps. */
  predicate SingleEffect(c: CardInfo)
  {
    match c.baseEffect
    case Effect(Some(p), None, None, None) => p > 0 && c.cardType == Clicker
    case Effect(None, Some(a), None, None) => a > 0 && c.cardType == Generator
    case Effect(None, None, Some(m), None) => m > 1.0 && c.cardType == Multiplier
    case _ => false
  }

  /** Every catalog card can be levelled, costs nothing negative and has a single helpful bonus. */
  lemma CatalogWellFormed()
    ensures forall i :: 0 <= i < |Cards| ==> LevelsAndCostsWellFormed(Cards[i]) && SingleEffect(Cards[i])
  {
    CatalogLevelsAndCosts();
    CatalogEffects();
  }

  lemma CatalogLevelsAndCosts()
    ensures forall i :: 0 <= i < |Cards| ==> LevelsAndCostsWellFormed(Cards[i])
  {
  }

  lemma CatalogEffects()
    ensures forall i :: 0 <= i < |Cards| ==> SingleEffect(Cards[i])
  {
  }

  /** The number of catalog entries of rarity `r` in `cs`. */
  function CountOfRarity(cs: seq<CardInfo>, r: Rarity): nat
  {
    if cs == [] then 0 else (if cs[0].rarity == r then 1 else 0) + CountOfRarity(cs[1..], r)
  }

  /** How many cards of rarity `r` the catalog lists from position `k` on. */
  function ExpectedSuffixCount(k: nat, r: Rarity): nat
  {
    var lo := RarityIndex(r) * 3;
    if k <= lo then 3 else if k >= lo + 3 then 0 else lo + 3 - k
  }

  function RarityIndex(r: Rarity): nat
  {
    match r
    case Common => 0
    case Uncommon => 1
    case Rare => 2
    case Epic => 3
    case Legendary => 4
    case Mythic => 5
  }

  /** The catalog lists three cards of each rarity, in rarity order. */
  lemma RaritiesGrouped()
    ensures |Cards| == 18
    ensures forall i :: 0 <= i < |Cards| ==> RarityIndex(Cards[i].rarity) == i / 3
  {
  }

  /** Each rarity has exactly three cards. */
  lemma ThreeCardsPerRarity(r: Rarity)
    ensures CountOfRarity(Cards, r) == 3
  {
    RaritiesGrouped();
    GroupedSuffixCount(Cards, r, 0);
    assert Cards[0..] == Cards;
  }

  /** In eighteen cards grouped three per rarity, the suffix from `k` holds the expected count. */
  lemma {:induction false} GroupedSuffixCount(cs: seq<CardInfo>, r: Rarity, k: nat)
    requires |cs| == 18 && k <= 18
    requires forall i :: 0 <= i < |cs| ==> RarityIndex(cs[i].rarity) == i / 3
    ensures CountOfRarity(cs[k..], r) == ExpectedSuffixCount(k, r)
    decreases 18 - k
  {
    if k < 18 {
      assert cs[k..][1..] == cs[k + 1..];
      GroupedSuffixCount(cs, r, k + 1);
    }
  }

}
