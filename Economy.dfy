/**
 * The economy helpers of the game: rarity rewards, upgrade costs,
 * affordability, cost deduction and the aggregate bonuses of a deck.
 */
module Economy {
  import opened GameTypes

  /** The gems a discovery of rarity `r` awards. */
  function GemReward(r: Rarity): (gems: nat)
    ensures gems >= 1
    ensures IsRareCard(r) <==> gems >= 5
  {
    match r
    case Common => 1
    case Uncommon => 2
    case Rare => 5
    case Epic => 15
    case Legendary => 50
    case Mythic => 200
  }

  /** Rare, epic, legendary and mythic cards count as rare finds. */
  predicate IsRareCard(r: Rarity)
  {
    r == Rare || r == Epic || r == Legendary || r == Mythic
  }

  /** Exactly the two lowest rarities are not rare finds. */
  lemma RareMeansAboveUncommon(r: Rarity)
    ensures IsRareCard(r) <==> r != Common && r != Uncommon
  {
  }

  /** `x` raised to the power `n`. */
  function Pow(x: real, n: nat): real
  {
    if n == 0 then 1.0 else x * Pow(x, n - 1)
  }

  /** A base of at least one raised to a higher power gives at least as much, and never less than one. */
  lemma {:induction false} PowMonotone(x: real, m: nat, n: nat)
    requires x >= 1.0 && m <= n
    ensures 1.0 <= Pow(x, m) <= Pow(x, n)
    decreases n
  {
    if m < n {
      PowMonotone(x, m, n - 1);
      assert Pow(x, n) == x * Pow(x, n - 1);
      assert x * Pow(x, n - 1) >= 1.0 * Pow(x, n - 1);
    } else if n > 0 {
      PowMonotone(x, n - 1, n - 1);
      assert x * Pow(x, n - 1) >= 1.0 * Pow(x, n - 1);
    }
  }

  /** The cost in one currency of upgrading a card at `level`: the base amount times 1.5^level, rounded down. */
  function ScaledCost(base: int, level: nat): int
  {
    ((base as real) * Pow(1.5, level)).Floor
  }

  /** The per-currency cost of upgrading `card` from its current level. */
  function UpgradeCost(card: Card): (cost: Amounts)
    ensures forall c :: cost.Get(c) == ScaledCost(card.info.baseCost.Get(c), card.level)
  {
    var b := card.info.baseCost;
    Amounts(ScaledCost(b.clicks, card.level), ScaledCost(b.gems, card.level),
            ScaledCost(b.stardust, card.level), ScaledCost(b.essence, card.level))
  }

  /** Computes the upgrade cost currency by currency, as the game fills its cost record. */
  method CalculateUpgradeCost(card: Card) returns (cost: Amounts)
    ensures cost == UpgradeCost(card)
  {
    var multiplier := Pow(1.5, card.level);
    cost := Amounts(0, 0, 0, 0);
    for i := 0 to |AllCurrencies|
      invariant forall j :: 0 <= j < i ==>
        cost.Get(AllCurrencies[j]) == ScaledCost(card.info.baseCost.Get(AllCurrencies[j]), card.level)
      invariant forall j :: i <= j < |AllCurrencies| ==> cost.Get(AllCurrencies[j]) == 0
    {
      var c := AllCurrencies[i];
      cost := cost.With(c, ((card.info.baseCost.Get(c) as real) * multiplier).Floor);
    }
    assert cost.Get(AllCurrencies[0]) == UpgradeCost(card).Get(Clicks);
    assert cost.Get(AllCurrencies[1]) == UpgradeCost(card).Get(Gems);
    assert cost.Get(AllCurrencies[2]) == UpgradeCost(card).Get(Stardust);
    assert cost.Get(AllCurrencies[3]) == UpgradeCost(card).Get(Essence);
  }

  /** At level zero an upgrade costs exactly the base cost. */
  lemma UpgradeCostAtLevelZero(card: Card)
    requires card.level == 0
    ensures UpgradeCost(card) == card.info.baseCost
  {
  }

  /** A non-negative base amount costs at least as much at a higher level, and never less than zero. */
  lemma ScaledCostMonotone(base: int, m: nat, n: nat)
    requires base >= 0 && m <= n
    ensures 0 <= ScaledCost(base, m) <= ScaledCost(base, n)
  {
    PowMonotone(1.5, m, n);
    var b := base as real;
    assert b * Pow(1.5, m) <= b * Pow(1.5, n);
    assert 0.0 <= b * Pow(1.5, m);
  }

  /** With a non-negative base cost, every currency's upgrade cost is non-decreasing in the level. */
  lemma UpgradeCostMonotone(card: Card, higher: nat)
    requires NonNegative(card.info.baseCost) && card.level <= higher
    ensures forall c :: 0 <= UpgradeCost(card).Get(c) <= UpgradeCost(card.(level := higher)).Get(c)
  {
    forall c ensures 0 <= UpgradeCost(card).Get(c) <= UpgradeCost(card.(level := higher)).Get(c) {
      ScaledCostMonotone(card.info.baseCost.Get(c), card.level, higher);
    }
  }

  /** Whether `wallet` covers `cost` in each of the currencies `cs`. */
  function EveryCovered(wallet: Amounts, cost: Amounts, cs: seq<Currency>): (ok: bool)
    ensures ok <==> forall c :: c in cs ==> wallet.Get(c) >= cost.Get(c)
  {
    cs == [] || (wallet.Get(cs[0]) >= cost.Get(cs[0]) && EveryCovered(wallet, cost, cs[1..]))
  }

  /** Whether the player can pay `cost` out of `wallet`. */
  function CanAfford(wallet: Amounts, cost: Amounts): (ok: bool)
    ensures ok <==> forall c :: wallet.Get(c) >= cost.Get(c)
  {
    assert forall c :: c in AllCurrencies by {
      forall c ensures c in AllCurrencies { AllCurrenciesListed(c); }
    }
    EveryCovered(wallet, cost, AllCurrencies)
  }

  /** What is left of `wallet` once `cost` is paid; nothing is negative when the player could afford it. */
  function Deducted(wallet: Amounts, cost: Amounts): (r: Amounts)
    ensures forall c :: r.Get(c) == wallet.Get(c) - cost.Get(c)
    ensures CanAfford(wallet, cost) ==> NonNegative(r)
  {
    Amounts(wallet.clicks - cost.clicks, wallet.gems - cost.gems,
            wallet.stardust - cost.stardust, wallet.essence - cost.essence)
  }

  /** Subtracts `cost` from `wallet` currency by currency. */
  method DeductCost(wallet: Amounts, cost: Amounts) returns (r: Amounts)
    ensures r == Deducted(wallet, cost)
    ensures CanAfford(wallet, cost) ==> NonNegative(r)
  {
    r := wallet;
    for i := 0 to |AllCurrencies|
      invariant forall j :: 0 <= j < i ==>
        r.Get(AllCurrencies[j]) == wallet.Get(AllCurrencies[j]) - cost.Get(AllCurrencies[j])
      invariant forall j :: i <= j < |AllCurrencies| ==> r.Get(AllCurrencies[j]) == wallet.Get(AllCurrencies[j])
    {
      var c := AllCurrencies[i];
      r := r.With(c, r.Get(c) - cost.Get(c));
    }
    assert r.Get(AllCurrencies[0]) == wallet.Get(Clicks) - cost.Get(Clicks);
    assert r.Get(AllCurrencies[1]) == wallet.Get(Gems) - cost.Get(Gems);
    assert r.Get(AllCurrencies[2]) == wallet.Get(Stardust) - cost.Get(Stardust);
    assert r.Get(AllCurrencies[3]) == wallet.Get(Essence) - cost.Get(Essence);
  }

  /** The bonuses a deck grants. */
  datatype Stats = Stats(clickPower: int, autoClickRate: int, multiplier: real)

  /** The bonuses of an empty deck. */
  const BaseStats: Stats := Stats(1, 0, 1.0)

  /** An integer bonus takes effect when it is present and not zero. */
  predicate IntSet(o: Option<int>)
  {
    o.Some? && o.value != 0
  }

  predicate RealSet(o: Option<real>)
  {
    o.Some? && o.value != 0.0
  }

  /** What `card` adds to the click power: its bonus times its level. */
  function ClickContribution(card: Card): int
  {
    var e := card.info.baseEffect;
    if card.level > 0 && IntSet(e.clickPower) then e.clickPower.value * card.level else 0
  }

  /** What `card` adds to the auto-click rate: its bonus times its level. */
  function AutoContribution(card: Card): int
  {
    var e := card.info.baseEffect;
    if card.level > 0 && IntSet(e.autoClicks) then e.autoClicks.value * card.level else 0
  }

  /** The factor `card` multiplies the multiplier by: its bonus raised to its level. */
  function MultiplierFactor(card: Card): real
  {
    var e := card.info.baseEffect;
    if card.level > 0 && RealSet(e.multiplier) then Pow(e.multiplier.value, card.level) else 1.0
  }

  function SumClickPower(deck: seq<Card>): int
  {
    if deck == [] then 0 else SumClickPower(deck[..|deck| - 1]) + ClickContribution(deck[|deck| - 1])
  }

  function SumAutoClicks(deck: seq<Card>): int
  {
    if deck == [] then 0 else SumAutoClicks(deck[..|deck| - 1]) + AutoContribution(deck[|deck| - 1])
  }

  function ProductMultiplier(deck: seq<Card>): real
  {
    if deck == [] then 1.0 else ProductMultiplier(deck[..|deck| - 1]) * MultiplierFactor(deck[|deck| - 1])
  }

  /**
   * The bonuses of a deck: click power one plus the summed click bonuses,
   * the summed auto-click bonuses, and the product of the multiplier factors.
   */
  function GameStats(deck: seq<Card>): Stats
  {
    Stats(1 + SumClickPower(deck), SumAutoClicks(deck), ProductMultiplier(deck))
  }

  /** Accumulates the deck's bonuses card by card. */
  method CalculateGameStats(deckCards: seq<Card>) returns (stats: Stats)
    ensures stats == GameStats(deckCards)
  {
    var clickPower := 1;
    var autoClickRate := 0;
    var multiplier := 1.0;
    for i := 0 to |deckCards|
      invariant clickPower == 1 + SumClickPower(deckCards[..i])
      invariant autoClickRate == SumAutoClicks(deckCards[..i])
      invariant multiplier == ProductMultiplier(deckCards[..i])
    {
      var card := deckCards[i];
      assert deckCards[..i + 1][..i] == deckCards[..i];
      if card.level > 0 {
        var levelMultiplier := card.level;
        if IntSet(card.info.baseEffect.clickPower) {
          clickPower := clickPower + card.info.baseEffect.clickPower.value * levelMultiplier;
        }
        if IntSet(card.info.baseEffect.autoClicks) {
          autoClickRate := autoClickRate + card.info.baseEffect.autoClicks.value * levelMultiplier;
        }
        if RealSet(card.info.baseEffect.multiplier) {
          multiplier := multiplier * Pow(card.info.baseEffect.multiplier.value, levelMultiplier);
        }
      }
    }
    assert deckCards[..|deckCards|] == deckCards;
    stats := Stats(clickPower, autoClickRate, multiplier);
  }

  /** A deck whose cards are all at level zero (in particular an empty deck) grants the base bonuses. */
  lemma {:induction false} IdleDeckStats(deck: seq<Card>)
    requires forall k :: 0 <= k < |deck| ==> deck[k].level == 0
    ensures GameStats(deck) == BaseStats
  {
    if deck != [] {
      IdleDeckStats(deck[..|deck| - 1]);
    }
  }

  /** Bonuses that can only help: click and auto-click bonuses non-negative, multipliers at least one. */
  predicate SaneEffect(e: Effect)
  {
    && (e.clickPower.Some? ==> e.clickPower.value >= 0)
    && (e.autoClicks.Some? ==> e.autoClicks.value >= 0)
    && (e.multiplier.Some? ==> e.multiplier.value >= 1.0)
  }

  predicate AllSane(deck: seq<Card>)
  {
    forall k :: 0 <= k < |deck| ==> SaneEffect(deck[k].info.baseEffect)
  }

  lemma ContributionBounds(card: Card)
    requires SaneEffect(card.info.baseEffect)
    ensures ClickContribution(card) >= 0 && AutoContribution(card) >= 0 && MultiplierFactor(card) >= 1.0
  {
    var e := card.info.baseEffect;
    if card.level > 0 && RealSet(e.multiplier) {
      PowMonotone(e.multiplier.value, 0, card.level);
    }
  }

  /** A deck of helpful cards never has click power below one, a negative rate, or a multiplier below one. */
  lemma {:induction false} StatsBounds(deck: seq<Card>)
    requires AllSane(deck)
    ensures GameStats(deck).clickPower >= 1
    ensures GameStats(deck).autoClickRate >= 0
    ensures GameStats(deck).multiplier >= 1.0
  {
    if deck != [] {
      var init := deck[..|deck| - 1];
      StatsBounds(init);
      ContributionBounds(deck[|deck| - 1]);
      var p, f := ProductMultiplier(init), MultiplierFactor(deck[|deck| - 1]);
      assert p * f >= 1.0 * f;
    }
  }

  /** Two decks whose cards agree on catalog entry and level, position by position. */
  predicate SameLevels(a: seq<Card>, b: seq<Card>)
  {
    |a| == |b| && forall k :: 0 <= k < |a| ==> a[k].info == b[k].info && a[k].level == b[k].level
  }

  /** The bonuses depend only on each deck card's entry and level, not on how many copies are owned. */
  lemma {:induction false} StatsDependOnLevels(a: seq<Card>, b: seq<Card>)
    requires SameLevels(a, b)
    ensures GameStats(a) == GameStats(b)
  {
    if a != [] {
      StatsDependOnLevels(a[..|a| - 1], b[..|b| - 1]);
    }
  }

  /** Raising a helpful card's level by one never lowers what it contributes. */
  lemma ContributionGrows(card: Card)
    requires SaneEffect(card.info.baseEffect)
    ensures var up := card.(level := card.level + 1);
      && ClickContribution(up) >= ClickContribution(card)
      && AutoContribution(up) >= AutoContribution(card)
      && MultiplierFactor(up) >= MultiplierFactor(card)
  {
    var e := card.info.baseEffect;
    if RealSet(e.multiplier) {
      PowMonotone(e.multiplier.value, card.level, card.level + 1);
      PowMonotone(e.multiplier.value, 0, card.level + 1);
    }
  }

  /** Raising one deck card's level by one never lowers the summed click and auto-click bonuses. */
  lemma {:induction false} SumsGrow(deck: seq<Card>, k: nat)
    requires AllSane(deck) && k < |deck|
    ensures var raised := deck[k := deck[k].(level := deck[k].level + 1)];
      SumClickPower(raised) >= SumClickPower(deck) && SumAutoClicks(raised) >= SumAutoClicks(deck)
    decreases |deck|
  {
    var raised := deck[k := deck[k].(level := deck[k].level + 1)];
    var n := |deck| - 1;
    if k == n {
      assert raised[..n] == deck[..n];
      ContributionGrows(deck[n]);
    } else {
      assert raised[..n] == deck[..n][k := deck[k].(level := deck[k].level + 1)];
      SumsGrow(deck[..n], k);
    }
  }

  /** Raising one deck card's level by one never lowers the product of the multiplier factors. */
  lemma {:induction false} ProductGrows(deck: seq<Card>, k: nat)
    requires AllSane(deck) && k < |deck|
    ensures ProductMultiplier(deck[k := deck[k].(level := deck[k].level + 1)]) >= ProductMultiplier(deck)
    decreases |deck|
  {
    var raised := deck[k := deck[k].(level := deck[k].level + 1)];
    var n := |deck| - 1;
    var p := ProductMultiplier(deck[..n]);
    StatsBounds(deck[..n]);
    if k == n {
      assert raised[..n] == deck[..n];
      ContributionGrows(deck[n]);
      assert p * MultiplierFactor(raised[n]) >= p * MultiplierFactor(deck[n]);
    } else {
      assert raised[..n] == deck[..n][k := deck[k].(level := deck[k].level + 1)];
      ProductGrows(deck[..n], k);
      var q, f := ProductMultiplier(raised[..n]), MultiplierFactor(deck[n]);
      ContributionBounds(deck[n]);
      assert q * f >= p * f;
    }
  }

  /** Raising one deck card's level by one never lowers any of the three bonuses. */
  lemma LevelUpNeverWeakens(deck: seq<Card>, k: nat)
    requires AllSane(deck) && k < |deck|
    ensures var raised := deck[k := deck[k].(level := deck[k].level + 1)];
      && GameStats(raised).clickPower >= GameStats(deck).clickPower
      && GameStats(raised).autoClickRate >= GameStats(deck).autoClickRate
      && GameStats(raised).multiplier >= GameStats(deck).multiplier
  {
    SumsGrow(deck, k);
    ProductGrows(deck, k);
  }
}
