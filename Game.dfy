/**
 * The game as an object: the fields of the game state, updated in place by
 * the five actions in the order the game performs their steps. Each action
 * is proved to produce exactly the state its function in `Engine` gives and
 * to keep the invariant.
 *
 * The randomness an action consumes is passed in: `fireRoll` is the draw
 * that decides whether a click triggers a discovery, and each `Roll` holds
 * the two draws of one discovery.
 */
module Game {
  import opened GameTypes
  import opened Economy
  import opened Discovery
  import opened Engine

  class GameEngine {
    var currencies: Amounts
    var totalClicks: nat
    var clickPower: int
    var autoClickRate: int
    var multiplier: real
    var cards: seq<Card>
    var deck: seq<Card>
    var unlockedCards: set<string>
    var achievements: seq<string>
    var statistics: Statistics

    /** The fields, as one game-state value. */
    function State(): GameState
      reads this
    {
      GameState(currencies, totalClicks, clickPower, autoClickRate, multiplier,
                cards, deck, unlockedCards, achievements, statistics)
    }

    predicate Valid()
      reads this
    {
      Invariant(State())
    }

    /** A new game. */
    constructor()
      ensures State() == InitialGameState()
      ensures Valid()
    {
      currencies := Amounts(100, 10, 2, 0);
      totalClicks := 0;
      clickPower := 1;
      autoClickRate := 0;
      multiplier := 1.0;
      cards := InitialCards();
      deck := [];
      unlockedCards := {};
      achievements := [];
      statistics := Statistics(0, 0, 0, 0);
      new;
      InitialStateValid();
    }

    /** One second of the auto-clicker. */
    method AutoClickTick()
      requires Valid()
      modifies this
      ensures State() == AutoTick(old(State()))
      ensures Valid()
    {
      ghost var s0 := State();
      if autoClickRate > 0 {
        currencies := currencies.(clicks := currencies.clicks + ClickValue(autoClickRate, multiplier));
        statistics := statistics.(clicksPerSecond := autoClickRate);
      }
      AutoTickEarns(s0);
    }

    /**
     * One click: earns the click value, may discover a card (returned in
     * `discovered`), and pays the gem and stardust bonuses.
     */
    method PerformClick(fireRoll: real, drawRoll: Roll) returns (discovered: Option<Card>)
      requires Valid() && drawRoll.InRange()
      modifies this
      ensures discovered == ClickDiscovery(old(State()), fireRoll, drawRoll)
      ensures State() == Click(old(State()), discovered)
      ensures Valid()
    {
      discovered := RollDiscovery(fireRoll, drawRoll);
      ClickKeepsInvariant(State(), discovered);
      ApplyClick(discovered);
    }

    /**
     * The discovery a click triggers: one runs only when `fireRoll` falls
     * below the chance for the click about to be counted.
     */
    method RollDiscovery(fireRoll: real, drawRoll: Roll) returns (discovered: Option<Card>)
      requires drawRoll.InRange()
      ensures discovered == ClickDiscovery(State(), fireRoll, drawRoll)
      ensures Discoverable(State(), discovered)
    {
      var discoveryChance := DiscoveryChance(totalClicks + 1);
      discovered := None;
      if fireRoll < discoveryChance {
        discovered := DiscoverRandomCard(cards, unlockedCards, drawRoll);
      }
      ClickDiscoveryFinds(State(), fireRoll, drawRoll);
    }

    /**
     * The rest of a click, once its discovery has yielded `discovered`:
     * the click value, the gem reward, the collected card and the bonuses.
     */
    method ApplyClick(discovered: Option<Card>)
      modifies this
      ensures State() == Click(old(State()), discovered)
    {
      ghost var s0 := State();
      var clickValue := ClickValue(clickPower, multiplier);
      var newClicks := currencies.clicks + clickValue;
      var newTotalClicks := totalClicks + 1;
      var newGems := currencies.gems;
      var newCards := cards;
      if discovered.Some? {
        newGems := newGems + GemReward(discovered.value.info.rarity);
        newCards := BumpOwned(cards, {discovered.value.Id()});
      }
      if newTotalClicks % 100 == 0 {
        newGems := newGems + 1;
      }
      var newStardust := currencies.stardust;
      if newTotalClicks % 1000 == 0 {
        newStardust := newStardust + 1;
      }
      cards := newCards;
      currencies := currencies.(clicks := newClicks, gems := newGems, stardust := newStardust);
      totalClicks := newTotalClicks;
      if discovered.Some? {
        unlockedCards := unlockedCards + {discovered.value.Id()};
        statistics := statistics.(
          totalCardsCollected := statistics.totalCardsCollected + 1,
          rareCardsFound := statistics.rareCardsFound + (if IsRareCard(discovered.value.info.rarity) then 1 else 0));
      }
      assert State() == Click(s0, discovered) by {
        ghost var t := Click(s0, discovered);
        assert currencies == t.currencies;
        assert cards == t.cards && unlockedCards == t.unlockedCards && statistics == t.statistics;
      }
    }

    /**
     * Upgrades the card with id `cardId` when it exists, is below its
     * maximum level and its cost is affordable; otherwise does nothing.
     */
    method UpgradeCard(cardId: string)
      requires Valid()
      modifies this
      ensures State() == Upgrade(old(State()), cardId)
      ensures Valid()
    {
      UpgradeKeepsInvariant(State(), cardId);
      ApplyUpgrade(cardId);
    }

    /** The steps of an upgrade, each refusal returning before anything changes. */
    method ApplyUpgrade(cardId: string)
      modifies this
      ensures State() == Upgrade(old(State()), cardId)
    {
      ghost var s0 := State();
      var cardIndex := FindIndex(cards, cardId);
      if cardIndex == -1 {
        return;
      }
      var card := cards[cardIndex];
      if card.level >= card.info.maxLevel {
        return;
      }
      var upgradeCost := CalculateUpgradeCost(card);
      if !CanAfford(currencies, upgradeCost) {
        return;
      }
      assert UpgradeAccepted(s0, cardId);
      var newCurrencies := DeductCost(currencies, upgradeCost);
      var newCards := cards[cardIndex := card.(level := card.level + 1, owned := card.owned + 1)];
      var newStats := CalculateGameStats(InDeck(newCards));
      assert Upgrade(s0, cardId) == s0.(currencies := newCurrencies, cards := newCards,
        clickPower := newStats.clickPower, autoClickRate := newStats.autoClickRate, multiplier := newStats.multiplier);
      currencies := newCurrencies;
      cards := newCards;
      clickPower := newStats.clickPower;
      autoClickRate := newStats.autoClickRate;
      multiplier := newStats.multiplier;
    }

    /**
     * Moves the card with id `cardId` in or out of the deck when it exists
     * and a copy is owned, then rebuilds the deck and the bonuses.
     */
    method ToggleCardInDeck(cardId: string)
      requires Valid()
      modifies this
      ensures State() == Toggle(old(State()), cardId)
      ensures Valid()
    {
      ToggleKeepsInvariant(State(), cardId);
      ApplyToggle(cardId);
    }

    /** The steps of a toggle. */
    method ApplyToggle(cardId: string)
      modifies this
      ensures State() == Toggle(old(State()), cardId)
    {
      var cardIndex := FindIndex(cards, cardId);
      if cardIndex == -1 || cards[cardIndex].owned == 0 {
        return;
      }
      var newCards := cards[cardIndex := cards[cardIndex].(inDeck := !cards[cardIndex].inDeck)];
      var deckCards := InDeck(newCards);
      var newStats := CalculateGameStats(deckCards);
      cards := newCards;
      deck := deckCards;
      clickPower := newStats.clickPower;
      autoClickRate := newStats.autoClickRate;
      multiplier := newStats.multiplier;
    }

    /**
     * Buys a pack when its price is affordable: pays it, opens the pack
     * with one roll per card slot, and collects the cards drawn (returned
     * in `drawn`). An unaffordable pack changes nothing and draws nothing.
     */
    method BuyCardPack(packType: PackType, rolls: seq<Roll>) returns (drawn: seq<Card>)
      requires Valid() && |rolls| == PackSize(packType) && AllInRange(rolls)
      modifies this
      ensures drawn == PackOpened(old(State()), packType, rolls)
      ensures State() == BuyPack(old(State()), packType, rolls)
      ensures Valid()
    {
      BuyPackKeepsInvariant(State(), packType, rolls);
      drawn := ApplyPackPurchase(packType, rolls);
    }

    /** The steps of a pack purchase. */
    method ApplyPackPurchase(packType: PackType, rolls: seq<Roll>) returns (drawn: seq<Card>)
      requires |rolls| == PackSize(packType) && AllInRange(rolls)
      modifies this
      ensures drawn == PackOpened(old(State()), packType, rolls)
      ensures State() == BuyPack(old(State()), packType, rolls)
    {
      var cost := PackCost(packType);
      drawn := [];
      if !CanAfford(currencies, cost) {
        return;
      }
      drawn := OpenCardPack(packType, cards, unlockedCards, rolls);
      CollectPack(packType, drawn);
    }

    /** Pays for a pack and collects the cards `drawn` from it. */
    method CollectPack(packType: PackType, drawn: seq<Card>)
      modifies this
      ensures State() == PackCollected(old(State()), packType, drawn)
    {
      var newCurrencies := DeductCost(currencies, PackCost(packType));
      var newUnlockedCards := AddIds(unlockedCards, drawn);
      var newCards := BumpOwned(cards, IdSet(drawn));
      cards := newCards;
      currencies := newCurrencies;
      unlockedCards := newUnlockedCards;
      statistics := statistics.(
        totalCardsCollected := statistics.totalCardsCollected + |drawn|,
        rareCardsFound := statistics.rareCardsFound + CountRare(drawn));
    }
  }

  /** Adds the id of each card of `drawn` to `unlocked`, one card at a time. */
  method AddIds(unlocked: set<string>, drawn: seq<Card>) returns (r: set<string>)
    ensures r == unlocked + IdSet(drawn)
  {
    r := unlocked;
    for i := 0 to |drawn|
      invariant r == unlocked + IdSet(drawn[..i])
    {
      assert IdSet(drawn[..i + 1]) == IdSet(drawn[..i]) + {drawn[i].Id()} by {
        assert drawn[..i + 1] == drawn[..i] + [drawn[i]];
      }
      r := r + {drawn[i].Id()};
    }
    assert drawn[..|drawn|] == drawn;
  }
}
