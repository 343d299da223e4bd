/**
 * The game engine: the state the game keeps, the five actions that change
 * it (a click, a tick of the auto-clicker, upgrading a card, moving a card in
 * or out of the deck, buying a card pack) and the invariant they all keep.
 *
 * Each action is given twice: as a function from the old state to the new
 * one, about which the lemmas below are proved, and as a method of the class
 * `GameEngine` that updates the fields step by step the way the game does
 * and is proved to produce exactly that new state.
 */
module Engine {
  import opened GameTypes
  import opened Catalog
  import opened Economy
  import opened Discovery

  // ---------------------------------------------------------------------
  // Helpers over the card collection
  // ---------------------------------------------------------------------

  /** The position of the first card with id `id`, or -1 when there is none. */
  function FindIndex(cards: seq<Card>, id: string): (k: int)
    ensures -1 <= k < |cards|
    ensures k == -1 <==> forall j :: 0 <= j < |cards| ==> cards[j].Id() != id
    ensures k >= 0 ==> cards[k].Id() == id && forall j :: 0 <= j < k ==> cards[j].Id() != id
  {
    if cards == [] then -1
    else if cards[0].Id() == id then 0
    else
      var r := FindIndex(cards[1..], id);
      assert forall j :: 1 <= j < |cards| ==> cards[j] == cards[1..][j - 1];
      if r == -1 then -1 else r + 1
  }

  /** The cards placed in the deck, in collection order. */
  function InDeck(cards: seq<Card>): (r: seq<Card>)
    ensures |r| <= |cards|
    ensures forall k :: 0 <= k < |r| ==> r[k].inDeck
  {
    if cards == [] then []
    else if cards[0].inDeck then [cards[0]] + InDeck(cards[1..])
    else InDeck(cards[1..])
  }

  /** Each card whose id is in `ids` with one more copy owned; the other cards as they were. */
  function BumpOwned(cards: seq<Card>, ids: set<string>): (r: seq<Card>)
    ensures |r| == |cards|
    ensures forall k :: 0 <= k < |cards| ==>
      r[k] == if cards[k].Id() in ids then cards[k].(owned := cards[k].owned + 1) else cards[k]
  {
    seq(|cards|, k requires 0 <= k < |cards| =>
      if cards[k].Id() in ids then cards[k].(owned := cards[k].owned + 1) else cards[k])
  }

  /** The number of rare-or-better cards among `drawn`. */
  function CountRare(drawn: seq<Card>): (n: nat)
    ensures n <= |drawn|
  {
    if drawn == [] then 0
    else CountRare(drawn[..|drawn| - 1]) + (if IsRareCard(drawn[|drawn| - 1].info.rarity) then 1 else 0)
  }

  /** The price of a pack. */
  function PackCost(packType: PackType): (cost: Amounts)
    ensures NonNegative(cost) && cost.clicks == 0 && cost.gems >= 5
  {
    match packType
    case BasicPack => Amounts(0, 5, 0, 0)
    case RarePack => Amounts(0, 25, 2, 0)
    case EpicPack => Amounts(0, 100, 10, 1)
  }

  /** The chance that click number `n` triggers a discovery: one in ten thousand per click made, capped at one in ten. */
  function DiscoveryChance(n: nat): (chance: real)
    ensures 0.0 <= chance <= 0.1
  {
    var rising := (n as real) * 0.0001;
    if 0.1 < rising then 0.1 else rising
  }

  /** The clicks one click earns: the click power times the multiplier, rounded down. */
  function ClickValue(clickPower: int, multiplier: real): int
  {
    ((clickPower as real) * multiplier).Floor
  }

  // ---------------------------------------------------------------------
  // The state of a new game and the invariant
  // ---------------------------------------------------------------------

  /** Every catalog card at level zero, none owned, none in the deck. */
  function InitialCards(): (cards: seq<Card>)
    ensures |cards| == |Cards|
  {
    seq(|Cards|, k requires 0 <= k < |Cards| => Card(Cards[k], 0, 0, false))
  }

  /** A new game: 100 clicks, 10 gems, 2 stardust, base bonuses, nothing collected. */
  function InitialGameState(): GameState
  {
    GameState(Amounts(100, 10, 2, 0), 0, 1, 0, 1.0, InitialCards(), [], {}, [],
              Statistics(0, 0, 0, 0))
  }

  /** The collection lists the catalog's cards, in catalog order. */
  predicate CatalogCards(cards: seq<Card>)
  {
    |cards| == |Cards| && forall k :: 0 <= k < |cards| ==> cards[k].info == Cards[k]
  }

  /**
   * One card's progress is consistent: its level is within its maximum, it
   * owns one copy per level plus one once it is collected, and it is in the
   * deck only if at least one copy is owned.
   */
  predicate CardConsistent(card: Card, unlocked: set<string>)
  {
    && card.level <= card.info.maxLevel
    && card.owned == card.level + (if card.Id() in unlocked then 1 else 0)
    && (card.inDeck ==> card.owned > 0)
  }

  predicate CardsConsistent(cards: seq<Card>, unlocked: set<string>)
  {
    forall k :: 0 <= k < |cards| ==> CardConsistent(cards[k], unlocked)
  }

  /**
   * What every reachable state satisfies: the collection is the catalog,
   * each card's progress is consistent, only catalog ids are collected and
   * the statistics count them, no currency is negative, the three bonuses
   * are those of the cards flagged in the deck, and the deck lists those
   * cards (possibly at the levels they had when it was last rebuilt).
   */
  predicate Invariant(s: GameState)
  {
    && CatalogCards(s.cards)
    && CardsConsistent(s.cards, s.unlockedCards)
    && s.unlockedCards <= IdSet(s.cards)
    && s.statistics.totalCardsCollected == |s.unlockedCards|
    && s.statistics.rareCardsFound <= s.statistics.totalCardsCollected
    && NonNegative(s.currencies)
    && Stats(s.clickPower, s.autoClickRate, s.multiplier) == GameStats(InDeck(s.cards))
    && Ids(s.deck) == Ids(InDeck(s.cards))
  }

  // ---------------------------------------------------------------------
  // The actions, as functions of the state
  // ---------------------------------------------------------------------

  /** The card a click discovers: a discovery runs only when the first draw falls below the chance. */
  function ClickDiscovery(s: GameState, fireRoll: real, roll: Roll): (found: Option<Card>)
    requires roll.InRange()
    ensures found.Some? ==> fireRoll < DiscoveryChance(s.totalClicks + 1)
  {
    if fireRoll < DiscoveryChance(s.totalClicks + 1) then Discover(s.cards, s.unlockedCards, roll) else None
  }

  /** What a discovery may yield in state `s`: nothing, or a card of the collection that is not collected yet. */
  predicate Discoverable(s: GameState, found: Option<Card>)
  {
    found.Some? ==> found.value in s.cards && found.value.Id() !in s.unlockedCards
  }

  /**
   * A click whose discovery yielded `found`: earns the click value, counts
   * the click, collects the card found (which gains a copy and pays its gem
   * reward), and pays a gem every hundredth click and a stardust every
   * thousandth.
   */
  function Click(s: GameState, found: Option<Card>): (t: GameState)
    ensures t.totalClicks == s.totalClicks + 1
    ensures t.(currencies := s.currencies, totalClicks := s.totalClicks, cards := s.cards,
               unlockedCards := s.unlockedCards, statistics := s.statistics) == s
    ensures t.statistics.clicksPerSecond == s.statistics.clicksPerSecond
    ensures t.statistics.highestCombo == s.statistics.highestCombo
  {
    var total := s.totalClicks + 1;
    var reward := if found.Some? then GemReward(found.value.info.rarity) else 0;
    var currencies := s.currencies.(
      clicks := s.currencies.clicks + ClickValue(s.clickPower, s.multiplier),
      gems := s.currencies.gems + reward + (if total % 100 == 0 then 1 else 0),
      stardust := s.currencies.stardust + (if total % 1000 == 0 then 1 else 0));
    match found
    case None => s.(currencies := currencies, totalClicks := total)
    case Some(card) =>
      s.(cards := BumpOwned(s.cards, {card.Id()}),
         currencies := currencies,
         totalClicks := total,
         unlockedCards := s.unlockedCards + {card.Id()},
         statistics := s.statistics.(
           totalCardsCollected := s.statistics.totalCardsCollected + 1,
           rareCardsFound := s.statistics.rareCardsFound + (if IsRareCard(card.info.rarity) then 1 else 0)))
  }

  /** One second of the auto-clicker, which runs only while the rate is positive. */
  function AutoTick(s: GameState): (t: GameState)
    ensures t.(currencies := s.currencies, statistics := s.statistics) == s
    ensures t.currencies.(clicks := s.currencies.clicks) == s.currencies
    ensures t.statistics.(clicksPerSecond := s.statistics.clicksPerSecond) == s.statistics
  {
    if s.autoClickRate > 0 then
      s.(currencies := s.currencies.(clicks := s.currencies.clicks + ClickValue(s.autoClickRate, s.multiplier)),
         statistics := s.statistics.(clicksPerSecond := s.autoClickRate))
    else s
  }

  /** An upgrade goes through when the card exists, is below its maximum level and its cost is affordable. */
  predicate UpgradeAccepted(s: GameState, cardId: string)
  {
    var k := FindIndex(s.cards, cardId);
    k != -1 && s.cards[k].level < s.cards[k].info.maxLevel && CanAfford(s.currencies, UpgradeCost(s.cards[k]))
  }

  /**
   * Upgrading a card: pays the cost, raises its level and its owned count
   * by one, and recomputes the bonuses from the cards flagged in the deck.
   * The deck list itself is left as it was.
   */
  function Upgrade(s: GameState, cardId: string): (t: GameState)
    ensures t.(currencies := s.currencies, cards := s.cards,
               clickPower := s.clickPower, autoClickRate := s.autoClickRate, multiplier := s.multiplier) == s
    ensures |t.cards| == |s.cards|
  {
    if !UpgradeAccepted(s, cardId) then s
    else
      var k := FindIndex(s.cards, cardId);
      var card := s.cards[k];
      var newCards := s.cards[k := card.(level := card.level + 1, owned := card.owned + 1)];
      var stats := GameStats(InDeck(newCards));
      s.(currencies := Deducted(s.currencies, UpgradeCost(card)),
         cards := newCards,
         clickPower := stats.clickPower,
         autoClickRate := stats.autoClickRate,
         multiplier := stats.multiplier)
  }

  /** A card can move in or out of the deck when it exists and at least one copy is owned. */
  predicate ToggleAccepted(s: GameState, cardId: string)
  {
    var k := FindIndex(s.cards, cardId);
    k != -1 && s.cards[k].owned != 0
  }

  /** Moving a card in or out of the deck, then rebuilding the deck and the bonuses. */
  function Toggle(s: GameState, cardId: string): (t: GameState)
    ensures t.(cards := s.cards, deck := s.deck,
               clickPower := s.clickPower, autoClickRate := s.autoClickRate, multiplier := s.multiplier) == s
    ensures |t.cards| == |s.cards|
  {
    if !ToggleAccepted(s, cardId) then s
    else
      var k := FindIndex(s.cards, cardId);
      var newCards := s.cards[k := s.cards[k].(inDeck := !s.cards[k].inDeck)];
      var deck := InDeck(newCards);
      var stats := GameStats(deck);
      s.(cards := newCards,
         deck := deck,
         clickPower := stats.clickPower,
         autoClickRate := stats.autoClickRate,
         multiplier := stats.multiplier)
  }

  /** The cards a pack purchase yields: none when the pack is not affordable. */
  function PackOpened(s: GameState, packType: PackType, rolls: seq<Roll>): seq<Card>
    requires |rolls| == PackSize(packType) && AllInRange(rolls)
  {
    if CanAfford(s.currencies, PackCost(packType)) then PackDraws(s.cards, s.unlockedCards, rolls) else []
  }

  /** Paying for a pack and collecting the cards it yielded: each gains a copy and its id is collected. */
  function PackCollected(s: GameState, packType: PackType, drawn: seq<Card>): (t: GameState)
    ensures t.(cards := s.cards, currencies := s.currencies, unlockedCards := s.unlockedCards,
               statistics := s.statistics) == s
    ensures t.statistics.clicksPerSecond == s.statistics.clicksPerSecond
    ensures t.statistics.highestCombo == s.statistics.highestCombo
  {
    s.(cards := BumpOwned(s.cards, IdSet(drawn)),
       currencies := Deducted(s.currencies, PackCost(packType)),
       unlockedCards := s.unlockedCards + IdSet(drawn),
       statistics := s.statistics.(
         totalCardsCollected := s.statistics.totalCardsCollected + |drawn|,
         rareCardsFound := s.statistics.rareCardsFound + CountRare(drawn)))
  }

  /** Buying a pack: when its price is affordable, pays it and collects the cards drawn. */
  function BuyPack(s: GameState, packType: PackType, rolls: seq<Roll>): (t: GameState)
    requires |rolls| == PackSize(packType) && AllInRange(rolls)
    ensures t.(cards := s.cards, currencies := s.currencies, unlockedCards := s.unlockedCards,
               statistics := s.statistics) == s
    ensures t.statistics.clicksPerSecond == s.statistics.clicksPerSecond
    ensures t.statistics.highestCombo == s.statistics.highestCombo
  {
    if !CanAfford(s.currencies, PackCost(packType)) then s
    else PackCollected(s, packType, PackDraws(s.cards, s.unlockedCards, rolls))
  }

  // ---------------------------------------------------------------------
  // Facts about the collection helpers
  // ---------------------------------------------------------------------

  /** Two collections that agree, card by card, on catalog entry and deck flag. */
  predicate SameFlags(a: seq<Card>, b: seq<Card>)
  {
    |a| == |b| && forall k :: 0 <= k < |a| ==> a[k].info == b[k].info && a[k].inDeck == b[k].inDeck
  }

  /** The deck holds exactly the flagged cards of the collection. */
  lemma {:induction false} InDeckMembers(cards: seq<Card>)
    ensures forall c :: c in InDeck(cards) <==> c in cards && c.inDeck
    decreases |cards|
  {
    if cards != [] {
      InDeckMembers(cards[1..]);
      assert forall c :: c in cards <==> c == cards[0] || c in cards[1..];
    }
  }

  /** Collections with the same entries and deck flags put the same entries in the deck, in the same order. */
  lemma {:induction false} DeckFollowsFlags(a: seq<Card>, b: seq<Card>)
    requires SameFlags(a, b)
    ensures |InDeck(a)| == |InDeck(b)|
    ensures forall k :: 0 <= k < |InDeck(a)| ==> InDeck(a)[k].info == InDeck(b)[k].info
    decreases |a|
  {
    if a != [] {
      assert SameFlags(a[1..], b[1..]);
      DeckFollowsFlags(a[1..], b[1..]);
    }
  }

  /** When the levels agree as well, the deck cards agree on entry and level. */
  lemma {:induction false} DeckFollowsLevels(a: seq<Card>, b: seq<Card>)
    requires SameFlags(a, b) && forall k :: 0 <= k < |a| ==> a[k].level == b[k].level
    ensures SameLevels(InDeck(a), InDeck(b))
    decreases |a|
  {
    if a != [] {
      assert SameFlags(a[1..], b[1..]);
      assert forall k :: 0 <= k < |a[1..]| ==> a[1..][k].level == b[1..][k].level;
      DeckFollowsLevels(a[1..], b[1..]);
    }
  }

  /** Collections with the same entries and deck flags have decks with the same ids. */
  lemma DeckIdsFollowFlags(a: seq<Card>, b: seq<Card>)
    requires SameFlags(a, b)
    ensures Ids(InDeck(a)) == Ids(InDeck(b))
  {
    DeckFollowsFlags(a, b);
  }

  /** A collection with no card flagged has an empty deck. */
  lemma {:induction false} NoFlagsEmptyDeck(cards: seq<Card>)
    requires forall k :: 0 <= k < |cards| ==> !cards[k].inDeck
    ensures InDeck(cards) == []
    decreases |cards|
  {
    if cards != [] {
      NoFlagsEmptyDeck(cards[1..]);
    }
  }

  /** Collecting the cards with ids in `ids` keeps entries, levels and flags, and so the deck and its bonuses. */
  lemma BumpKeepsDeck(cards: seq<Card>, ids: set<string>)
    ensures SameFlags(cards, BumpOwned(cards, ids))
    ensures Ids(InDeck(BumpOwned(cards, ids))) == Ids(InDeck(cards))
    ensures GameStats(InDeck(BumpOwned(cards, ids))) == GameStats(InDeck(cards))
    ensures IdSet(BumpOwned(cards, ids)) == IdSet(cards)
    ensures CatalogCards(cards) ==> CatalogCards(BumpOwned(cards, ids))
  {
    var bumped := BumpOwned(cards, ids);
    assert SameFlags(cards, bumped);
    DeckIdsFollowFlags(cards, bumped);
    DeckFollowsLevels(cards, bumped);
    StatsDependOnLevels(InDeck(cards), InDeck(bumped));
    assert forall k :: 0 <= k < |cards| ==> bumped[k].Id() == cards[k].Id();
  }

  /**
   * Gaining a copy of each card whose id is newly collected keeps every
   * card consistent, provided none of those ids was collected before.
   */
  lemma BumpKeepsConsistent(cards: seq<Card>, unlocked: set<string>, ids: set<string>)
    requires CardsConsistent(cards, unlocked) && ids !! unlocked
    ensures CardsConsistent(BumpOwned(cards, ids), unlocked + ids)
  {
    var bumped := BumpOwned(cards, ids);
    forall k | 0 <= k < |bumped| ensures CardConsistent(bumped[k], unlocked + ids) {
      assert CardConsistent(cards[k], unlocked);
    }
  }

  /** The catalog's bonuses can only help. */
  lemma CatalogCardsSane(cards: seq<Card>)
    requires CatalogCards(cards)
    ensures AllSane(cards)
    ensures AllSane(InDeck(cards))
  {
    CatalogWellFormed();
    forall k | 0 <= k < |cards| ensures SaneEffect(cards[k].info.baseEffect) {
      assert SingleEffect(Cards[k]);
    }
    InDeckMembers(cards);
    forall k | 0 <= k < |InDeck(cards)| ensures SaneEffect(InDeck(cards)[k].info.baseEffect) {
      assert InDeck(cards)[k] in InDeck(cards);
    }
  }

  /** In a reachable state the click power is at least one, the rate non-negative and the multiplier at least one. */
  lemma InvariantBounds(s: GameState)
    requires Invariant(s)
    ensures s.clickPower >= 1 && s.autoClickRate >= 0 && s.multiplier >= 1.0
    ensures forall k :: 0 <= k < |s.cards| ==> s.cards[k].owned >= s.cards[k].level
  {
    CatalogCardsSane(s.cards);
    StatsBounds(InDeck(s.cards));
    assert forall k :: 0 <= k < |s.cards| ==> CardConsistent(s.cards[k], s.unlockedCards);
  }

  /** With a multiplier of at least one, a click is worth at least the click power. */
  lemma ClickValueAtLeastPower(power: int, multiplier: real)
    requires power >= 0 && multiplier >= 1.0
    ensures ClickValue(power, multiplier) >= power
  {
    assert (power as real) * multiplier >= (power as real) * 1.0;
  }

  // ---------------------------------------------------------------------
  // A new game
  // ---------------------------------------------------------------------

  /** The cards of a new game are the catalog's, each consistent, none in the deck. */
  lemma InitialCardsFresh()
    ensures CatalogCards(InitialCards())
    ensures CardsConsistent(InitialCards(), {})
    ensures InDeck(InitialCards()) == []
  {
    var cards := InitialCards();
    assert forall k :: 0 <= k < |cards| ==> cards[k] == Card(Cards[k], 0, 0, false);
    NoFlagsEmptyDeck(cards);
  }

  /** A new game satisfies the invariant and starts with the base bonuses and an empty deck. */
  lemma InitialStateValid()
    ensures Invariant(InitialGameState())
    ensures InDeck(InitialGameState().cards) == []
  {
    var s := InitialGameState();
    InitialCardsFresh();
    IdleDeckStats(InDeck(s.cards));
  }

  // ---------------------------------------------------------------------
  // The auto-clicker
  // ---------------------------------------------------------------------

  /**
   * A tick with a positive rate earns the rate times the multiplier,
   * rounded down (so at least the rate), records the rate as the clicks per
   * second and changes nothing else; with rate zero nothing happens. The
   * invariant is kept.
   */
  lemma AutoTickEarns(s: GameState)
    requires Invariant(s)
    ensures var t := AutoTick(s);
      && Invariant(t)
      && (s.autoClickRate > 0 ==>
            && t.currencies.clicks == s.currencies.clicks + ClickValue(s.autoClickRate, s.multiplier)
            && t.currencies.clicks >= s.currencies.clicks + s.autoClickRate
            && t.statistics.clicksPerSecond == s.autoClickRate
            && t == s.(currencies := s.currencies.(clicks := t.currencies.clicks),
                       statistics := s.statistics.(clicksPerSecond := s.autoClickRate)))
      && (s.autoClickRate == 0 ==> t == s)
      && t.currencies.(clicks := s.currencies.clicks) == s.currencies
      && t.cards == s.cards && t.deck == s.deck && t.unlockedCards == s.unlockedCards
  {
    InvariantBounds(s);
    ClickValueAtLeastPower(s.autoClickRate, s.multiplier);
    var t := AutoTick(s);
    if s.autoClickRate > 0 {
      assert t.currencies.Get(Clicks) >= s.currencies.Get(Clicks);
      assert forall c :: c != Clicks ==> t.currencies.Get(c) == s.currencies.Get(c);
    }
  }

  // ---------------------------------------------------------------------
  // Upgrading a card
  // ---------------------------------------------------------------------

  /**
   * An upgrade changes the state exactly when it is accepted: the card
   * exists, is below its maximum level and its cost is affordable.
   */
  lemma UpgradeChangesIffAccepted(s: GameState, cardId: string)
    ensures Upgrade(s, cardId) != s <==> UpgradeAccepted(s, cardId)
  {
    if UpgradeAccepted(s, cardId) {
      var k := FindIndex(s.cards, cardId);
      assert Upgrade(s, cardId).cards[k].level == s.cards[k].level + 1;
    }
  }

  /**
   * An accepted upgrade pays the cost of the card's current level, raises
   * its level and owned count by one, changes no other card and leaves the
   * deck list as it was, even though its cards may now be out of date.
   */
  lemma UpgradeEffect(s: GameState, cardId: string)
    requires UpgradeAccepted(s, cardId)
    ensures var t := Upgrade(s, cardId);
      var k := FindIndex(s.cards, cardId);
      && t.currencies == Deducted(s.currencies, UpgradeCost(s.cards[k]))
      && |t.cards| == |s.cards|
      && t.cards[k] == s.cards[k].(level := s.cards[k].level + 1, owned := s.cards[k].owned + 1)
      && (forall j :: 0 <= j < |s.cards| && j != k ==> t.cards[j] == s.cards[j])
      && t.deck == s.deck && t.unlockedCards == s.unlockedCards && t.statistics == s.statistics
      && Stats(t.clickPower, t.autoClickRate, t.multiplier) == GameStats(InDeck(t.cards))
      && t == s.(currencies := t.currencies, cards := t.cards,
                 clickPower := t.clickPower, autoClickRate := t.autoClickRate, multiplier := t.multiplier)
  {
  }

  /** An upgrade keeps the invariant. */
  lemma UpgradeKeepsInvariant(s: GameState, cardId: string)
    requires Invariant(s)
    ensures Invariant(Upgrade(s, cardId))
  {
    if UpgradeAccepted(s, cardId) {
      var t := Upgrade(s, cardId);
      var k := FindIndex(s.cards, cardId);
      assert SameFlags(s.cards, t.cards);
      DeckIdsFollowFlags(s.cards, t.cards);
      assert IdSet(t.cards) == IdSet(s.cards) by {
        assert forall j :: 0 <= j < |s.cards| ==> t.cards[j].Id() == s.cards[j].Id();
      }
      assert CardsConsistent(t.cards, t.unlockedCards) by {
        assert CardConsistent(s.cards[k], s.unlockedCards);
      }
    }
  }

  /**
   * Upgrading does not ask for the card to be collected: in a new game,
   * where no card is owned, the first card can be upgraded, and it is then
   * owned once while still not collected.
   */
  lemma UpgradeIgnoresOwnership()
    ensures var s := InitialGameState();
      && s.cards[0].owned == 0 && s.cards[0].Id() !in s.unlockedCards
      && UpgradeAccepted(s, RookieClicker.id)
      && Upgrade(s, RookieClicker.id).cards[0].owned == 1
      && RookieClicker.id !in Upgrade(s, RookieClicker.id).unlockedCards
  {
    var s := InitialGameState();
    assert s.cards[0].info == RookieClicker;
    assert FindIndex(s.cards, RookieClicker.id) == 0;
    assert UpgradeCost(s.cards[0]) == Amounts(10, 0, 0, 0);
  }

  // ---------------------------------------------------------------------
  // Moving a card in or out of the deck
  // ---------------------------------------------------------------------

  /** A toggle changes the state exactly when it is accepted, and then it flips that one card's flag and rebuilds the deck. */
  lemma ToggleEffect(s: GameState, cardId: string)
    ensures Toggle(s, cardId) != s <==> ToggleAccepted(s, cardId)
    ensures ToggleAccepted(s, cardId) ==>
      var t := Toggle(s, cardId);
      var k := FindIndex(s.cards, cardId);
      && |t.cards| == |s.cards|
      && t.cards[k].inDeck == !s.cards[k].inDeck
      && t.cards[k] == s.cards[k].(inDeck := t.cards[k].inDeck)
      && (forall j :: 0 <= j < |s.cards| && j != k ==> t.cards[j] == s.cards[j])
      && t.deck == InDeck(t.cards)
      && Stats(t.clickPower, t.autoClickRate, t.multiplier) == GameStats(t.deck)
      && t.currencies == s.currencies && t.unlockedCards == s.unlockedCards
      && t == s.(cards := t.cards, deck := t.deck,
                 clickPower := t.clickPower, autoClickRate := t.autoClickRate, multiplier := t.multiplier)
  {
    if ToggleAccepted(s, cardId) {
      var k := FindIndex(s.cards, cardId);
      assert Toggle(s, cardId).cards[k].inDeck != s.cards[k].inDeck;
    }
  }

  /** A toggle keeps the invariant. */
  lemma ToggleKeepsInvariant(s: GameState, cardId: string)
    requires Invariant(s)
    ensures Invariant(Toggle(s, cardId))
  {
    if ToggleAccepted(s, cardId) {
      var t := Toggle(s, cardId);
      var k := FindIndex(s.cards, cardId);
      assert IdSet(t.cards) == IdSet(s.cards) by {
        assert forall j :: 0 <= j < |s.cards| ==> t.cards[j].Id() == s.cards[j].Id();
      }
      assert CardsConsistent(t.cards, t.unlockedCards) by {
        assert CardConsistent(s.cards[k], s.unlockedCards);
      }
      assert CatalogCards(t.cards);
    }
  }

  /**
   * Toggling the same card twice restores the collection and the bonuses;
   * the deck list comes back rebuilt from the collection, which refreshes
   * any levels an upgrade left out of date.
   */
  lemma ToggleTwice(s: GameState, cardId: string)
    requires Invariant(s)
    ensures Toggle(Toggle(s, cardId), cardId) == if ToggleAccepted(s, cardId) then s.(deck := InDeck(s.cards)) else s
  {
    if ToggleAccepted(s, cardId) {
      var t := Toggle(s, cardId);
      var k := FindIndex(s.cards, cardId);
      assert t.cards[k].owned == s.cards[k].owned;
      assert FindIndex(t.cards, cardId) == k by {
        assert forall j :: 0 <= j < |s.cards| ==> t.cards[j].Id() == s.cards[j].Id();
      }
      assert ToggleAccepted(t, cardId);
      assert Toggle(t, cardId).cards == s.cards;
    }
  }

  // ---------------------------------------------------------------------
  // A click
  // ---------------------------------------------------------------------

  /**
   * The discovery chance never exceeds one in ten, reaches it exactly from
   * the thousandth click on, and never falls as clicks accumulate.
   */
  lemma DiscoveryChanceCapped(m: nat, n: nat)
    ensures 0.0 <= DiscoveryChance(n) <= 0.1
    ensures DiscoveryChance(n) == 0.1 <==> n >= 1000
    ensures m <= n ==> DiscoveryChance(m) <= DiscoveryChance(n)
  {
    assert (n as real) * 0.0001 >= 0.1 <==> n >= 1000;
    assert m <= n ==> (m as real) * 0.0001 <= (n as real) * 0.0001;
  }

  /**
   * A click discovers a card exactly when the first draw falls below the
   * chance and some card is not yet collected, and what it discovers is
   * discoverable.
   */
  lemma ClickDiscoveryFinds(s: GameState, fireRoll: real, roll: Roll)
    requires roll.InRange()
    ensures ClickDiscovery(s, fireRoll, roll).Some? <==>
      fireRoll < DiscoveryChance(s.totalClicks + 1) && exists k :: 0 <= k < |s.cards| && s.cards[k].Id() !in s.unlockedCards
    ensures Discoverable(s, ClickDiscovery(s, fireRoll, roll))
  {
    DiscoverFindsLockedCard(s.cards, s.unlockedCards, roll);
  }

  /**
   * A click counts itself, earns the click value (at least the click
   * power, since the multiplier is at least one), raises gems
   * exactly when it is a hundredth click or finds a card, raises stardust
   * by one exactly on a thousandth click and leaves essence alone. A click
   * that finds a card collects it; one that does not leaves the collection
   * and the statistics alone. (Every reachable state meets the bounds
   * required here, by InvariantBounds.)
   */
  lemma ClickEffect(s: GameState, found: Option<Card>)
    requires s.clickPower >= 1 && s.multiplier >= 1.0 && Discoverable(s, found)
    ensures var t := Click(s, found);
      && t.totalClicks == s.totalClicks + 1
      && t.currencies.clicks == s.currencies.clicks + ClickValue(s.clickPower, s.multiplier)
      && t.currencies.clicks >= s.currencies.clicks + s.clickPower
      && (t.currencies.gems > s.currencies.gems <==> t.totalClicks % 100 == 0 || found.Some?)
      && t.currencies.gems >= s.currencies.gems
      && (t.currencies.stardust == if t.totalClicks % 1000 == 0 then s.currencies.stardust + 1 else s.currencies.stardust)
      && t.currencies.essence == s.currencies.essence
      && t.deck == s.deck && t.clickPower == s.clickPower && t.multiplier == s.multiplier
      && (found.None? ==> t.cards == s.cards && t.unlockedCards == s.unlockedCards && t.statistics == s.statistics)
      && (found.None? ==> t.currencies.gems == s.currencies.gems + (if t.totalClicks % 100 == 0 then 1 else 0))
      && (found.Some? ==>
            var card := found.value;
            && card.Id() !in s.unlockedCards
            && t.unlockedCards == s.unlockedCards + {card.Id()}
            && t.cards == BumpOwned(s.cards, {card.Id()})
            && t.currencies.gems == s.currencies.gems + GemReward(card.info.rarity) + (if t.totalClicks % 100 == 0 then 1 else 0)
            && t.statistics.totalCardsCollected == s.statistics.totalCardsCollected + 1
            && t.statistics.rareCardsFound == s.statistics.rareCardsFound + (if IsRareCard(card.info.rarity) then 1 else 0))
      && t == s.(currencies := t.currencies, totalClicks := t.totalClicks, cards := t.cards,
                 unlockedCards := t.unlockedCards,
                 statistics := s.statistics.(totalCardsCollected := t.statistics.totalCardsCollected,
                                             rareCardsFound := t.statistics.rareCardsFound))
  {
    ClickValueAtLeastPower(s.clickPower, s.multiplier);
  }

  /**
   * Collecting a set of new catalog ids (each gaining a copy, the count of
   * collected cards growing by their number) with non-negative currencies
   * keeps the invariant; a click that finds a card and a pack both do this.
   */
  lemma CollectKeepsInvariant(s: GameState, ids: set<string>, currencies: Amounts, totalClicks: nat, rareGain: nat)
    requires Invariant(s) && ids !! s.unlockedCards && ids <= IdSet(s.cards)
    requires rareGain <= |ids| && NonNegative(currencies)
    ensures Invariant(s.(cards := BumpOwned(s.cards, ids), currencies := currencies, totalClicks := totalClicks,
                         unlockedCards := s.unlockedCards + ids,
                         statistics := s.statistics.(
                           totalCardsCollected := s.statistics.totalCardsCollected + |ids|,
                           rareCardsFound := s.statistics.rareCardsFound + rareGain)))
  {
    BumpKeepsDeck(s.cards, ids);
    BumpKeepsConsistent(s.cards, s.unlockedCards, ids);
    assert |s.unlockedCards + ids| == |s.unlockedCards| + |ids|;
  }

  /** A click from non-negative currencies leaves them non-negative. */
  lemma ClickKeepsCurrenciesNonNegative(s: GameState, found: Option<Card>)
    requires s.clickPower >= 1 && s.multiplier >= 1.0 && NonNegative(s.currencies)
    ensures NonNegative(Click(s, found).currencies)
  {
    var t := Click(s, found);
    ClickValueAtLeastPower(s.clickPower, s.multiplier);
    assert t.currencies.clicks >= s.currencies.clicks && t.currencies.gems >= s.currencies.gems;
    assert t.currencies.stardust >= s.currencies.stardust && t.currencies.essence == s.currencies.essence;
    assert s.currencies.Get(Clicks) >= 0 && s.currencies.Get(Gems) >= 0;
    assert s.currencies.Get(Stardust) >= 0 && s.currencies.Get(Essence) >= 0;
  }

  /** A click keeps the invariant. */
  lemma ClickKeepsInvariant(s: GameState, found: Option<Card>)
    requires Invariant(s) && Discoverable(s, found)
    ensures Invariant(Click(s, found))
  {
    var t := Click(s, found);
    InvariantBounds(s);
    ClickKeepsCurrenciesNonNegative(s, found);
    if found.Some? {
      var id := found.value.Id();
      assert id in IdSet(s.cards) by {
        var j :| 0 <= j < |s.cards| && s.cards[j] == found.value;
      }
      CollectKeepsInvariant(s, {id}, t.currencies, t.totalClicks, if IsRareCard(found.value.info.rarity) then 1 else 0);
    }
  }

  /** Once every card is collected, no click discovers anything. */
  lemma NothingLeftToDiscover(s: GameState, fireRoll: real, roll: Roll)
    requires roll.InRange()
    requires forall k :: 0 <= k < |s.cards| ==> s.cards[k].Id() in s.unlockedCards
    ensures ClickDiscovery(s, fireRoll, roll) == None
    ensures Click(s, ClickDiscovery(s, fireRoll, roll)).cards == s.cards
  {
    ClickDiscoveryFinds(s, fireRoll, roll);
  }

  // ---------------------------------------------------------------------
  // Buying a pack
  // ---------------------------------------------------------------------

  /**
   * A pack that cannot be paid for changes nothing and yields nothing. A
   * pack that can is paid for, and collects the cards it yields: ids not
   * collected before, one per roll or as many as remain if that is fewer.
   */
  lemma BuyPackEffect(s: GameState, packType: PackType, rolls: seq<Roll>)
    requires |rolls| == PackSize(packType) && AllInRange(rolls)
    ensures var t := BuyPack(s, packType, rolls);
      var drawn := PackOpened(s, packType, rolls);
      && (!CanAfford(s.currencies, PackCost(packType)) ==> t == s && drawn == [])
      && (CanAfford(s.currencies, PackCost(packType)) ==>
            && t.currencies == Deducted(s.currencies, PackCost(packType))
            && IdSet(drawn) !! s.unlockedCards
            && t.unlockedCards == s.unlockedCards + IdSet(drawn)
            && |IdSet(drawn)| == |drawn|
            && |drawn| == (if |rolls| <= |FreshIds(s.cards, s.unlockedCards)| then |rolls| else |FreshIds(s.cards, s.unlockedCards)|)
            && t.cards == BumpOwned(s.cards, IdSet(drawn))
            && t.statistics.totalCardsCollected == s.statistics.totalCardsCollected + |drawn|
            && t.statistics.rareCardsFound == s.statistics.rareCardsFound + CountRare(drawn)
            && t.totalClicks == s.totalClicks && t.deck == s.deck
            && Stats(t.clickPower, t.autoClickRate, t.multiplier) == Stats(s.clickPower, s.autoClickRate, s.multiplier)
            && |drawn| <= PackSize(packType)
            && t == s.(currencies := t.currencies, cards := t.cards, unlockedCards := t.unlockedCards,
                       statistics := s.statistics.(totalCardsCollected := t.statistics.totalCardsCollected,
                                                   rareCardsFound := t.statistics.rareCardsFound)))
  {
    if CanAfford(s.currencies, PackCost(packType)) {
      var drawn := PackDraws(s.cards, s.unlockedCards, rolls);
      PackDrawsFresh(s.cards, s.unlockedCards, rolls);
      PackDrawsCount(s.cards, s.unlockedCards, rolls);
      DistinctIdsCount(drawn);
    }
  }

  /** Paying for a pack that is affordable and collecting distinct uncollected cards of the collection keeps the invariant. */
  lemma PackCollectedKeepsInvariant(s: GameState, packType: PackType, drawn: seq<Card>)
    requires Invariant(s) && CanAfford(s.currencies, PackCost(packType))
    requires forall k :: 0 <= k < |drawn| ==> drawn[k] in s.cards && drawn[k].Id() !in s.unlockedCards
    requires forall i, j :: 0 <= i < j < |drawn| ==> drawn[i].Id() != drawn[j].Id()
    ensures Invariant(PackCollected(s, packType, drawn))
  {
    var ids := IdSet(drawn);
    DistinctIdsCount(drawn);
    DrawnIdsInCollection(s.cards, drawn);
    assert ids !! s.unlockedCards;
    CollectKeepsInvariant(s, ids, Deducted(s.currencies, PackCost(packType)), s.totalClicks, CountRare(drawn));
  }

  /** Buying a pack keeps the invariant. */
  lemma BuyPackKeepsInvariant(s: GameState, packType: PackType, rolls: seq<Roll>)
    requires Invariant(s) && |rolls| == PackSize(packType) && AllInRange(rolls)
    ensures Invariant(BuyPack(s, packType, rolls))
  {
    if CanAfford(s.currencies, PackCost(packType)) {
      PackDrawsFresh(s.cards, s.unlockedCards, rolls);
      PackCollectedKeepsInvariant(s, packType, PackDraws(s.cards, s.unlockedCards, rolls));
    }
  }

  // ---------------------------------------------------------------------
  // Runs of actions from a new game
  // ---------------------------------------------------------------------

  /** One action the player or the timer can take, with the draws it consumes. */
  datatype Action =
    | ClickAction(fireRoll: real, roll: Roll)
    | TickAction
    | UpgradeAction(cardId: string)
    | ToggleAction(cardId: string)
    | BuyPackAction(packType: PackType, rolls: seq<Roll>)

  /** The draws of an action are uniform draws in [0, 1), one pair per card slot of a pack. */
  predicate WellFormedAction(a: Action)
  {
    match a
    case ClickAction(_, roll) => roll.InRange()
    case BuyPackAction(packType, rolls) => |rolls| == PackSize(packType) && AllInRange(rolls)
    case _ => true
  }

  /** The state after action `a`. */
  function Step(s: GameState, a: Action): GameState
    requires WellFormedAction(a)
  {
    match a
    case ClickAction(fireRoll, roll) => Click(s, ClickDiscovery(s, fireRoll, roll))
    case TickAction => AutoTick(s)
    case UpgradeAction(cardId) => Upgrade(s, cardId)
    case ToggleAction(cardId) => Toggle(s, cardId)
    case BuyPackAction(packType, rolls) => BuyPack(s, packType, rolls)
  }

  /** The state after the actions, taken in order from `s`. */
  function Run(s: GameState, actions: seq<Action>): GameState
    requires forall k :: 0 <= k < |actions| ==> WellFormedAction(actions[k])
    decreases |actions|
  {
    if actions == [] then s else Run(Step(s, actions[0]), actions[1..])
  }

  /** Every action keeps the invariant. */
  lemma StepKeepsInvariant(s: GameState, a: Action)
    requires Invariant(s) && WellFormedAction(a)
    ensures Invariant(Step(s, a))
  {
    match a
    case ClickAction(fireRoll, roll) =>
      ClickDiscoveryFinds(s, fireRoll, roll);
      ClickKeepsInvariant(s, ClickDiscovery(s, fireRoll, roll));
    case TickAction => AutoTickEarns(s);
    case UpgradeAction(cardId) => UpgradeKeepsInvariant(s, cardId);
    case ToggleAction(cardId) => ToggleKeepsInvariant(s, cardId);
    case BuyPackAction(packType, rolls) => BuyPackKeepsInvariant(s, packType, rolls);
  }

  /** Any run of actions from a state satisfying the invariant ends in one. */
  lemma {:induction false} RunKeepsInvariant(s: GameState, actions: seq<Action>)
    requires Invariant(s)
    requires forall k :: 0 <= k < |actions| ==> WellFormedAction(actions[k])
    ensures Invariant(Run(s, actions))
    decreases |actions|
  {
    if actions != [] {
      StepKeepsInvariant(s, actions[0]);
      RunKeepsInvariant(Step(s, actions[0]), actions[1..]);
    }
  }

  /**
   * Whatever the player does from a new game, and whatever the draws: no
   * currency is negative, no card is above its maximum level, every card
   * owns at least one copy per level, and a card is in the deck only if a
   * copy is owned.
   */
  lemma ReachableStatesSafe(actions: seq<Action>)
    requires forall k :: 0 <= k < |actions| ==> WellFormedAction(actions[k])
    ensures var t := Run(InitialGameState(), actions);
      && NonNegative(t.currencies)
      && (forall k :: 0 <= k < |t.cards| ==> t.cards[k].level <= t.cards[k].info.maxLevel)
      && (forall k :: 0 <= k < |t.cards| ==> t.cards[k].owned >= t.cards[k].level)
      && (forall k :: 0 <= k < |t.cards| ==> t.cards[k].inDeck ==> t.cards[k].owned > 0)
  {
    InitialStateValid();
    RunKeepsInvariant(InitialGameState(), actions);
    var t := Run(InitialGameState(), actions);
    assert forall k :: 0 <= k < |t.cards| ==> CardConsistent(t.cards[k], t.unlockedCards);
  }
}
