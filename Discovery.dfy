/**
 * Random card discovery: the weighted walk over the rarity tiers with its
 * uniform fallback, and the opening of a card pack as a run of discoveries
 * that exclude the cards already drawn.
 *
 * Every call of the host's uniform random source is an explicit argument, a
 * real in [0, 1), so each property holds for every value the source can give.
 */
module Discovery {
  import opened GameTypes
  import opened Catalog

  /**
   * The uniform draws one discovery consumes: `tier` places the draw on the
   * weight line, `pick` chooses among the candidates of the chosen tier (or,
   * on the fallback path, among all candidates).
   */
  datatype Roll = Roll(tier: real, pick: real)
  {
    predicate InRange()
    {
      0.0 <= tier < 1.0 && 0.0 <= pick < 1.0
    }
  }

  predicate AllInRange(rolls: seq<Roll>)
  {
    forall k :: 0 <= k < |rolls| ==> rolls[k].InRange()
  }

  /** The cards whose ids are not unlocked, in collection order. */
  function Available(cards: seq<Card>, unlocked: set<string>): (r: seq<Card>)
    ensures |r| <= |cards|
  {
    if cards == [] then []
    else if cards[0].Id() !in unlocked then [cards[0]] + Available(cards[1..], unlocked)
    else Available(cards[1..], unlocked)
  }

  /** The candidates are exactly the cards of the collection whose ids are not unlocked. */
  lemma {:induction false} AvailableMembers(cards: seq<Card>, unlocked: set<string>)
    ensures forall c :: c in Available(cards, unlocked) <==> c in cards && c.Id() !in unlocked
    decreases |cards|
  {
    if cards != [] {
      AvailableMembers(cards[1..], unlocked);
      assert forall c :: c in cards <==> c == cards[0] || c in cards[1..];
    }
  }

  /** No card is a candidate exactly when every card of the collection is unlocked. */
  lemma {:induction false} AvailableEmpty(cards: seq<Card>, unlocked: set<string>)
    ensures |Available(cards, unlocked)| == 0 <==> forall k :: 0 <= k < |cards| ==> cards[k].Id() in unlocked
    decreases |cards|
  {
    if cards != [] {
      AvailableEmpty(cards[1..], unlocked);
      assert forall k :: 1 <= k < |cards| ==> cards[k] == cards[1..][k - 1];
    }
  }

  /** The cards of rarity `rarity`, in order. */
  function OfRarity(cards: seq<Card>, rarity: Rarity): (r: seq<Card>)
    ensures |r| <= |cards|
  {
    if cards == [] then []
    else if cards[0].info.rarity == rarity then [cards[0]] + OfRarity(cards[1..], rarity)
    else OfRarity(cards[1..], rarity)
  }

  /** The cards of a tier are exactly the cards of that rarity. */
  lemma {:induction false} OfRarityMembers(cards: seq<Card>, rarity: Rarity)
    ensures forall c :: c in OfRarity(cards, rarity) <==> c in cards && c.info.rarity == rarity
    decreases |cards|
  {
    if cards != [] {
      OfRarityMembers(cards[1..], rarity);
      assert forall c :: c in cards <==> c == cards[0] || c in cards[1..];
    }
  }

  /** The index a uniform draw `u` selects among `n` candidates: u times n, rounded down. */
  function PickIndex(u: real, n: nat): (k: nat)
    requires 0.0 <= u < 1.0 && n > 0
    ensures k < n
  {
    assert 0.0 <= u * (n as real) < n as real;
    (u * (n as real)).Floor
  }

  /**
   * The weighted walk: the first tier whose weight exceeds what is left of
   * the draw and that has a candidate gives the card; a tier without
   * candidates still has its weight subtracted. None when no tier gives one.
   */
  function TierWalk(available: seq<Card>, tiers: seq<Rarity>, random: real, pick: real): Option<Card>
    requires 0.0 <= pick < 1.0
    decreases |tiers|
  {
    if tiers == [] then None
    else
      var weight := Weight(tiers[0]);
      var rarityCards := OfRarity(available, tiers[0]);
      if random < weight && |rarityCards| > 0 then Some(rarityCards[PickIndex(pick, |rarityCards|)])
      else TierWalk(available, tiers[1..], random - weight, pick)
  }

  /**
   * One discovery: None when every card is unlocked; otherwise the card of
   * the weighted walk, or a uniform pick among all candidates when the walk
   * gives none.
   */
  function Discover(cards: seq<Card>, unlocked: set<string>, roll: Roll): Option<Card>
    requires roll.InRange()
  {
    var available := Available(cards, unlocked);
    if |available| == 0 then None
    else
      var walk := TierWalk(available, WeightOrder, roll.tier * TotalWeight, roll.pick);
      if walk.Some? then walk else Some(available[PickIndex(roll.pick, |available|)])
  }

  /** Runs one discovery: the walk over the weight table, then the fallback. */
  method DiscoverRandomCard(cards: seq<Card>, unlockedCards: set<string>, roll: Roll) returns (found: Option<Card>)
    requires roll.InRange()
    ensures found == Discover(cards, unlockedCards, roll)
  {
    var availableCards := Available(cards, unlockedCards);
    if |availableCards| == 0 {
      return None;
    }
    var totalWeight := TotalWeight;
    found := WalkTiers(availableCards, WeightOrder, roll.tier * totalWeight, roll.pick);
    if found.None? {
      found := Some(availableCards[PickIndex(roll.pick, |availableCards|)]);
    }
  }

  /**
   * The loop of a discovery over the weight table: subtracts each tier's
   * weight from the draw until a tier wins it and has a candidate.
   */
  method WalkTiers(availableCards: seq<Card>, tiers: seq<Rarity>, draw: real, pick: real) returns (found: Option<Card>)
    requires 0.0 <= pick < 1.0
    ensures found == TierWalk(availableCards, tiers, draw, pick)
  {
    var random := draw;
    for i := 0 to |tiers|
      invariant TierWalk(availableCards, tiers[i..], random, pick) == TierWalk(availableCards, tiers, draw, pick)
    {
      var rarity := tiers[i];
      var weight := Weight(rarity);
      assert tiers[i..][1..] == tiers[i + 1..];
      if random < weight {
        var rarityCards := OfRarity(availableCards, rarity);
        if |rarityCards| > 0 {
          return Some(rarityCards[PickIndex(pick, |rarityCards|)]);
        }
      }
      random := random - weight;
    }
    return None;
  }

  /** A card the walk gives is a candidate of one of the walked tiers. */
  lemma {:induction false} TierWalkFindsCandidate(available: seq<Card>, tiers: seq<Rarity>, random: real, pick: real)
    requires 0.0 <= pick < 1.0
    ensures var r := TierWalk(available, tiers, random, pick);
      r.Some? ==> r.value in available && r.value.info.rarity in tiers
    decreases |tiers|
  {
    if tiers != [] {
      var rarityCards := OfRarity(available, tiers[0]);
      if !(random < Weight(tiers[0]) && |rarityCards| > 0) {
        TierWalkFindsCandidate(available, tiers[1..], random - Weight(tiers[0]), pick);
      } else {
        OfRarityMembers(available, tiers[0]);
        assert rarityCards[PickIndex(pick, |rarityCards|)] in rarityCards;
      }
    }
  }

  /**
   * A discovery gives nothing exactly when every card is unlocked, and
   * otherwise gives a card of the collection that is not unlocked.
   */
  lemma {:induction false} DiscoverFindsLockedCard(cards: seq<Card>, unlocked: set<string>, roll: Roll)
    requires roll.InRange()
    ensures var r := Discover(cards, unlocked, roll);
      && (r.None? <==> forall k :: 0 <= k < |cards| ==> cards[k].Id() in unlocked)
      && (r.Some? ==> r.value in cards && r.value.Id() !in unlocked)
  {
    var available := Available(cards, unlocked);
    AvailableEmpty(cards, unlocked);
    if |available| > 0 {
      var walk := TierWalk(available, WeightOrder, roll.tier * TotalWeight, roll.pick);
      TierWalkFindsCandidate(available, WeightOrder, roll.tier * TotalWeight, roll.pick);
      var found := Discover(cards, unlocked, roll).value;
      assert found in available by {
        if walk.None? {
          assert found == available[PickIndex(roll.pick, |available|)];
        }
      }
      AvailableMembers(cards, unlocked);
    }
  }

  /** When the draw lies on the weight line and every tier has a candidate, the walk gives a card. */
  lemma {:induction false} TierWalkSucceeds(available: seq<Card>, tiers: seq<Rarity>, random: real, pick: real)
    requires 0.0 <= pick < 1.0
    requires 0.0 <= random < SumWeights(tiers)
    requires forall t :: t in tiers ==> |OfRarity(available, t)| > 0
    ensures TierWalk(available, tiers, random, pick).Some?
    decreases |tiers|
  {
    if !(random < Weight(tiers[0])) {
      assert forall t :: t in tiers[1..] ==> t in tiers;
      TierWalkSucceeds(available, tiers[1..], random - Weight(tiers[0]), pick);
    }
  }

  /** The first of `tiers` that has a candidate gives the card, whatever its weight. */
  function FirstNonEmpty(available: seq<Card>, tiers: seq<Rarity>, pick: real): Option<Card>
    requires 0.0 <= pick < 1.0
    decreases |tiers|
  {
    if tiers == [] then None
    else
      var rarityCards := OfRarity(available, tiers[0]);
      if |rarityCards| > 0 then Some(rarityCards[PickIndex(pick, |rarityCards|)])
      else FirstNonEmpty(available, tiers[1..], pick)
  }

  /** Once what is left of the draw is negative, every later tier wins the draw. */
  lemma {:induction false} NegativeDrawTakesFirstNonEmpty(available: seq<Card>, tiers: seq<Rarity>, random: real, pick: real)
    requires 0.0 <= pick < 1.0 && random < 0.0
    ensures TierWalk(available, tiers, random, pick) == FirstNonEmpty(available, tiers, pick)
    decreases |tiers|
  {
    if tiers != [] {
      NegativeDrawTakesFirstNonEmpty(available, tiers[1..], random - Weight(tiers[0]), pick);
    }
  }

  /**
   * A tier that wins the draw but has no candidates hands the card to the
   * next tier that has one, whatever that tier's weight: the walk does not
   * draw again.
   */
  lemma {:induction false} EmptyWinningTierFallsThrough(available: seq<Card>, tiers: seq<Rarity>, random: real, pick: real)
    requires 0.0 <= pick < 1.0 && tiers != []
    requires random < Weight(tiers[0]) && |OfRarity(available, tiers[0])| == 0
    ensures TierWalk(available, tiers, random, pick) == FirstNonEmpty(available, tiers[1..], pick)
  {
    NegativeDrawTakesFirstNonEmpty(available, tiers[1..], random - Weight(tiers[0]), pick);
  }

  /** With no card of the catalog unlocked, every tier has candidates. */
  lemma {:induction false} FreshCollectionFillsEveryTier(cards: seq<Card>)
    requires |cards| == |Cards| && forall k :: 0 <= k < |cards| ==> cards[k].info == Cards[k]
    ensures forall t :: t in WeightOrder ==> |OfRarity(Available(cards, {}), t)| > 0
  {
    var available := Available(cards, {});
    RaritiesGrouped();
    AvailableMembers(cards, {});
    forall t | t in WeightOrder ensures |OfRarity(available, t)| > 0 {
      OfRarityMembers(available, t);
      var k := 3 * RarityIndex(t);
      assert cards[k] in available;
      assert cards[k] in OfRarity(available, t);
    }
  }

  /** The walk over the whole weight table gives a card when every tier has a candidate. */
  lemma {:induction false} FullTiersWalkSucceeds(available: seq<Card>, roll: Roll)
    requires roll.InRange()
    requires forall t :: t in WeightOrder ==> |OfRarity(available, t)| > 0
    ensures TierWalk(available, WeightOrder, roll.tier * TotalWeight, roll.pick).Some?
  {
    TotalWeightIsSum();
    assert 0.0 <= roll.tier * 100.0 < 100.0;
    TierWalkSucceeds(available, WeightOrder, roll.tier * TotalWeight, roll.pick);
  }

  /** When every tier has a candidate, the walk gives the card and the uniform fallback is never used. */
  lemma {:induction false} FullTiersNeverFallBack(cards: seq<Card>, unlocked: set<string>, roll: Roll)
    requires roll.InRange()
    requires forall t :: t in WeightOrder ==> |OfRarity(Available(cards, unlocked), t)| > 0
    ensures var walk := TierWalk(Available(cards, unlocked), WeightOrder, roll.tier * TotalWeight, roll.pick);
      walk.Some? && Discover(cards, unlocked, roll) == walk
  {
    var available := Available(cards, unlocked);
    FullTiersWalkSucceeds(available, roll);
    var commons := OfRarity(available, Common);
    assert |commons| > 0 by {
      assert WeightOrder[0] == Common;
    }
    OfRarityMembers(available, Common);
    assert commons[0] in available;
  }

  /** With no card of the catalog unlocked, the uniform fallback is never used. */
  lemma {:induction false} FreshCollectionNeverFallsBack(cards: seq<Card>, roll: Roll)
    requires roll.InRange()
    requires |cards| == |Cards| && forall k :: 0 <= k < |cards| ==> cards[k].info == Cards[k]
    ensures var walk := TierWalk(Available(cards, {}), WeightOrder, roll.tier * TotalWeight, roll.pick);
      walk.Some? && Discover(cards, {}, roll) == walk
  {
    FreshCollectionFillsEveryTier(cards);
    FullTiersNeverFallBack(cards, {}, roll);
  }

  datatype PackType = BasicPack | RarePack | EpicPack

  /** How many discoveries a pack runs. */
  function PackSize(packType: PackType): nat
  {
    match packType
    case BasicPack => 3
    case RarePack => 5
    case EpicPack => 7
  }

  /**
   * The cards a pack yields for the rolls: each roll runs one discovery that
   * excludes the unlocked ids and the ids drawn so far; a discovery that
   * finds nothing adds nothing.
   */
  function PackDraws(cards: seq<Card>, unlocked: set<string>, rolls: seq<Roll>): seq<Card>
    requires AllInRange(rolls)
    decreases |rolls|
  {
    if rolls == [] then []
    else
      var before := PackDraws(cards, unlocked, rolls[..|rolls| - 1]);
      match Discover(cards, unlocked + IdSet(before), rolls[|rolls| - 1])
      case None => before
      case Some(card) => before + [card]
  }

  /** Opens a pack: one discovery per roll, each excluding what the pack already holds. */
  method OpenCardPack(packType: PackType, cards: seq<Card>, unlockedCards: set<string>, rolls: seq<Roll>)
    returns (foundCards: seq<Card>)
    requires |rolls| == PackSize(packType) && AllInRange(rolls)
    ensures foundCards == PackDraws(cards, unlockedCards, rolls)
    ensures |foundCards| <= PackSize(packType)
    ensures forall k :: 0 <= k < |foundCards| ==> foundCards[k] in cards && foundCards[k].Id() !in unlockedCards
    ensures forall i, j :: 0 <= i < j < |foundCards| ==> foundCards[i].Id() != foundCards[j].Id()
  {
    foundCards := [];
    for i := 0 to PackSize(packType)
      invariant foundCards == PackDraws(cards, unlockedCards, rolls[..i])
    {
      assert rolls[..i + 1][..i] == rolls[..i];
      var card := DiscoverRandomCard(cards, unlockedCards + IdSet(foundCards), rolls[i]);
      if card.Some? {
        foundCards := foundCards + [card.value];
      }
    }
    assert rolls[..|rolls|] == rolls;
    PackDrawsFresh(cards, unlockedCards, rolls);
  }

  /** A pack holds at most one card per roll, each from the collection, none unlocked, no id twice. */
  lemma {:induction false} PackDrawsFresh(cards: seq<Card>, unlocked: set<string>, rolls: seq<Roll>)
    requires AllInRange(rolls)
    ensures var draws := PackDraws(cards, unlocked, rolls);
      && |draws| <= |rolls|
      && (forall k :: 0 <= k < |draws| ==> draws[k] in cards && draws[k].Id() !in unlocked)
      && (forall i, j :: 0 <= i < j < |draws| ==> draws[i].Id() != draws[j].Id())
    decreases |rolls|
  {
    if rolls != [] {
      var before := PackDraws(cards, unlocked, rolls[..|rolls| - 1]);
      PackDrawsFresh(cards, unlocked, rolls[..|rolls| - 1]);
      DiscoverFindsLockedCard(cards, unlocked + IdSet(before), rolls[|rolls| - 1]);
    }
  }

  /** A pack comes up short only when every card is unlocked or already in the pack. */
  lemma {:induction false} ShortPackMeansExhausted(cards: seq<Card>, unlocked: set<string>, rolls: seq<Roll>)
    requires AllInRange(rolls)
    ensures var draws := PackDraws(cards, unlocked, rolls);
      |draws| < |rolls| ==> forall k :: 0 <= k < |cards| ==> cards[k].Id() in unlocked + IdSet(draws)
    decreases |rolls|
  {
    if rolls != [] {
      var init := rolls[..|rolls| - 1];
      var before := PackDraws(cards, unlocked, init);
      PackDrawsFresh(cards, unlocked, init);
      ShortPackMeansExhausted(cards, unlocked, init);
      DiscoverFindsLockedCard(cards, unlocked + IdSet(before), rolls[|rolls| - 1]);
    }
  }

  /** The distinct ids of the cards that are not unlocked. */
  function FreshIds(cards: seq<Card>, unlocked: set<string>): set<string>
  {
    set k | 0 <= k < |cards| && cards[k].Id() !in unlocked :: cards[k].Id()
  }

  /** Cards with pairwise distinct ids have as many ids as cards. */
  lemma {:induction false} DistinctIdsCount(s: seq<Card>)
    requires forall i, j :: 0 <= i < j < |s| ==> s[i].Id() != s[j].Id()
    ensures |IdSet(s)| == |s|
    decreases |s|
  {
    if s != [] {
      var init, last := s[..|s| - 1], s[|s| - 1];
      assert forall i, j :: 0 <= i < j < |init| ==> init[i].Id() != init[j].Id();
      DistinctIdsCount(init);
      IdSetSnoc(init, last);
      assert s == init + [last];
      assert last.Id() !in IdSet(init);
    }
  }

  /** A pack yields as many cards as it has rolls, or as many as remain to be found if that is fewer. */
  lemma {:induction false} PackDrawsCount(cards: seq<Card>, unlocked: set<string>, rolls: seq<Roll>)
    requires AllInRange(rolls)
    ensures var draws := PackDraws(cards, unlocked, rolls);
      |draws| == if |rolls| <= |FreshIds(cards, unlocked)| then |rolls| else |FreshIds(cards, unlocked)|
  {
    var draws := PackDraws(cards, unlocked, rolls);
    var remaining := FreshIds(cards, unlocked);
    PackDrawsFresh(cards, unlocked, rolls);
    ShortPackMeansExhausted(cards, unlocked, rolls);
    DistinctIdsCount(draws);
    assert IdSet(draws) <= remaining by {
      forall id | id in IdSet(draws) ensures id in remaining {
        var k :| 0 <= k < |draws| && draws[k].Id() == id;
        var j :| 0 <= j < |cards| && cards[j] == draws[k];
      }
    }
    assert |IdSet(draws)| <= |remaining| by { SubsetCardinality(IdSet(draws), remaining); }
    if |draws| < |rolls| {
      assert remaining <= IdSet(draws);
      SubsetCardinality(remaining, IdSet(draws));
    }
  }

  /** Appending a card adds its id to the ids. */
  lemma IdSetSnoc(cards: seq<Card>, card: Card)
    ensures IdSet(cards + [card]) == IdSet(cards) + {card.Id()}
  {
    var s := cards + [card];
    forall id | id in IdSet(s) ensures id in IdSet(cards) + {card.Id()} {
      var k :| 0 <= k < |s| && s[k].Id() == id;
      if k < |cards| {
        assert cards[k].Id() == id;
      }
    }
    forall id | id in IdSet(cards) ensures id in IdSet(s) {
      var k :| 0 <= k < |cards| && cards[k].Id() == id;
      assert s[k].Id() == id;
    }
    assert s[|cards|].Id() == card.Id();
  }

  /** The ids of cards drawn from a collection are ids of that collection. */
  lemma DrawnIdsInCollection(cards: seq<Card>, drawn: seq<Card>)
    requires forall k :: 0 <= k < |drawn| ==> drawn[k] in cards
    ensures IdSet(drawn) <= IdSet(cards)
  {
    forall id | id in IdSet(drawn) ensures id in IdSet(cards) {
      var k :| 0 <= k < |drawn| && drawn[k].Id() == id;
      var j :| 0 <= j < |cards| && cards[j] == drawn[k];
    }
  }

  lemma SubsetCardinality(a: set<string>, b: set<string>)
    requires a <= b
    ensures |a| <= |b|
  {
    assert b == a + (b - a);
  }
}
