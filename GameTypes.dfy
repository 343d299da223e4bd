/**
 * The record and enumeration types of the clicker game: rarities, card
 * types, the four currencies, cards and the whole game state.
 */
module GameTypes {

  datatype Option<T> = None | Some(value: T)

  /** The six rarities, in declaration order. */
  datatype Rarity = Common | Uncommon | Rare | Epic | Legendary | Mythic

  datatype CardType = Clicker | Generator | Multiplier | Special

  datatype Currency = Clicks | Gems | Stardust | Essence

  /** The currencies in the order their record lists them. */
  const AllCurrencies: seq<Currency> := [Clicks, Gems, Stardust, Essence]

  lemma AllCurrenciesListed(c: Currency)
    ensures c in AllCurrencies
  {
  }

  /** A record holding one amount for each currency. */
  datatype Amounts = Amounts(clicks: int, gems: int, stardust: int, essence: int)
  {
    function Get(c: Currency): int
    {
      match c
      case Clicks => clicks
      case Gems => gems
      case Stardust => stardust
      case Essence => essence
    }

    /** The record with the amount of `c` replaced by `v`. */
    function With(c: Currency, v: int): (r: Amounts)
      ensures r.Get(c) == v
      ensures forall d :: d != c ==> r.Get(d) == Get(d)
    {
      match c
      case Clicks => this.(clicks := v)
      case Gems => this.(gems := v)
      case Stardust => this.(stardust := v)
      case Essence => this.(essence := v)
    }
  }

  /** No amount is negative. */
  predicate NonNegative(a: Amounts)
  {
    forall c :: a.Get(c) >= 0
  }

  /**
   * The optional bonuses of a card. An absent bonus is `None`; in the game a
   * bonus also has no effect when it is present but zero.
   */
  datatype Effect = Effect(clickPower: Option<int>, autoClicks: Option<int>,
                           multiplier: Option<real>, special: Option<string>)

  /**
   * The static part of a card, as the catalog defines it (its display name
   * and description are left out: no rule of the game reads them).
   */
  datatype CardInfo = CardInfo(id: string, rarity: Rarity, cardType: CardType, maxLevel: nat,
                               baseCost: Amounts, baseEffect: Effect)

  /** A card of the collection: its catalog entry and the player's progress on it. */
  datatype Card = Card(info: CardInfo, level: nat, owned: nat, inDeck: bool)
  {
    function Id(): string
    {
      info.id
    }
  }

  datatype Statistics = Statistics(totalCardsCollected: nat, rareCardsFound: nat,
                                   clicksPerSecond: int, highestCombo: int)

  /** A snapshot of the whole game. */
  datatype GameState = GameState(currencies: Amounts, totalClicks: nat,
                                 clickPower: int, autoClickRate: int, multiplier: real,
                                 cards: seq<Card>, deck: seq<Card>,
                                 unlockedCards: set<string>, achievements: seq<string>,
                                 statistics: Statistics)

  /** The ids of a sequence of cards, in order. */
  function Ids(cards: seq<Card>): (r: seq<string>)
    ensures |r| == |cards|
    ensures forall k :: 0 <= k < |cards| ==> r[k] == cards[k].Id()
  {
    seq(|cards|, k requires 0 <= k < |cards| => cards[k].Id())
  }

  /** The set of ids of a sequence of cards. */
  function IdSet(cards: seq<Card>): set<string>
  {
    set k | 0 <= k < |cards| :: cards[k].Id()
  }
}
