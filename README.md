# Kawa clicker economy engine in Dafny

This project models the economy engine of a browser idle/clicker card game
and proves properties of it. The engine keeps one game state: four
currencies (clicks, gems, stardust, essence), a click counter, the click
power, auto-click rate and multiplier that the deck grants, the eighteen
collectible cards of a static catalog (each with a level, an owned count and
an in-deck flag), the deck list, the set of unlocked card ids and some
statistics. Five actions change the state:

- a click earns clicks and may discover a card;
- an auto-click tick earns clicks once per second;
- an upgrade levels a card;
- a toggle moves a card in or out of the deck;
- a pack purchase draws several undiscovered cards.

Every action either rejects its input and leaves the state as it was, or
produces a completely determined next state.

Modules, leaves first:

- `GameTypes` (`GameTypes.dfy`): rarities, card types, currencies, the
  per-currency `Amounts` record, cards, statistics and `GameState`.
- `Catalog` (`Catalog.dfy`): the eighteen catalog cards and the rarity
  weight table, with the facts the engine relies on. These are distinct ids,
  levels from 1 to 15, non-negative costs, one helpful bonus per card, three
  cards per rarity, and positive weights summing to 100 in common-to-mythic
  order.
- `Economy` (`Economy.dfy`): gem rewards, the rare-card test, upgrade costs
  (`base × 1.5^level`, rounded down), affordability, cost deduction, and the
  deck bonuses. Upgrade costs, cost deduction and the deck bonuses are each
  computed by a method that works step by step, as the game does, and each
  method is proved equal to a specification function.
- `Discovery` (`Discovery.dfy`): the weighted walk over the rarity tiers with
  its uniform fallback, and pack opening. The walk and pack opening are loops
  proved against recursive functions.
- `Engine` (`Engine.dfy`): each action as a function from the old state to
  the new one. It also holds the state invariant, the lemmas saying what each
  action does and that it keeps the invariant, and runs of arbitrary action
  sequences from a new game.
- `Game` (`Game.dfy`): the class `GameEngine`, whose fields are the game
  state. Each action is a method that updates those fields in place and is
  proved to reach exactly the state that the matching `Engine` function
  gives.

Randomness is passed in as arguments. Each call of the host's uniform random
source is a real in [0, 1). `fireRoll` decides whether a click triggers a
discovery. A `Roll` holds the two draws of one discovery: `tier` places the
draw on the weight line, and `pick` chooses among the candidates. Every
property holds for every such value.

The invariant kept by every action, from the initial state on (`Engine.Invariant`):

- no currency is negative;
- each card's level is at most its maximum;
- each card owns exactly one copy per level, plus one once its id is
  unlocked, so owned ≥ level;
- a card in the deck has a copy owned;
- `totalCardsCollected` is the number of unlocked ids;
- the three bonuses are those of the cards flagged in the deck;
- the deck list holds the flagged cards. Their levels may be out of date,
  because an upgrade does not rebuild the list.

The state invariant is stated over reals and unbounded integers. Where the
game uses floating point, the model uses exact reals (see "Left out").

## Model

| member | source | states |
|---|---|---|
| `Catalog.Weight` | src/data/cards.ts:207-214 | every rarity weight is positive |
| `Catalog.TotalWeightIsSum` | src/data/cards.ts:207-214 | the weights of the table, summed in declaration order, make 100 (the total a discovery scales its draw by) |
| `Catalog.WeightOrderIsRarityOrder` | src/data/cards.ts:207-214 | the table lists each rarity once, common first and mythic last, with strictly falling weights |
| `Catalog.IdsDistinct` | src/data/cards.ts:4-196 | no two catalog cards share an id |
| `Catalog.CatalogWellFormed` | src/data/cards.ts:4-196 | every card has 1 ≤ maxLevel ≤ 15, non-negative base costs, and exactly one of click power, auto-clicks or multiplier set, matching its type; click and auto-click bonuses are positive and multipliers exceed 1 |
| `Catalog.RaritiesGrouped` | src/data/cards.ts:4-196 | the catalog `Catalog.Cards` lists 18 cards, three of each rarity, in common-to-mythic order |
| `Catalog.ThreeCardsPerRarity` | src/data/cards.ts:5-195 | each of the six rarities has exactly three catalog cards |
| `Economy.GemReward` | src/hooks/useGameState.ts:298-308 | the reward for a discovered rarity is at least one gem, and at least five exactly for the rare-or-better rarities |
| `Economy.IsRareCard` | src/hooks/useGameState.ts:310-315 | a rare find is a rare, epic, legendary or mythic card; `Economy.RareMeansAboveUncommon` and `Economy.GemReward` state what that means |
| `Economy.RareMeansAboveUncommon` | src/hooks/useGameState.ts:310-315 | a rarity is a rare find exactly when it is neither common nor uncommon |
| `Economy.ScaledCost` | src/hooks/useGameState.ts:318-327 | one currency's cost at a level: base × 1.5^level, rounded down; `Economy.ScaledCostMonotone` bounds it |
| `Economy.ScaledCostMonotone` | src/hooks/useGameState.ts:318-327 | with a non-negative base, the scaled cost is non-negative and never falls as the level grows |
| `Economy.UpgradeCost` | src/hooks/useGameState.ts:317-331 | in every currency, the upgrade cost is that currency's base cost scaled to the card's current level |
| `Economy.CalculateUpgradeCost` | src/hooks/useGameState.ts:317-331 | filling the cost record currency by currency gives, in each currency, the base cost times 1.5^level rounded down |
| `Economy.UpgradeCostAtLevelZero` | src/hooks/useGameState.ts:317-331 | at level 0 the upgrade cost is exactly the base cost |
| `Economy.UpgradeCostMonotone` | src/hooks/useGameState.ts:317-331 | with non-negative base costs, every currency's cost is non-negative and non-decreasing as the level grows |
| `Economy.CanAfford` | src/hooks/useGameState.ts:333-337 | true exactly when the wallet holds at least the cost in every currency |
| `Economy.Deducted` | src/hooks/useGameState.ts:158-161 | each currency drops by exactly its cost, and none goes negative when the cost was affordable |
| `Economy.DeductCost` | src/hooks/useGameState.ts:236-239 | subtracting the cost currency by currency gives the deducted wallet, non-negative when affordable |
| `Economy.CalculateGameStats` | src/hooks/useGameState.ts:339-365 | the card-by-card accumulation gives click power 1 + Σ bonus×level, rate Σ auto-clicks×level and multiplier Π bonus^level over deck cards with level > 0 |
| `Economy.GameStats` | src/hooks/useGameState.ts:339-365 | the deck bonuses: click power 1 + Σ bonus×level, rate Σ auto-clicks×level, multiplier Π bonus^level over deck cards above level 0; the four lemmas below state their properties |
| `Economy.IdleDeckStats` | src/hooks/useGameState.ts:339-365 | an empty deck, or one whose cards are all at level 0, grants exactly (1, 0, 1) |
| `Economy.StatsBounds` | src/hooks/useGameState.ts:339-365 | a deck of helpful cards grants click power ≥ 1, rate ≥ 0 and multiplier ≥ 1 |
| `Economy.StatsDependOnLevels` | src/hooks/useGameState.ts:348-362 | the bonuses depend only on each deck card's catalog entry and level, not on owned counts |
| `Economy.LevelUpNeverWeakens` | src/hooks/useGameState.ts:348-362 | raising one deck card's level by one never lowers any of the three bonuses |
| `Discovery.Available` | src/hooks/useGameState.ts:278 | the discovery candidates are a sub-list of the collection (exactly the cards not unlocked, by `Discovery.AvailableMembers`) |
| `Discovery.AvailableEmpty` | src/hooks/useGameState.ts:278-279 | there is no candidate exactly when every card id is unlocked |
| `Discovery.AvailableMembers` | src/hooks/useGameState.ts:278 | the candidates are exactly the cards whose ids are not unlocked |
| `Discovery.OfRarity` | src/hooks/useGameState.ts:287 | a tier's candidates are a sub-list of the candidates (exactly those of that rarity, by `Discovery.OfRarityMembers`) |
| `Discovery.OfRarityMembers` | src/hooks/useGameState.ts:287 | a tier's candidates are exactly the candidates of that rarity |
| `Discovery.PickIndex` | src/hooks/useGameState.ts:289 | a uniform draw times the number of candidates, rounded down, is a valid index |
| `Discovery.TierWalk` | src/hooks/useGameState.ts:284-293 | the weighted walk: a tier wins when the remaining draw is below its weight and has candidates, the draw dropping by each weight passed; `Discovery.WalkTiers` and the lemmas below state its properties |
| `Discovery.Discover` | src/hooks/useGameState.ts:277-296 | one discovery: none without candidates, otherwise the walk's card or the uniform fallback pick; `Discovery.DiscoverFindsLockedCard` states what it returns |
| `Discovery.WalkTiers` | src/hooks/useGameState.ts:284-293 | the loop that subtracts each tier's weight returns the card of the first tier that wins the draw and has candidates, or none |
| `Discovery.DiscoverRandomCard` | src/hooks/useGameState.ts:277-296 | one discovery returns none without candidates, otherwise the walk's card or the uniform fallback pick |
| `Discovery.TierWalkFindsCandidate` | src/hooks/useGameState.ts:284-293 | a card the walk returns is a candidate of one of the walked rarities |
| `Discovery.DiscoverFindsLockedCard` | src/hooks/useGameState.ts:277-296 | a discovery returns none exactly when every card is unlocked, and otherwise a collection card whose id is not unlocked |
| `Discovery.TierWalkSucceeds` | src/hooks/useGameState.ts:281-293 | a draw on the weight line with every tier holding candidates always finds a card |
| `Discovery.EmptyWinningTierFallsThrough` | src/hooks/useGameState.ts:286-292 | a tier that wins the draw but has no candidates hands the card to the next tier that has one, whatever that tier's weight |
| `Discovery.FullTiersNeverFallBack` | src/hooks/useGameState.ts:281-295 | when every tier has candidates, the walk gives the card and the uniform fallback is not used |
| `Discovery.FreshCollectionNeverFallsBack` | src/hooks/useGameState.ts:281-295 | with nothing unlocked in the catalog collection, every tier has candidates and the fallback is not used |
| `Discovery.PackSize` | src/hooks/useGameState.ts:368-374 | a pack has 3 (basic), 5 (rare) or 7 (epic) draws |
| `Discovery.PackDraws` | src/hooks/useGameState.ts:375-384 | the pack's draws in order, each excluding the ids drawn before it, an empty draw adding nothing; `Discovery.PackDrawsFresh` and `Discovery.PackDrawsCount` state its properties |
| `Discovery.OpenCardPack` | src/hooks/useGameState.ts:367-385 | a pack of 3/5/7 draws yields at most that many cards, from the collection, none unlocked, with pairwise distinct ids |
| `Discovery.PackDrawsFresh` | src/hooks/useGameState.ts:375-382 | each draw that excludes the ids drawn so far adds a new, not-unlocked card, so ids never repeat |
| `Discovery.ShortPackMeansExhausted` | src/hooks/useGameState.ts:375-382 | a pack comes up short only when every card is unlocked or already in the pack |
| `Discovery.PackDrawsCount` | src/hooks/useGameState.ts:367-385 | a pack yields exactly min(draw count, number of not-unlocked cards) cards |
| `Engine.FindIndex` | src/hooks/useGameState.ts:149 | returns -1 exactly when no card has the id, otherwise the first position holding it |
| `Engine.InDeck` | src/hooks/useGameState.ts:171 | the deck holds only cards flagged in the deck and no more cards than the collection (exactly the flagged ones, in order, by `Engine.InDeckMembers`) |
| `Engine.InDeckMembers` | src/hooks/useGameState.ts:195 | a card is in the deck built from the collection exactly when it is a collection card flagged in the deck |
| `Engine.BumpOwned` | src/hooks/useGameState.ts:247-250 | each card whose id is among the given ids owns one more copy, every other card is unchanged, and the collection keeps its length |
| `Engine.CountRare` | src/hooks/useGameState.ts:260-261 | the rare count of the drawn cards never exceeds their number |
| `Engine.PackCost` | src/hooks/useGameState.ts:210-229 | a pack never costs clicks or a negative amount and always at least 5 gems |
| `Engine.ClickValue` | src/hooks/useGameState.ts:84 | one click earns floor(power × multiplier) clicks; `Engine.ClickValueAtLeastPower` bounds it |
| `Engine.ClickValueAtLeastPower` | src/hooks/useGameState.ts:70 | with power ≥ 0 and multiplier ≥ 1, a click or tick earns at least the power (or rate) |
| `Engine.DiscoveryChance` | src/hooks/useGameState.ts:89 | the discovery chance lies in [0, 0.1] |
| `Engine.InitialCards` | src/hooks/useGameState.ts:17-22 | the new game's collection has one card per catalog entry |
| `Engine.InitialCardsFresh` | src/hooks/useGameState.ts:17-22 | the new game's collection is the catalog in order, every card consistent with nothing unlocked (owned equals level, within the maximum) and none in the deck |
| `Engine.InitialGameState` | src/hooks/useGameState.ts:6-32 | the new game: 100 clicks, 10 gems, 2 stardust, power 1, rate 0, multiplier 1, nothing collected; `Engine.InitialStateValid` proves it satisfies the invariant |
| `Engine.Invariant` | src/hooks/useGameState.ts:82-265 | the state invariant listed above; `Engine.StepKeepsInvariant` proves every action keeps it |
| `Engine.InitialStateValid` | src/hooks/useGameState.ts:6-32 | the initial state (100 clicks, 10 gems, 2 stardust, all cards at level 0, none owned) satisfies the invariant with an empty deck |
| `Engine.InvariantBounds` | src/hooks/useGameState.ts:166-167 | in a reachable state click power ≥ 1, rate ≥ 0, multiplier ≥ 1 and every card owns at least its level |
| `Engine.AutoTick` | src/hooks/useGameState.ts:65-76 | a tick changes nothing but the clicks and the clicks per second |
| `Engine.AutoTickEarns` | src/hooks/useGameState.ts:63-76 | a tick with positive rate adds exactly floor(rate × multiplier) to clicks, at least the rate, records the rate as clicks per second and changes nothing else (one record equation); with rate 0 nothing changes; the invariant is kept |
| `Engine.UpgradeAccepted` | src/hooks/useGameState.ts:149-156 | an upgrade is accepted when the id exists, the level is below the maximum and the cost is affordable; `Engine.UpgradeChangesIffAccepted` ties it to the upgrade |
| `Engine.Upgrade` | src/hooks/useGameState.ts:147-182 | an upgrade changes nothing but the currencies, the cards and the three bonuses, and keeps the number of cards |
| `Engine.UpgradeChangesIffAccepted` | src/hooks/useGameState.ts:149-156 | an upgrade changes the state exactly when the id exists, the level is below the maximum and the cost is affordable |
| `Engine.UpgradeEffect` | src/hooks/useGameState.ts:156-180 | an accepted upgrade subtracts exactly the cost, raises that card's level and owned by one, changes no other card, leaves the deck list and unlocked ids as they were and sets the bonuses to those of the flagged cards; nothing else changes (one record equation) |
| `Engine.UpgradeKeepsInvariant` | src/hooks/useGameState.ts:147-182 | an upgrade keeps the invariant, in particular no currency goes negative and no level exceeds its maximum |
| `Engine.UpgradeIgnoresOwnership` | src/hooks/useGameState.ts:149-156 | an upgrade does not require the card to be owned or unlocked: in a new game the first card upgrades and becomes owned without being unlocked |
| `Engine.ToggleAccepted` | src/hooks/useGameState.ts:186-187 | a toggle is accepted when the id exists and a copy is owned; `Engine.ToggleEffect` ties it to the toggle |
| `Engine.Toggle` | src/hooks/useGameState.ts:184-207 | a toggle changes nothing but the cards, the deck and the three bonuses, and keeps the number of cards |
| `Engine.ToggleEffect` | src/hooks/useGameState.ts:184-207 | a toggle changes the state exactly when the id exists and a copy is owned, and then flips only that card's flag, rebuilds the deck from the flags and sets the bonuses from it; nothing else changes (one record equation) |
| `Engine.ToggleKeepsInvariant` | src/hooks/useGameState.ts:184-207 | a toggle keeps the invariant |
| `Engine.ToggleTwice` | src/hooks/useGameState.ts:184-207 | toggling the same card twice restores the cards and the bonuses; only the deck list comes back rebuilt |
| `Engine.DiscoveryChanceCapped` | src/hooks/useGameState.ts:89 | the discovery chance lies in [0, 0.1], equals 0.1 exactly from the 1000th click on, and never falls as clicks accumulate |
| `Engine.ClickDiscovery` | src/hooks/useGameState.ts:88-98 | a click discovers something only when its first draw falls below the chance |
| `Engine.ClickDiscoveryFinds` | src/hooks/useGameState.ts:88-98 | a click discovers a card exactly when its draw falls below the chance and some card is not unlocked, and that card is a not-unlocked collection card |
| `Engine.Click` | src/hooks/useGameState.ts:84-143 | a click counts itself and changes nothing but the currencies, the cards, the unlocked ids and the two collection counts |
| `Engine.ClickEffect` | src/hooks/useGameState.ts:84-143 | a click counts itself, adds floor(click power × multiplier) to clicks, adds a gem every 100th click and a stardust every 1000th, leaves essence alone; a discovery bumps that card's owned, unlocks its id, pays its rarity reward and bumps the collection statistics; nothing else changes (one record equation) |
| `Engine.ClickKeepsCurrenciesNonNegative` | src/hooks/useGameState.ts:84-129 | a click never makes a currency negative |
| `Engine.ClickKeepsInvariant` | src/hooks/useGameState.ts:82-145 | a click keeps the invariant |
| `Engine.NothingLeftToDiscover` | src/hooks/useGameState.ts:93-108 | once every card is unlocked a click discovers nothing and leaves the cards alone |
| `Engine.PackOpened` | src/hooks/useGameState.ts:233-242 | the cards a purchase draws: the pack's draws when its price is affordable, none otherwise; `Engine.BuyPackEffect` states what they are |
| `Engine.PackCollected` | src/hooks/useGameState.ts:236-262 | collecting drawn cards changes nothing but the cards, the currencies, the unlocked ids and the two collection counts |
| `Engine.BuyPack` | src/hooks/useGameState.ts:209-265 | a purchase changes nothing but the cards, the currencies, the unlocked ids and the two collection counts |
| `Engine.BuyPackEffect` | src/hooks/useGameState.ts:209-262 | an unaffordable pack changes nothing and draws nothing; an affordable one subtracts exactly its price, unlocks the drawn ids, bumps each drawn card's owned, adds the number drawn (at most the pack's 3/5/7) and the rare count to the statistics; nothing else changes (one record equation) |
| `Engine.PackCollectedKeepsInvariant` | src/hooks/useGameState.ts:236-262 | paying an affordable price and collecting distinct, not-unlocked cards keeps the invariant |
| `Engine.BuyPackKeepsInvariant` | src/hooks/useGameState.ts:209-265 | a pack purchase keeps the invariant |
| `Engine.StepKeepsInvariant` | src/hooks/useGameState.ts:82-265 | every action keeps the invariant |
| `Engine.RunKeepsInvariant` | src/hooks/useGameState.ts:82-265 | any sequence of actions keeps the invariant |
| `Engine.ReachableStatesSafe` | src/hooks/useGameState.ts:6-32 | from a new game, whatever the actions and draws: currencies ≥ 0, level ≤ maxLevel, owned ≥ level, and in the deck implies owned > 0 |
| `Game.GameEngine.constructor` | src/hooks/useGameState.ts:6-32 | a new engine holds the initial state and satisfies the invariant |
| `Game.GameEngine.AutoClickTick` | src/hooks/useGameState.ts:65-76 | the tick updates the fields to the tick's new state and keeps the invariant |
| `Game.GameEngine.RollDiscovery` | src/hooks/useGameState.ts:89-98 | a discovery runs only when the draw falls below the chance, and what it finds is a not-unlocked collection card |
| `Game.GameEngine.ApplyClick` | src/hooks/useGameState.ts:84-143 | the in-place click steps reach exactly the click's new state |
| `Game.GameEngine.PerformClick` | src/hooks/useGameState.ts:82-145 | the click returns the card it discovered, updates the fields to the click's new state and keeps the invariant |
| `Game.GameEngine.ApplyUpgrade` | src/hooks/useGameState.ts:148-181 | the in-place upgrade steps, each refusal returning early, reach exactly the upgrade's new state |
| `Game.GameEngine.UpgradeCard` | src/hooks/useGameState.ts:147-182 | the upgrade updates the fields to the upgrade's new state and keeps the invariant |
| `Game.GameEngine.ApplyToggle` | src/hooks/useGameState.ts:185-206 | the in-place toggle steps reach exactly the toggle's new state |
| `Game.GameEngine.ToggleCardInDeck` | src/hooks/useGameState.ts:184-207 | the toggle updates the fields to the toggle's new state and keeps the invariant |
| `Game.GameEngine.ApplyPackPurchase` | src/hooks/useGameState.ts:233-264 | the purchase draws nothing when unaffordable, otherwise opens the pack and collects it, reaching exactly the purchase's new state |
| `Game.GameEngine.CollectPack` | src/hooks/useGameState.ts:236-262 | paying the price and collecting the drawn cards sets currencies, cards, unlocked ids and statistics as the purchase prescribes |
| `Game.GameEngine.BuyCardPack` | src/hooks/useGameState.ts:209-265 | the purchase returns the drawn cards, updates the fields to the purchase's new state and keeps the invariant |
| `Game.AddIds` | src/hooks/useGameState.ts:243-244 | adding the drawn ids one by one gives the old unlocked set plus the drawn ids |

## Left out

- Saving and loading: the localStorage snapshot, its JSON encoding and the
  fallback to the initial state on a malformed snapshot
  (src/hooks/useGameState.ts:35-59) are I/O. The snapshot round-trip
  property is therefore not modelled.
- React plumbing and the one-second `setInterval` timer: only the body of
  one tick is modelled, with its positive-rate guard.
- The probability distribution of `Math.random`: each draw is an arbitrary
  argument in [0, 1). The bias that comes from an empty winning tier falling
  through is stated (`Discovery.EmptyWinningTierFallsThrough`), not measured.
- Floating point: the multiplier, `1.5^level`, the deck multiplier product,
  `floor(power × multiplier)`, the discovery chance `min(0.1, n × 0.0001)`
  and the weights 0.9 and 0.1 are exact reals, so IEEE rounding is not
  reproduced. For the catalog's levels (at most 15), `1.5^level` times an
  integer base is exact in doubles anyway.
- Number width: JavaScript numbers lose integer precision above 2^53. The
  model's integers are unbounded.
- The total weight: the game sums the weight table on every discovery. The
  model uses the constant `Catalog.TotalWeight` and proves it equal to that
  sum (`Catalog.TotalWeightIsSum`).
- Unused fields: `rarityBonus` of the pack table, `statistics.highestCombo`
  and `achievements` have no semantics. The card name, description and
  artwork are not modelled, because no rule reads them.
- `RARITY_COLORS`, the `ShopItem` type and all presentational components
  are display only.
