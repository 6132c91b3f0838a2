# Two-player memory game: a verified model of the engine

This project models the core of a browser memory (concentration) game for two
players, Blue and Red, and proves its rules in Dafny.

- **Engine.** `GameModel.Game` is a class whose fields the operations update
  in place, as the original `Game` object does:
  - the deck of card objects;
  - the revealed but unresolved ids;
  - the lock;
  - the move and match counters;
  - the lifecycle state;
  - the player on turn;
  - the scores;
  - the last status message.

  Cards are `BoardTemplate.MemoryCard` objects whose `state` changes in place.
  That matters because the deferred mismatch resolution holds on to the two
  card objects it captured, not to positions.
- **Rules as values.** Every engine method is proved to take exactly one step
  of module `GameRules`:
  - `NewSession` for `newGame`;
  - `FlipStep` for `flip`;
  - `ResolveStep` for the mismatch callback;
  - `CheckWin` for `checkWin`.

  All of these are pure functions on a `Session` value. The invariants are
  stated and proved there, and the methods carry them back to the object:
  - `Inv`: at most two revealed ids, each the id of a visible card;
    `blue + red == matches <= totalPairs`; a locked session holds two revealed
    cards with different pair keys; the game is won exactly when every pair is
    matched.
  - `Synced`: every visible card is revealed.
- **Deck.** `GameModel.CreateDeck` builds `floor(boardSize / 2)` pairs with a
  loop (`GameModel.LayOutPairs`) and shuffles them. The object keeps the pairs
  as laid out in a ghost field, and its validity states that the deck is a
  permutation of them. The deck randomisation helpers are in module `Assets`:
  - `Shuffle` is Fisher–Yates on an array copy;
  - `PickRandomUnique` samples without replacement with a splice loop.

  Both are driven by a random oracle `RandomNumber` that returns some integer
  in a closed range.
- **Settings store.** `GameSettingsStore` models the validators, the
  normalisation of whatever is stored (including the legacy `playerColor` key)
  and the field-wise merge on write. The storage slot is a value passed in and
  returned.
- **Board view.** `BoardTemplate` models the per-card flags the board template
  derives (`isFlipped`, `isMatched`, `matchedBy`) and the column count.

Where the code and the intended design disagree, the model follows the code.

- **`matchedBy` is never set.** Scoring a pair marks both cards matched but
  never records an owner (src/models/game.model.ts:151-152). `matchedBy` stays
  empty, and the view never shows an owner (`BoardTemplate.NoOwnerNoAttribute`).
- **A pending resolution survives `newGame`.** `newGame` does not cancel a
  pending mismatch resolution.
  - `GameModel.Game.ResolveMismatch` may be called at any time, with any two
    card objects.
  - Cards of an earlier deck occupy no position of the current one, so no card
    of the current deck changes.
  - The revealed ids and the lock are still cleared, and the turn still passes.
  - `GameRules.StaleResolutionDesyncs` shows the result: a card left face up
    that is no longer among the revealed ids and cannot be flipped in that session.
  - No isolation between games is claimed.

## Model

| member | source | states |
|---|---|---|
| GameSettingsStore.Property | src/stores/game-settings-store.ts:30-35 | reading a property of the parsed value fails exactly on `null`; an object's own property is read as it is; everything else reads as `undefined` |
| GameSettingsStore.IsBoardSize | src/stores/game-settings-store.ts:11-13 | `isBoardSize` holds exactly for the stored fields that are one of the numbers 16, 24 or 32 |
| GameSettingsStore.IsPlayerColor | src/stores/game-settings-store.ts:15-17 | `isPlayerColor` holds exactly for the stored fields that are one of the strings "blue" or "red" |
| GameSettingsStore.BoardSizeFieldRoundTrip | src/stores/game-settings-store.ts:11-13 | every board size passes the validator, and narrowing returns it unchanged |
| GameSettingsStore.ColorFieldRoundTrip | src/stores/game-settings-store.ts:15-17 | every player colour passes the validator, and narrowing returns it unchanged |
| GameSettingsStore.GetGameSettings | src/stores/game-settings-store.ts:19-42 | the result is `{16, blue}` outside a browser, and when the slot is empty, unreadable, `null` or any other value that is not an object; the result always has a valid board size |
| GameSettingsStore.BoardSizeNormalised | src/stores/game-settings-store.ts:32 | the board size is the stored one when that is valid, and 16 otherwise |
| GameSettingsStore.StartingPlayerRule | src/stores/game-settings-store.ts:35-36 | for every stored value other than `null`: a valid `startingPlayer` wins; the legacy `playerColor` is used only when `startingPlayer` is `null` or missing; every other case gives blue |
| GameSettingsStore.Merge | src/stores/game-settings-store.ts:49-54 | each field of the update is taken when valid; otherwise the current value is kept |
| GameSettingsStore.SetGameSettings | src/stores/game-settings-store.ts:44-57 | outside a browser the slot is unchanged; otherwise it holds an object with exactly the keys `boardSize` and `startingPlayer` |
| GameSettingsStore.Encode | src/stores/game-settings-store.ts:56 | the written value is an object with exactly the keys `boardSize` and `startingPlayer`, holding the board size as a number and the player as its string |
| GameSettingsStore.EncodeRoundTrip | src/stores/game-settings-store.ts:56 | reading back what was written gives exactly the settings that were written |
| GameSettingsStore.SetThenGet | src/stores/game-settings-store.ts:44-57 | after a write, a read returns the merge of the previous settings with the update |
| GameSettingsStore.EmptyUpdateKeepsSettings | src/stores/game-settings-store.ts:49-54 | an update with no valid field leaves the settings a read returns unchanged |
| GameSettingsStore.SetIdempotent | src/stores/game-settings-store.ts:44-57 | writing the same update twice leaves the slot as writing it once does |
| BoardTemplate.MemoryCard.constructor | src/templates/board.template.ts:4-10 | a card holds exactly the id, pair key, icon, state and owner it was built with |
| BoardTemplate.GetBoardCols | src/templates/board.template.ts:12-20 | 4 columns exactly for 16 cards, 6 exactly for 24, and 8 for every other size |
| BoardTemplate.ViewOf | src/templates/board.template.ts:26-29 | flipped exactly when visible or matched; marked matched exactly when matched, which implies flipped; an owner attribute exactly when matched with an owner, and then it names that owner |
| BoardTemplate.Items | src/templates/board.template.ts:25-50 | the view has one item per card, and item `k` is the view of card `k` |
| BoardTemplate.Template | src/templates/board.template.ts:22-57 | the board uses the column count for its size and shows one item per card, in card order |
| BoardTemplate.NoOwnerNoAttribute | src/templates/board.template.ts:29 | when no card has an owner, which is always the case in this engine, no item carries a `matchedBy` value |
| Assets.RandomNumber | src/utils/helper.ts:1-3 | the oracle returns an integer in `[min, max]` |
| Assets.Swap | src/utils/assets.ts:34-36 | the two positions are exchanged and every other position is kept |
| Assets.SwapPermutes | src/utils/assets.ts:34-36 | a swap permutes the sequence |
| Assets.ApplySwapsPermutes | src/utils/assets.ts:32-37 | any sequence of swaps permutes the sequence |
| Assets.Shuffle | src/utils/assets.ts:29-40 | the result is what the loop's swaps make of the input; the swaps are those of a Fisher–Yates pass (`i` from `length-1` down to 1, partner `j` in `[0, i]`); so the result is a permutation of the input, which is left as it was |
| Assets.PickRandomUnique | src/utils/assets.ts:42-62 | `[]` when `count <= 0` or the pool is empty; all the items in some order when there are no more than `count`; exactly `count` items otherwise; always drawn from distinct positions (a sub-multiset of the pool) |
| Assets.DistinctSubMultiset | src/utils/assets.ts:51-61 | whatever is drawn without replacement from a pool without repeats has no repeats |
| GameRules.Score.Add | src/models/game.model.ts:154 | one more point for the player on turn, none for the other |
| GameRules.Opponent | src/models/game.model.ts:7-9 | the opponent is never the player itself |
| GameRules.OpponentInvolution | src/models/game.model.ts:7-9 | handing the turn over twice gives it back |
| GameRules.TotalPairs | src/models/game.model.ts:186 | `floor(boardSize / 2)` pairs: twice that fits on the board, and twice one more does not |
| GameRules.FirstIndex | src/models/game.model.ts:119 | `find` by id: nothing exactly when no card has the id; otherwise the first position holding it |
| GameRules.FirstIndexOfDistinct | src/models/game.model.ts:119 | with unique ids, `find` returns a card's own position |
| GameRules.InvBounds | src/models/game.model.ts:150-155 | under the invariant, `blue + red == matches <= totalPairs` |
| GameRules.OpenedAreVisible | src/models/game.model.ts:128-182 | in a synchronised session, the revealed ids are exactly the ids of the visible cards |
| GameRules.NewSession | src/models/game.model.ts:50-60 | a new session holds the given deck, is playing, has no moves, matches or points, nothing revealed or locked, and the configured player on turn |
| GameRules.NewSessionValid | src/models/game.model.ts:50-65 | a new game on a well-formed, all-hidden deck satisfies the invariant and is synchronised |
| GameRules.Winner | src/models/game.model.ts:193-203 | Blue wins exactly when Blue has more points, Red exactly when Red has more, and otherwise it is a draw |
| GameRules.CheckWin | src/models/game.model.ts:185-204 | the game is won exactly when `matches == totalPairs`, with the outcome and both scores in the message, and nothing else changes; when it is not won, the session is left exactly as it was |
| GameRules.Scored | src/models/game.model.ts:150-157 | both cards are matched and every other card is kept; one more match and one point for the player on turn; the turn is kept; nothing stays revealed or locked |
| GameRules.FlipStep | src/models/game.model.ts:110-183 | a flip keeps the number of cards, and a resolution it schedules names two positions of the deck |
| GameRules.Reveal | src/models/game.model.ts:128-129 | the card at the position turns face up and its id is appended to the revealed ids; every other card is kept |
| GameRules.ResolvePair | src/models/game.model.ts:132-168 | once two ids are revealed, the pair step keeps the number of cards, and a resolution it schedules names two positions of the deck |
| GameRules.FlipHidden | src/models/game.model.ts:128-168 | an accepted flip keeps the number of cards, and a resolution it schedules names two positions of the deck |
| GameRules.FlipIgnoredExactly | src/models/game.model.ts:110-126 | a flip leaves the session untouched and schedules nothing exactly when it is not accepted: the game is not on, the session is locked, the id is unknown, or the card is already visible or matched |
| GameRules.FlipFirstCard | src/models/game.model.ts:128-134 | the first flip of a pair reveals the card and records its id; nothing else changes |
| GameRules.FlipMatchStep | src/models/game.model.ts:128-164 | the second flip of a matching pair equals revealing, counting the move, scoring both cards and the win check |
| GameRules.FlipMatch | src/models/game.model.ts:150-164 | on a match both cards become matched; the move, the match and the acting player's score each rise by one; the turn is kept; nothing stays revealed or locked; the game is won exactly when this was the last pair |
| GameRules.FlipMismatch | src/models/game.model.ts:128-169 | on a mismatch the card is revealed, the move is counted, and the session locks with both cards face up; turn and scores are unchanged; a resolution handing the turn to the opponent is scheduled |
| GameRules.FlipCountsMoves | src/models/game.model.ts:132-137 | a flip counts exactly one move when it is the accepted second flip of a pair, and none otherwise |
| GameRules.RevealFirstKeepsInv | src/models/game.model.ts:128-134 | the first flip of a pair keeps the invariant and the synchronisation |
| GameRules.RevealMatchKeepsInv | src/models/game.model.ts:150-164 | a scored pair keeps the invariant and the synchronisation |
| GameRules.RevealMismatchKeepsInv | src/models/game.model.ts:148-169 | a locked mismatch keeps the invariant and the synchronisation |
| GameRules.FlipPreservesInv | src/models/game.model.ts:110-183 | every flip keeps the invariant and the synchronisation, and schedules only a resolution of the two revealed, visible, differently keyed cards, handed to the opponent |
| GameRules.HideAtKeeps | src/models/game.model.ts:170-171 | turning unmatched cards face down keeps every id in place and the number of matched cards |
| GameRules.ResolveStep | src/models/game.model.ts:169-182 | a resolution turns the cards at the given positions face down and keeps every other card; the revealed ids and the lock are cleared and the turn passes to `nextPlayer`; nothing else changes |
| GameRules.ResolvePreservesInv | src/models/game.model.ts:169-182 | a resolution that turns no matched card face down keeps the invariant, whichever player it hands the turn to |
| GameRules.ResolvePendingSynced | src/models/game.model.ts:167-182 | the resolution a mismatch scheduled hides exactly its two cards, clears the revealed ids and the lock, and passes the turn to the opponent; scores and counters are unchanged, and the session is synchronised again |
| GameRules.StaleResolutionDesyncs | src/models/game.model.ts:50-65 | a resolution left over from an earlier game, arriving after one card of the new deck was revealed, keeps the invariant but leaves that card face up, unrevealed and unflippable |
| GameModel.ParseNatToString | src/models/game.model.ts:102 | the decimal text of a pair number reads back as that number |
| GameModel.PairKeyInjective | src/models/game.model.ts:102 | different pairs get different keys `pair-i` |
| GameModel.CardIdInjective | src/models/game.model.ts:103-104 | the card ids `pair-i-a` and `pair-i-b` name their pair and their side |
| GameModel.PositionsOfOwnCards | src/models/game.model.ts:169-171 | in a deck without repeated objects, the two captured cards of this deck occupy exactly their own two positions |
| GameModel.IconFor | src/models/game.model.ts:101 | pair `i` takes the `i`-th chosen icon when there is one, and otherwise an icon of the pool |
| GameModel.LaidOutAppend | src/models/game.model.ts:100-105 | each loop round appends pair `i` as cards `pair-i-a` and `pair-i-b` with one key and one icon, keeping the laid-out shape |
| GameModel.PairOfPosition | src/models/game.model.ts:100-105 | position `k` of the unshuffled deck holds a card of pair `k/2`: key `pair-(k/2)`, and id `pair-(k/2)-a` at an even position and `pair-(k/2)-b` at an odd one |
| GameModel.LaidOutIdsDistinct | src/models/game.model.ts:103-104 | the unshuffled deck has unique ids |
| GameModel.PermutedIdsDistinct | src/models/game.model.ts:107 | a shuffled deck keeps unique ids and holds no card object twice |
| GameModel.PermutedHidden | src/models/game.model.ts:103-107 | a shuffled deck is all face down and unowned |
| GameModel.EachKeyTwice | src/models/game.model.ts:100-107 | each key `pair-i` is carried by exactly two cards of the deck, `pair-i-a` and `pair-i-b` |
| GameModel.IconsFromPool | src/models/game.model.ts:97-101 | every pair's icon comes from the pool; with a pool without repeats and enough icons, no two pairs share one |
| GameModel.LayOutPairs | src/models/game.model.ts:100-105 | `2*neededUnique` fresh cards (none when it is not positive), laid out as pairs `pair-i-a`/`pair-i-b` with shared key, each pair with the icon `chosen[i] ?? icons[i % icons.length]`, all face down and unowned |
| GameModel.CreateDeck | src/models/game.model.ts:93-108 | `2*floor(boardSize/2)` fresh cards (none for a board below two), all face down and unowned, with unique ids; a permutation of pairs laid out as `pair-i-a`/`pair-i-b` with shared key and icon; icons from the pool, and distinct when the pool allows |
| GameModel.Game.constructor | src/models/game.model.ts:33-48 | a new object keeps the settings and icon pool and has started its first game: a new session on a deck that is a permutation of the laid-out pairs, all face down and unowned; the invariant and the synchronisation hold |
| GameModel.Game.NewGame | src/models/game.model.ts:50-65 | the object holds a new session on a fresh deck of `2*totalPairs` cards that is a permutation of the pairs as laid out (kept as a ghost field), all face down and unowned, with icons from the pool and distinct when the pool allows: playing, no moves or matches, nothing revealed or locked, scores zero, the configured player on turn; the invariant and the synchronisation hold |
| GameModel.Game.CheckWin | src/models/game.model.ts:185-204 | the object takes the rules' win-check step; the deck is unchanged |
| GameModel.Game.Flip | src/models/game.model.ts:110-183 | the object takes exactly the rules' flip step; the scheduled resolution holds the two card objects at the positions the rules name; the invariant and the synchronisation are kept |
| GameModel.Game.FlipHiddenCard | src/models/game.model.ts:128-183 | an accepted flip reveals the card and, with two revealed, counts the move and settles the pair, as the rules' accepted-flip step does |
| GameModel.Game.RevealCard | src/models/game.model.ts:128-129 | the card turns face up and its id is appended to the revealed ids; nothing else changes |
| GameModel.Game.SettlePair | src/models/game.model.ts:139-182 | the pair is dropped when an id names no card, scored when the keys agree, and otherwise locked with a resolution scheduled, as the rules' pair step does |
| GameModel.Game.ScorePair | src/models/game.model.ts:150-164 | a matching pair is scored, then the win check runs |
| GameModel.Game.MarkPair | src/models/game.model.ts:150-157 | both cards are matched, one more match and one point for the player on turn, nothing revealed or locked |
| GameModel.Game.InvCarries | src/models/game.model.ts:110-183 | a flip from a session satisfying the invariant (and synchronised) leads to one that is too |
| GameModel.Game.ResolveCarries | src/models/game.model.ts:169-182 | a resolution that hides no matched card keeps the invariant |
| GameModel.Game.ResolveMismatch | src/models/game.model.ts:169-182 | callable at any time: the captured cards go face down wherever they are in the current deck, and nowhere if they are not in it; the deck and its laid-out pairs are kept; the revealed ids and the lock are cleared, and the turn passes to `nextPlayer`; the invariant is kept when neither card is matched |

## Left out

- DOM and events: not modelled, because they are browser I/O.
  - This covers the constructor's `querySelector` lookups, `bindEvents`,
    `render`, `updateStats`, `setMessage` and `syncRootDatasets`.
  - A status message is kept as a `Message` value (who starts, who scored,
    whose turn, the outcome and the scores), not as text.
  - The markup of the board template and of the stats panel is left out; only
    the per-card flags and the column count are modelled.
  - A `Game` is built from the settings and an icon pool, not from a root
    element. The "board not found" error is not modelled.
- Timing: `window.setTimeout` and its 700 ms delay are not modelled.
  - A mismatching flip returns the resolution it schedules.
  - `GameModel.Game.ResolveMismatch` runs a resolution whenever it is called.
  - No ordering between flips and resolutions is imposed.
- Randomness: `randomNumber` uses floating-point `Math.random`. It is replaced
  by an oracle that returns some integer in `[min, max]`; uniformity is not
  claimed.
- `getIconUrls`: URL construction from the page location is left out. The icon
  pool is a parameter of the `Game` constructor and must not be empty, because
  `i % icons.length` is meaningless for an empty pool.
- Storage: `localStorage` and `JSON.parse`/`JSON.stringify` are abstracted.
  - The slot is `Absent` (nothing stored or the empty string), `Unreadable`
    (a read or parse that throws) or the parsed value.
  - JSON numbers are exact reals, not IEEE doubles.
  - Only own properties of a parsed object are read; properties inherited
    through the prototype chain are not modelled.
- `Assets.Shuffle`: the input is a sequence value, so the array copy the source
  makes, and the fact that the input is left unchanged, hold by construction
  rather than by a frame proof.
- `GameModel.Game.FlipHiddenCard`, `GameModel.Game.SettlePair`,
  `GameModel.Game.ScorePair`, `GameModel.Game.MarkPair` and
  `GameModel.Game.RevealCard`: `flip` is one method in the source; here it is
  split at its branch points into these helpers. Each takes one step of the
  rules, and `GameModel.Game.Flip` composes them. Each requires only that the
  deck holds no card object twice, and keeps the deck and its laid-out pairs.
- `GameModel.LayOutPairs`: the loop of `createDeck` is its own method, which
  `GameModel.CreateDeck` calls before shuffling.
- `GameSettingsStore.SetGameSettings`: `localStorage.setItem` can throw (storage
  disabled or full), and the source does not catch it. The model always stores.
- `GameSettingsStore.GetGameSettings`: every exception inside its `try` block
  is folded into the `Unreadable` slot. A throwing `getItem` and a failing
  `JSON.parse` are not told apart, because both give the defaults.
- `src/stores/theme-store.ts`, `src/pages/settings.page.ts`,
  `src/pages/game.page.ts`, `src/main.ts`, `getPreferredScheme` and
  `vite.config.ts`: not modelled. They are browser I/O, routing and build
  configuration.
- `getGameSettings` outside a browser is a boolean parameter, because
  `typeof window` cannot be observed in the model.
