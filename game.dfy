/**
 * The game engine as the object it is: a `Game` whose fields the operations
 * update in place, over a deck of `MemoryCard` objects. Each operation is
 * proved to take exactly the step module GameRules defines on the session the
 * object holds, so the invariants proved there carry over to the object.
 */
module GameModel {

  import opened Optional
  import opened GameSettingsStore
  import opened BoardTemplate
  import opened Assets
  import opened GameRules

  /** The character of a decimal digit. */
  function Digit(d: nat): (c: char)
    requires d < 10
    ensures '0' <= c <= '9'
  {
    ('0' as int + d) as char
  }

  /** The decimal text of a natural number, as a template literal writes it. */
  function NatToString(n: nat): (s: string)
    ensures |s| > 0
  {
    if n < 10 then [Digit(n)] else NatToString(n / 10) + [Digit(n % 10)]
  }

  /** The number a string of decimal digits denotes. */
  function ParseNat(s: string): nat {
    if s == [] then 0
    else
      var c := s[|s| - 1];
      ParseNat(s[..|s| - 1]) * 10 + (if '0' <= c <= '9' then c as int - '0' as int else 0)
  }

  /** Reading back the decimal text of a number gives the number. */
  lemma {:induction false} ParseNatToString(n: nat)
    ensures ParseNat(NatToString(n)) == n
  {
    if n >= 10 {
      var s := NatToString(n);
      assert s[..|s| - 1] == NatToString(n / 10);
      ParseNatToString(n / 10);
    }
  }

  /** The pair key of the `i`-th pair: `pair-i`. */
  function PairKey(i: nat): string {
    "pair-" + NatToString(i)
  }

  /** The id of one card of the `i`-th pair: `pair-i-a` or `pair-i-b`. */
  function CardId(i: nat, side: char): string {
    PairKey(i) + ['-', side]
  }

  /** Different pairs have different keys. */
  lemma PairKeyInjective(i: nat, j: nat)
    requires PairKey(i) == PairKey(j)
    ensures i == j
  {
    assert PairKey(i)[5..] == NatToString(i);
    assert PairKey(j)[5..] == NatToString(j);
    ParseNatToString(i);
    ParseNatToString(j);
  }

  /** Card ids name their pair and their side. */
  lemma CardIdInjective(i: nat, x: char, j: nat, y: char)
    requires CardId(i, x) == CardId(j, y)
    ensures i == j && x == y
  {
    var u := CardId(i, x);
    assert u[..|u| - 2] == PairKey(i);
    assert u[..|u| - 2] == PairKey(j);
    PairKeyInjective(i, j);
    assert u[|u| - 1] == x;
  }

  /** The current values of a sequence of cards. */
  function DataOf(cs: seq<MemoryCard>): (d: seq<CardData>)
    reads cs
    ensures |d| == |cs| && forall k :: 0 <= k < |cs| ==> d[k] == cs[k].Data()
  {
    seq(|cs|, k requires 0 <= k < |cs| reads cs => cs[k].Data())
  }

  /** The ids of the cards' values are the cards' ids. */
  lemma IdsOfData(cs: seq<MemoryCard>)
    ensures Ids(DataOf(cs)) == IdsOf(cs)
  {
  }

  /** The ids of a sequence of cards (fixed when the cards are built). */
  function IdsOf(cs: seq<MemoryCard>): (ids: seq<string>)
    ensures |ids| == |cs| && forall k :: 0 <= k < |cs| ==> ids[k] == cs[k].id
  {
    seq(|cs|, k requires 0 <= k < |cs| => cs[k].id)
  }

  /** The positions of a deck that hold one of the given card objects. */
  function PositionsOf(cs: seq<MemoryCard>, objs: set<MemoryCard>): set<nat> {
    set k: nat | k < |cs| && cs[k] in objs
  }

  /** In a deck without repeated objects, two of its cards occupy exactly their own two positions. */
  lemma PositionsOfOwnCards(cs: seq<MemoryCard>, i: nat, j: nat)
    requires Distinct(cs) && i < |cs| && j < |cs|
    ensures PositionsOf(cs, {cs[i], cs[j]}) == {i, j}
  {
  }

  /** The icon of the `i`-th pair: the `i`-th sampled icon, or one from the pool reused in turn. */
  function IconFor(chosen: seq<string>, icons: seq<string>, i: nat): (icon: string)
    requires |icons| > 0
    ensures i < |chosen| ==> icon == chosen[i]
    ensures i >= |chosen| ==> icon in icons
  {
    if i < |chosen| then chosen[i] else icons[i % |icons|]
  }

  /**
   * The `i`-th pair of the unshuffled deck: cards `pair-i-a` and `pair-i-b` with
   * key `pair-i` and one icon. Only the fixed fields of a card are involved, so
   * this outlives every change of the cards' states.
   */
  ghost predicate PairLaidOut(pairs: seq<MemoryCard>, i: nat)
    requires 2 * i + 1 < |pairs|
  {
    && pairs[2 * i].id == CardId(i, 'a') && pairs[2 * i].pairKey == PairKey(i)
    && pairs[2 * i + 1].id == CardId(i, 'b') && pairs[2 * i + 1].pairKey == PairKey(i)
    && pairs[2 * i + 1].iconUrl == pairs[2 * i].iconUrl
  }

  /** The deck before shuffling: pair 0, pair 1, ... side by side. */
  ghost predicate LaidOut(pairs: seq<MemoryCard>) {
    |pairs| % 2 == 0 && forall i: nat :: 2 * i + 1 < |pairs| ==> PairLaidOut(pairs, i)
  }

  /** The icon of each pair of a laid-out deck, pair by pair. */
  function PairIcons(pairs: seq<MemoryCard>): (used: seq<string>)
    ensures |used| == |pairs| / 2
    ensures forall i :: 0 <= i < |used| ==> used[i] == pairs[2 * i].iconUrl
  {
    seq(|pairs| / 2, i requires 0 <= i < |pairs| / 2 => pairs[2 * i].iconUrl)
  }

  /** A deck of `totalPairs` laid-out pairs, in some order. */
  ghost predicate DeckOfPairs(deck: seq<MemoryCard>, pairs: seq<MemoryCard>, totalPairs: int) {
    |pairs| == 2 * totalPairs && LaidOut(pairs) && multiset(deck) == multiset(pairs)
  }

  /** Laying out one more pair after the first `i`. */
  lemma LaidOutAppend(pairs: seq<MemoryCard>, a: MemoryCard, b: MemoryCard, i: nat)
    requires LaidOut(pairs) && |pairs| == 2 * i
    requires a.id == CardId(i, 'a') && a.pairKey == PairKey(i)
    requires b.id == CardId(i, 'b') && b.pairKey == PairKey(i) && b.iconUrl == a.iconUrl
    ensures LaidOut(pairs + [a, b])
  {
    var next := pairs + [a, b];
    forall j: nat | 2 * j + 1 < |next|
      ensures PairLaidOut(next, j)
    {
      if j < i {
        assert PairLaidOut(pairs, j);
        assert next[2 * j] == pairs[2 * j] && next[2 * j + 1] == pairs[2 * j + 1];
      } else {
        assert next[2 * j] == a && next[2 * j + 1] == b;
      }
    }
  }

  /** Every position of the unshuffled deck belongs to the pair of half its index. */
  lemma PairOfPosition(pairs: seq<MemoryCard>, k: nat)
    requires LaidOut(pairs) && k < |pairs|
    ensures pairs[k].pairKey == PairKey(k / 2)
    ensures pairs[k].id == CardId(k / 2, if k % 2 == 0 then 'a' else 'b')
  {
    assert 2 * (k / 2) + 1 < |pairs|;
    assert PairLaidOut(pairs, k / 2);
  }

  /** The unshuffled deck has unique ids. */
  lemma LaidOutIdsDistinct(pairs: seq<MemoryCard>)
    requires LaidOut(pairs)
    ensures Distinct(IdsOf(pairs))
  {
    forall p, q | 0 <= p < q < |pairs|
      ensures pairs[p].id != pairs[q].id
    {
      PairOfPosition(pairs, p);
      PairOfPosition(pairs, q);
      if pairs[p].id == pairs[q].id {
        CardIdInjective(p / 2, if p % 2 == 0 then 'a' else 'b', q / 2, if q % 2 == 0 then 'a' else 'b');
      }
    }
  }

  /** A reordering of cards with unique ids has unique ids and no object twice. */
  lemma PermutedIdsDistinct(deck: seq<MemoryCard>, pairs: seq<MemoryCard>)
    requires multiset(deck) == multiset(pairs) && Distinct(IdsOf(pairs))
    ensures Distinct(deck) && Distinct(IdsOf(deck))
  {
    assert Distinct(pairs) by {
      forall p, q | 0 <= p < q < |pairs|
        ensures pairs[p] != pairs[q]
      {
        assert IdsOf(pairs)[p] != IdsOf(pairs)[q];
      }
    }
    DistinctSubMultiset(pairs, deck);
    forall i, j | 0 <= i < j < |deck|
      ensures deck[i].id != deck[j].id
    {
      assert deck[i] in multiset(pairs) && deck[j] in multiset(pairs);
      var p :| 0 <= p < |pairs| && pairs[p] == deck[i];
      var q :| 0 <= q < |pairs| && pairs[q] == deck[j];
      assert p != q;
      assert IdsOf(pairs)[p] != IdsOf(pairs)[q];
    }
  }

  /** A reordering of face-down, unowned cards is all face down and unowned. */
  lemma PermutedHidden(deck: seq<MemoryCard>, pairs: seq<MemoryCard>)
    requires multiset(deck) == multiset(pairs)
    requires forall c :: c in pairs ==> c.state == Hidden && c.matchedBy == None
    ensures forall k :: 0 <= k < |deck| ==> deck[k].state == Hidden && deck[k].matchedBy == None
  {
    forall k | 0 <= k < |deck|
      ensures deck[k].state == Hidden && deck[k].matchedBy == None
    {
      assert deck[k] in multiset(pairs);
    }
  }

  /**
   * Each pair key of a reordering of the unshuffled deck is carried by exactly
   * two cards: the two laid out as that pair, `pair-i-a` and `pair-i-b`.
   */
  lemma EachKeyTwice(deck: seq<MemoryCard>, pairs: seq<MemoryCard>, i: nat)
    requires LaidOut(pairs) && 2 * i + 1 < |pairs| && multiset(deck) == multiset(pairs)
    ensures (set c | c in deck && c.pairKey == PairKey(i)) == {pairs[2 * i], pairs[2 * i + 1]}
    ensures pairs[2 * i].id == CardId(i, 'a') && pairs[2 * i + 1].id == CardId(i, 'b')
  {
    PairOfPosition(pairs, 2 * i);
    PairOfPosition(pairs, 2 * i + 1);
    assert pairs[2 * i] in multiset(deck) && pairs[2 * i + 1] in multiset(deck);
    forall c | c in deck && c.pairKey == PairKey(i)
      ensures c == pairs[2 * i] || c == pairs[2 * i + 1]
    {
      assert c in multiset(pairs);
      var k :| 0 <= k < |pairs| && pairs[k] == c;
      PairOfPosition(pairs, k);
      PairKeyInjective(k / 2, i);
    }
  }

  /**
   * The pairs' icons come from the pool; when the pool has no repeats and every
   * pair got a sampled icon, no two pairs share an icon.
   */
  lemma IconsFromPool(pairs: seq<MemoryCard>, chosen: seq<string>, icons: seq<string>)
    requires |icons| > 0 && |pairs| % 2 == 0 && multiset(chosen) <= multiset(icons)
    requires forall i: nat :: 2 * i + 1 < |pairs| ==> pairs[2 * i].iconUrl == IconFor(chosen, icons, i)
    ensures forall icon :: icon in PairIcons(pairs) ==> icon in icons
    ensures Distinct(icons) && |pairs| <= 2 * |chosen| ==> Distinct(PairIcons(pairs))
  {
    var used := PairIcons(pairs);
    forall i | 0 <= i < |used|
      ensures used[i] in icons
    {
      assert 2 * i + 1 < |pairs|;
      if i < |chosen| {
        assert chosen[i] in multiset(icons);
      }
    }
    if Distinct(icons) && |pairs| <= 2 * |chosen| {
      DistinctSubMultiset(icons, chosen);
      forall i | 0 <= i < |used|
        ensures used[i] == chosen[i]
      {
        assert 2 * i + 1 < |pairs|;
      }
    }
  }

  /**
   * `createDeck`: `floor(boardSize / 2)` pairs (none for a board below two cards),
   * each pair two fresh cards `pair-i-a` and `pair-i-b` sharing key `pair-i` and an
   * icon from the pool, face down and unowned; the deck is a reordering of those
   * pairs. No two pairs share an icon when the pool has no repeats and enough icons.
   */
  method CreateDeck(boardSize: int, icons: seq<string>) returns (deck: seq<MemoryCard>, ghost unshuffled: seq<MemoryCard>)
    requires |icons| > 0
    ensures |unshuffled| == 2 * (if TotalPairs(boardSize) > 0 then TotalPairs(boardSize) else 0)
    ensures LaidOut(unshuffled)
    ensures forall icon :: icon in PairIcons(unshuffled) ==> icon in icons
    ensures Distinct(icons) && TotalPairs(boardSize) <= |icons| ==> Distinct(PairIcons(unshuffled))
    ensures |deck| == |unshuffled| && multiset(deck) == multiset(unshuffled)
    ensures forall c :: c in deck ==> fresh(c)
    ensures Distinct(deck) && Distinct(IdsOf(deck))
    ensures forall k :: 0 <= k < |deck| ==> deck[k].state == Hidden && deck[k].matchedBy == None
  {
    var neededUnique := boardSize / 2;
    var chosen := PickRandomUnique(icons, neededUnique);
    var pairs := LayOutPairs(neededUnique, chosen, icons);
    unshuffled := pairs;
    ghost var steps;
    deck, steps := Shuffle(pairs);
    LaidOutIdsDistinct(pairs);
    PermutedIdsDistinct(deck, pairs);
    PermutedHidden(deck, pairs);
    IconsFromPool(pairs, chosen, icons);
    forall c | c in deck
      ensures fresh(c)
    {
      assert c in multiset(pairs);
      assert c in pairs;
    }
  }

  /**
   * The loop of `createDeck`: pairs 0 to `neededUnique - 1`, each two fresh cards
   * `pair-i-a` and `pair-i-b` with key `pair-i` and the icon `IconFor` gives,
   * face down and unowned.
   */
  method LayOutPairs(neededUnique: int, chosen: seq<string>, icons: seq<string>) returns (pairs: seq<MemoryCard>)
    requires |icons| > 0
    ensures |pairs| == 2 * (if neededUnique > 0 then neededUnique else 0)
    ensures LaidOut(pairs)
    ensures forall i: nat :: 2 * i + 1 < |pairs| ==> pairs[2 * i].iconUrl == IconFor(chosen, icons, i)
    ensures forall c :: c in pairs ==> fresh(c) && c.state == Hidden && c.matchedBy == None
  {
    pairs := [];
    var i := 0;
    while i < neededUnique
      invariant 0 <= i <= (if neededUnique > 0 then neededUnique else 0)
      invariant |pairs| == 2 * i
      invariant LaidOut(pairs)
      invariant forall j: nat :: 2 * j + 1 < |pairs| ==> pairs[2 * j].iconUrl == IconFor(chosen, icons, j)
      invariant forall c :: c in pairs ==> fresh(c) && c.state == Hidden && c.matchedBy == None
    {
      var iconUrl := IconFor(chosen, icons, i);
      var pairKey := PairKey(i);
      var a := new MemoryCard(CardId(i, 'a'), pairKey, iconUrl, Hidden, None);
      var b := new MemoryCard(CardId(i, 'b'), pairKey, iconUrl, Hidden, None);
      LaidOutAppend(pairs, a, b, i);
      pairs := pairs + [a, b];
      i := i + 1;
    }
  }

  /** The resolution a mismatching flip schedules: the two card objects it captured and the player to hand over to. */
  datatype Resolution = Resolution(first: MemoryCard, second: MemoryCard, nextPlayer: PlayerColor)

  /**
   * One game. The settings and the icon pool are fixed for its lifetime; the
   * deck, the revealed ids, the lock, the counters, the lifecycle state, the
   * turn, the scores and the last message change as the game is played.
   */
  class Game {
    const settings: GameSettings
    const icons: seq<string>
    var cards: seq<MemoryCard>
    var openedIds: seq<string>
    var lock: bool
    var moves: nat
    var matches: nat
    var state: GameState
    var currentPlayer: PlayerColor
    var score: Score
    var message: Message
    /** The deck as laid out before it was shuffled: pair 0, pair 1, ... side by side. */
    ghost var pairs: seq<MemoryCard>

    /** The session this object holds. */
    ghost function Snapshot(): Session
      reads this, cards
    {
      Session(DataOf(cards), openedIds, lock, moves, matches, state, currentPlayer, score, message)
    }

    /**
     * The object's shape: a usable icon pool, and a deck that is a reordering of
     * the `floor(boardSize / 2)` laid-out pairs, with no card object twice.
     */
    ghost predicate Valid()
      reads this
    {
      |icons| > 0 && Distinct(cards) && DeckOfPairs(cards, pairs, TotalPairs(settings.boardSize))
    }

    /** The rules' invariant holds of the session this object holds. */
    ghost predicate Consistent()
      reads this, cards
    {
      Inv(Snapshot(), TotalPairs(settings.boardSize))
    }

    /** The revealed ids are exactly the visible cards. */
    ghost predicate InSync()
      reads this, cards
    {
      Synced(Snapshot())
    }

    /** Construction: an idle object that immediately starts its first game. */
    constructor (settings: GameSettings, icons: seq<string>)
      requires |icons| > 0
      ensures this.settings == settings && this.icons == icons
      ensures Valid() && Consistent() && InSync()
      ensures Snapshot() == NewSession(DataOf(cards), settings.startingPlayer)
      ensures forall k :: 0 <= k < |cards| ==> cards[k].state == Hidden && cards[k].matchedBy == None
      ensures fresh(set c | c in cards)
    {
      this.settings := settings;
      this.icons := icons;
      cards := [];
      openedIds := [];
      lock := false;
      moves := 0;
      matches := 0;
      state := Idle;
      currentPlayer := Blue;
      score := Score(0, 0);
      message := Starts(Blue);
      pairs := [];
      new;
      NewGame();
    }

    /**
     * `newGame`: a fresh deck for the configured board, nothing revealed or
     * locked, counters and scores at zero, the configured player to start.
     */
    method NewGame()
      requires |icons| > 0
      modifies this
      ensures Valid() && Consistent() && InSync()
      ensures Snapshot() == NewSession(DataOf(cards), settings.startingPlayer)
      ensures |cards| == 2 * TotalPairs(settings.boardSize)
      ensures forall k :: 0 <= k < |cards| ==> cards[k].state == Hidden && cards[k].matchedBy == None
      ensures forall icon :: icon in PairIcons(pairs) ==> icon in icons
      ensures Distinct(icons) && TotalPairs(settings.boardSize) <= |icons| ==> Distinct(PairIcons(pairs))
      ensures fresh(set c | c in cards)
    {
      state := Playing;
      moves := 0;
      matches := 0;
      openedIds := [];
      lock := false;
      currentPlayer := settings.startingPlayer;
      score := Score(0, 0);
      cards, pairs := CreateDeck(settings.boardSize, icons);
      message := Starts(currentPlayer);
      IdsOfData(cards);
      NewSessionValid(DataOf(cards), TotalPairs(settings.boardSize), settings.startingPlayer);
      assert Snapshot() == NewSession(DataOf(cards), settings.startingPlayer);
    }

    /** `checkWin`: the rules' win check, applied in place. */
    method CheckWin()
      modifies this
      ensures cards == old(cards) && pairs == old(pairs)
      ensures Snapshot() == GameRules.CheckWin(old(Snapshot()), TotalPairs(settings.boardSize))
    {
      var totalPairs := TotalPairs(settings.boardSize);
      if matches != totalPairs {
        return;
      }
      state := Won;
      message := GameOver(Winner(score), score.blue, score.red);
    }

    /**
     * `flip(cardId)`: the rules' flip step, applied in place; a mismatch hands
     * back the resolution to run later, holding the two card objects involved.
     */
    method Flip(cardId: string) returns (pending: Option<Resolution>)
      requires Valid()
      modifies this, cards
      ensures Valid() && cards == old(cards) && pairs == old(pairs)
      ensures var r := FlipStep(old(Snapshot()), TotalPairs(settings.boardSize), cardId);
              && Snapshot() == r.session
              && (pending.Some? <==> r.pending.Some?)
              && (pending.Some? ==> pending.value == Resolution(cards[r.pending.value.first], cards[r.pending.value.second], r.pending.value.nextPlayer))
      ensures old(Consistent()) ==> Consistent()
      ensures old(Consistent() && InSync()) ==> InSync()
    {
      InvCarries(Snapshot(), TotalPairs(settings.boardSize), cardId);
      IdsOfData(cards);
      pending := None;
      if state != Playing {
        return;
      }
      if lock {
        return;
      }
      var found := FirstIndex(IdsOf(cards), cardId);
      if found.None? {
        return;
      }
      var k := found.value;
      if cards[k].state == Matched || cards[k].state == Visible {
        return;
      }
      pending := FlipHiddenCard(k);
    }

    /** The accepted part of `flip`: the hidden card at position `k` is turned face up and, with two revealed, the pair settled. */
    method FlipHiddenCard(k: nat) returns (pending: Option<Resolution>)
      requires Distinct(cards) && k < |cards|
      modifies this, cards
      ensures cards == old(cards) && pairs == old(pairs)
      ensures var r := FlipHidden(old(Snapshot()), TotalPairs(settings.boardSize), k);
              && Snapshot() == r.session
              && (pending.Some? <==> r.pending.Some?)
              && (pending.Some? ==> pending.value == Resolution(cards[r.pending.value.first], cards[r.pending.value.second], r.pending.value.nextPlayer))
    {
      RevealCard(k);
      if |openedIds| < 2 {
        return None;
      }
      moves := moves + 1;
      pending := SettlePair();
    }

    /** The card at position `k` turned face up, its id appended to the revealed ids. */
    method RevealCard(k: nat)
      requires Distinct(cards) && k < |cards|
      modifies this, cards[k]
      ensures cards == old(cards) && pairs == old(pairs)
      ensures Snapshot() == Reveal(old(Snapshot()), k)
    {
      ghost var s := Snapshot();
      cards[k].state := Visible;
      openedIds := openedIds + [cards[k].id];
      assert DataOf(cards) == Reveal(s, k).cards;
    }

    /**
     * The second half of `flip`, once two ids are revealed and the move counted:
     * the pair is scored, left for a later resolution, or (when an id names no
     * card) dropped.
     */
    method SettlePair() returns (pending: Option<Resolution>)
      requires Distinct(cards) && |openedIds| >= 2
      modifies this, cards
      ensures cards == old(cards) && pairs == old(pairs)
      ensures var r := ResolvePair(old(Snapshot()), TotalPairs(settings.boardSize));
              && Snapshot() == r.session
              && (pending.Some? <==> r.pending.Some?)
              && (pending.Some? ==> pending.value == Resolution(cards[r.pending.value.first], cards[r.pending.value.second], r.pending.value.nextPlayer))
    {
      ghost var s := Snapshot();
      IdsOfData(cards);
      var foundA := FirstIndex(IdsOf(cards), openedIds[0]);
      var foundB := FirstIndex(IdsOf(cards), openedIds[1]);
      if foundA.None? || foundB.None? {
        openedIds := [];
        return None;
      }
      var a := foundA.value;
      var b := foundB.value;
      lock := true;
      if cards[a].pairKey == cards[b].pairKey {
        assert ResolvePair(s, TotalPairs(settings.boardSize)).session == GameRules.CheckWin(Scored(s, a, b), TotalPairs(settings.boardSize));
        assert Scored(Snapshot(), a, b) == Scored(s, a, b);
        ScorePair(a, b);
        return None;
      }
      pending := Some(Resolution(cards[a], cards[b], Opponent(currentPlayer)));
    }

    /**
     * A matching pair: both cards matched, one more match, a point for the
     * player on turn, nothing revealed or locked, then the win check.
     */
    method ScorePair(a: nat, b: nat)
      requires Distinct(cards) && a < |cards| && b < |cards|
      modifies this, cards
      ensures cards == old(cards) && pairs == old(pairs)
      ensures Snapshot() == GameRules.CheckWin(Scored(old(Snapshot()), a, b), TotalPairs(settings.boardSize))
    {
      MarkPair(a, b);
      CheckWin();
    }

    /** Both cards of a matching pair marked matched, and the match scored for the player on turn. */
    method MarkPair(a: nat, b: nat)
      requires Distinct(cards) && a < |cards| && b < |cards|
      modifies this, cards[a], cards[b]
      ensures cards == old(cards) && pairs == old(pairs)
      ensures Snapshot() == Scored(old(Snapshot()), a, b)
    {
      ghost var s := Snapshot();
      cards[a].state := Matched;
      cards[b].state := Matched;
      matches := matches + 1;
      score := score.Add(currentPlayer);
      openedIds := [];
      lock := false;
      message := MatchScored(currentPlayer);
      assert DataOf(cards) == Scored(s, a, b).cards;
    }

    /** The rules' invariant, where it held before a flip, holds after it. */
    static lemma InvCarries(s: Session, tp: int, cardId: string)
      ensures Inv(s, tp) ==> Inv(FlipStep(s, tp, cardId).session, tp)
      ensures Inv(s, tp) && Synced(s) ==> Synced(FlipStep(s, tp, cardId).session)
    {
      if Inv(s, tp) {
        FlipPreservesInv(s, tp, cardId);
      }
    }

    /** The rules' invariant, where it held before a resolution that turns no matched card face down, holds after it. */
    static lemma ResolveCarries(s: Session, tp: int, faceDown: set<nat>, nextPlayer: PlayerColor)
      ensures Inv(s, tp) && (forall k :: 0 <= k < |s.cards| && k in faceDown ==> s.cards[k].state != Matched)
              ==> Inv(ResolveStep(s, faceDown, nextPlayer), tp)
    {
      if Inv(s, tp) && (forall k :: 0 <= k < |s.cards| && k in faceDown ==> s.cards[k].state != Matched) {
        ResolvePreservesInv(s, tp, faceDown, nextPlayer);
      }
    }

    /**
     * The deferred mismatch callback: turns the two captured cards face down
     * wherever they are, clears the revealed ids and the lock, and hands the turn
     * to `nextPlayer`. Cards of an earlier deck are not in this one, so then no
     * card of this deck changes.
     */
    method ResolveMismatch(a: MemoryCard, b: MemoryCard, nextPlayer: PlayerColor)
      modifies this, a, b
      ensures cards == old(cards) && pairs == old(pairs)
      ensures Snapshot() == ResolveStep(old(Snapshot()), PositionsOf(cards, {a, b}), nextPlayer)
      ensures old(Consistent() && (a in cards ==> a.state != Matched) && (b in cards ==> b.state != Matched)) ==> Consistent()
    {
      ghost var s := Snapshot();
      a.state := Hidden;
      b.state := Hidden;
      openedIds := [];
      lock := false;
      currentPlayer := nextPlayer;
      message := NoMatch(nextPlayer);
      ghost var faceDown := PositionsOf(cards, {a, b});
      forall k | 0 <= k < |cards|
        ensures DataOf(cards)[k] == HideAt(s.cards, faceDown)[k]
      {
      }
      assert DataOf(cards) == HideAt(s.cards, faceDown);
      assert Snapshot() == ResolveStep(s, faceDown, nextPlayer);
      ResolveCarries(s, TotalPairs(settings.boardSize), faceDown, nextPlayer);
    }
  }
}
