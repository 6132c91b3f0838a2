/**
 * The rules of the two-player memory game as functions on values: one session
 * of the engine (cards, revealed ids, lock, counters, lifecycle, turn, scores
 * and the last status message) and the step each operation takes on it.
 * The class in module GameModel is proved to take exactly these steps.
 */
module GameRules {

  import opened Optional
  import opened GameSettingsStore
  import opened BoardTemplate
  import opened Assets

  datatype GameState = Idle | Playing | Won

  /** The per-player score record. */
  datatype Score = Score(blue: nat, red: nat) {

    function Of(p: PlayerColor): nat {
      match p
      case Blue => blue
      case Red => red
    }

    /** One more point for `p`, none for the other player. */
    function Add(p: PlayerColor): (s: Score)
      ensures s.Of(p) == Of(p) + 1 && s.Of(Opponent(p)) == Of(Opponent(p))
      ensures s.blue + s.red == blue + red + 1
    {
      match p
      case Blue => Score(blue + 1, red)
      case Red => Score(blue, red + 1)
    }
  }

  datatype Outcome = BlueWins | RedWins | Draw

  /** The status messages the engine shows, as values rather than text. */
  datatype Message =
    | Starts(player: PlayerColor)
    | MatchScored(player: PlayerColor)
    | NoMatch(player: PlayerColor)
    | GameOver(outcome: Outcome, blue: nat, red: nat)

  /** The state one `Game` object holds, as a value. */
  datatype Session = Session(
    cards: seq<CardData>,
    openedIds: seq<string>,
    lock: bool,
    moves: nat,
    matches: nat,
    state: GameState,
    currentPlayer: PlayerColor,
    score: Score,
    message: Message)

  /** A mismatch resolution scheduled by a flip: the positions of the two cards and the player to hand over to. */
  datatype Pending = Pending(first: nat, second: nat, nextPlayer: PlayerColor)

  /** What a flip leaves behind: the new session and the resolution it scheduled, if any. */
  datatype FlipResult = FlipResult(session: Session, pending: Option<Pending>)

  /** `getOpponent`. */
  function Opponent(p: PlayerColor): (q: PlayerColor)
    ensures q != p
  {
    if p == Blue then Red else Blue
  }

  /** Handing the turn over twice gives it back. */
  lemma OpponentInvolution(p: PlayerColor)
    ensures Opponent(Opponent(p)) == p
  {
  }

  /** `Math.floor(boardSize / 2)`: the largest number of pairs that fits on the board. */
  function TotalPairs(boardSize: int): (n: int)
    ensures 2 * n <= boardSize < 2 * n + 2
  {
    boardSize / 2
  }

  /** The ids of the cards, in order. */
  function Ids(cards: seq<CardData>): (ids: seq<string>)
    ensures |ids| == |cards| && forall k :: 0 <= k < |cards| ==> ids[k] == cards[k].id
  {
    seq(|cards|, k requires 0 <= k < |cards| => cards[k].id)
  }

  /** `find` by id: the position of the first entry equal to `id`. */
  function FirstIndex(ids: seq<string>, id: string): (r: Option<nat>)
    ensures r.None? <==> id !in ids
    ensures r.Some? ==> r.value < |ids| && ids[r.value] == id && id !in ids[..r.value]
  {
    if ids == [] then None
    else if ids[0] == id then Some(0)
    else match FirstIndex(ids[1..], id)
      case None => None
      case Some(k) => assert ids[..k + 1] == [ids[0]] + ids[1..][..k]; Some(k + 1)
  }

  /** With unique ids, the position found for a card's id is that card's position. */
  lemma FirstIndexOfDistinct(ids: seq<string>, k: nat)
    requires Distinct(ids) && k < |ids|
    ensures FirstIndex(ids, ids[k]) == Some(k)
  {
  }

  /** The card with a given id (the first one, as `find` returns it). */
  function CardWithId(cards: seq<CardData>, id: string): (c: CardData)
    requires id in Ids(cards)
    ensures c in cards && c.id == id
  {
    cards[FirstIndex(Ids(cards), id).value]
  }

  /** The number of matched cards. */
  function MatchedCount(cards: seq<CardData>): nat {
    if cards == [] then 0
    else (if cards[0].state == Matched then 1 else 0) + MatchedCount(cards[1..])
  }

  lemma {:induction false} MatchedCountBound(cards: seq<CardData>)
    ensures MatchedCount(cards) <= |cards|
  {
    if cards != [] {
      MatchedCountBound(cards[1..]);
    }
  }

  /** Two decks that agree on which positions are matched have the same number of matched cards. */
  lemma {:induction false} MatchedCountSame(a: seq<CardData>, b: seq<CardData>)
    requires |a| == |b|
    requires forall k :: 0 <= k < |a| ==> (a[k].state == Matched <==> b[k].state == Matched)
    ensures MatchedCount(a) == MatchedCount(b)
  {
    if a != [] {
      MatchedCountSame(a[1..], b[1..]);
    }
  }

  /** Turning one unmatched card into a matched one adds one matched card. */
  lemma {:induction false} MatchedCountMark(cards: seq<CardData>, k: nat)
    requires k < |cards| && cards[k].state != Matched
    ensures MatchedCount(cards[k := cards[k].(state := Matched)]) == MatchedCount(cards) + 1
  {
    if k == 0 {
      assert cards[k := cards[k].(state := Matched)][1..] == cards[1..];
    } else {
      assert cards[k := cards[k].(state := Matched)][1..] == cards[1..][k - 1 := cards[k].(state := Matched)];
      MatchedCountMark(cards[1..], k - 1);
    }
  }

  /** The deck as `createDeck` builds it for a board: the right size, unique ids, no card owned by a player. */
  predicate WellFormedDeck(cards: seq<CardData>, totalPairs: int) {
    && |cards| == 2 * totalPairs
    && Distinct(Ids(cards))
    && forall k :: 0 <= k < |cards| ==> cards[k].matchedBy == None
  }

  /**
   * The invariant every operation of the engine keeps: the deck keeps its shape;
   * two cards are matched per match and every match is scored to one player, so
   * `blue + red == matches`; at most two ids are revealed and unresolved, each
   * the id of a visible card, and the session is locked exactly when there are
   * two of them, which then have different pair keys; the game is won exactly
   * when every pair is matched.
   */
  ghost predicate Inv(s: Session, totalPairs: int) {
    && totalPairs > 0
    && WellFormedDeck(s.cards, totalPairs)
    && MatchedCount(s.cards) == 2 * s.matches
    && s.score.blue + s.score.red == s.matches
    && |s.openedIds| <= 2
    && Distinct(s.openedIds)
    && (forall i :: 0 <= i < |s.openedIds| ==> s.openedIds[i] in Ids(s.cards))
    && (forall k :: 0 <= k < |s.cards| && s.cards[k].id in s.openedIds ==> s.cards[k].state == Visible)
    && (s.lock <==> |s.openedIds| == 2)
    && (s.lock ==> CardWithId(s.cards, s.openedIds[0]).pairKey != CardWithId(s.cards, s.openedIds[1]).pairKey)
    && s.state != Idle
    && (s.state == Won <==> s.matches == totalPairs)
  }

  /** Every visible card is among the revealed ids (with Inv: the revealed ids are exactly the visible cards). */
  ghost predicate Synced(s: Session) {
    forall k :: 0 <= k < |s.cards| && s.cards[k].state == Visible ==> s.cards[k].id in s.openedIds
  }

  /** The invariant bounds the matches by the number of pairs and ties them to the scores. */
  lemma InvBounds(s: Session, totalPairs: int)
    requires Inv(s, totalPairs)
    ensures s.score.blue + s.score.red == s.matches <= totalPairs
  {
    MatchedCountBound(s.cards);
  }

  /** In a synchronised session, the revealed ids are exactly the ids of the visible cards. */
  lemma OpenedAreVisible(s: Session, totalPairs: int)
    requires Inv(s, totalPairs) && Synced(s)
    ensures (set id | id in s.openedIds) == (set k | 0 <= k < |s.cards| && s.cards[k].state == Visible :: s.cards[k].id)
  {
    var visible := set k | 0 <= k < |s.cards| && s.cards[k].state == Visible :: s.cards[k].id;
    forall id | id in s.openedIds
      ensures id in visible
    {
      var k := FirstIndex(Ids(s.cards), id).value;
      assert s.cards[k].id == id;
    }
  }

  /** The session `newGame` starts on a fresh deck. */
  function NewSession(deck: seq<CardData>, startingPlayer: PlayerColor): (s: Session)
    ensures s.cards == deck && s.state == Playing && s.currentPlayer == startingPlayer
    ensures s.moves == 0 && s.matches == 0 && s.score.Of(Blue) == 0 && s.score.Of(Red) == 0
    ensures s.openedIds == [] && !s.lock
  {
    Session(deck, [], false, 0, 0, Playing, startingPlayer, Score(0, 0), Starts(startingPlayer))
  }

  /** A new game on a well-formed, all-hidden deck satisfies the invariant and is synchronised. */
  lemma NewSessionValid(deck: seq<CardData>, totalPairs: int, startingPlayer: PlayerColor)
    requires totalPairs > 0 && WellFormedDeck(deck, totalPairs)
    requires forall k :: 0 <= k < |deck| ==> deck[k].state == Hidden
    ensures Inv(NewSession(deck, startingPlayer), totalPairs) && Synced(NewSession(deck, startingPlayer))
  {
    var s := NewSession(deck, startingPlayer);
    MatchedCountSame(deck, seq(|deck|, k requires 0 <= k < |deck| => deck[k].(state := Hidden)));
    ZeroMatched(deck);
  }

  lemma {:induction false} ZeroMatched(cards: seq<CardData>)
    requires forall k :: 0 <= k < |cards| ==> cards[k].state != Matched
    ensures MatchedCount(cards) == 0
  {
    if cards != [] {
      ZeroMatched(cards[1..]);
    }
  }

  /** `checkWin`'s verdict: the player with more points wins, equal points are a draw. */
  function Winner(score: Score): (o: Outcome)
    ensures o == BlueWins <==> score.blue > score.red
    ensures o == RedWins <==> score.red > score.blue
    ensures o == Draw <==> score.blue == score.red
  {
    if score.blue > score.red then BlueWins
    else if score.red > score.blue then RedWins
    else Draw
  }

  /** `checkWin`: the game is over exactly when every pair is matched. */
  function CheckWin(s: Session, totalPairs: int): (r: Session)
    ensures r.state == (if s.matches == totalPairs then Won else s.state)
    ensures s.matches == totalPairs ==> r.message == GameOver(Winner(s.score), s.score.blue, s.score.red)
    ensures s.matches != totalPairs ==> r == s
    ensures r.(state := s.state, message := s.message) == s
  {
    if s.matches != totalPairs then s
    else s.(state := Won, message := GameOver(Winner(s.score), s.score.blue, s.score.red))
  }

  /** A flip is taken (not ignored) when the game is on, unlocked, and the id names a hidden card. */
  predicate Accepts(s: Session, cardId: string) {
    && s.state == Playing
    && !s.lock
    && cardId in Ids(s.cards)
    && CardWithId(s.cards, cardId).state == Hidden
  }

  /**
   * The pair at positions `a` and `b` scored for the player on turn: both cards
   * matched, one more match and one more point for that player, nothing revealed
   * or locked.
   */
  function Scored(s: Session, a: nat, b: nat): (r: Session)
    requires a < |s.cards| && b < |s.cards|
    ensures |r.cards| == |s.cards| && r.cards[a].state == Matched && r.cards[b].state == Matched
    ensures forall k :: 0 <= k < |s.cards| && k != a && k != b ==> r.cards[k] == s.cards[k]
    ensures r.matches == s.matches + 1 && r.score == s.score.Add(s.currentPlayer)
    ensures r.currentPlayer == s.currentPlayer && r.openedIds == [] && !r.lock
  {
    var marked := s.cards[a := s.cards[a].(state := Matched)];
    s.(cards := marked[b := marked[b].(state := Matched)], matches := s.matches + 1,
       score := s.score.Add(s.currentPlayer), openedIds := [], lock := false,
       message := MatchScored(s.currentPlayer))
  }

  /** The second half of a flip, once two ids are revealed: the move is counted and the pair resolved. */
  function ResolvePair(s: Session, totalPairs: int): (r: FlipResult)
    requires |s.openedIds| >= 2
    ensures |r.session.cards| == |s.cards|
    ensures r.pending.Some? ==> r.pending.value.first < |s.cards| && r.pending.value.second < |s.cards|
  {
    var ids := Ids(s.cards);
    var foundA := FirstIndex(ids, s.openedIds[0]);
    var foundB := FirstIndex(ids, s.openedIds[1]);
    if foundA.None? || foundB.None? then FlipResult(s.(openedIds := []), None)
    else
      var a := foundA.value;
      var b := foundB.value;
      if s.cards[a].pairKey == s.cards[b].pairKey then
        FlipResult(CheckWin(Scored(s, a, b), totalPairs), None)
      else
        FlipResult(s.(lock := true), Some(Pending(a, b, Opponent(s.currentPlayer))))
  }

  /** The card at position `k` turned face up and its id appended to the revealed ids. */
  function Reveal(s: Session, k: nat): (r: Session)
    requires k < |s.cards|
    ensures |r.cards| == |s.cards| && r.cards[k].state == Visible
    ensures forall j :: 0 <= j < |s.cards| && j != k ==> r.cards[j] == s.cards[j]
    ensures r.openedIds == s.openedIds + [s.cards[k].id]
  {
    s.(cards := s.cards[k := s.cards[k].(state := Visible)], openedIds := s.openedIds + [s.cards[k].id])
  }

  /**
   * An accepted flip of the hidden card at position `k`: the card is revealed;
   * once two ids are revealed, the move is counted and the pair resolved.
   */
  function FlipHidden(s: Session, totalPairs: int, k: nat): (r: FlipResult)
    requires k < |s.cards|
    ensures |r.session.cards| == |s.cards|
    ensures r.pending.Some? ==> r.pending.value.first < |s.cards| && r.pending.value.second < |s.cards|
  {
    var revealed := Reveal(s, k);
    if |revealed.openedIds| < 2 then FlipResult(revealed, None)
    else ResolvePair(revealed.(moves := s.moves + 1), totalPairs)
  }

  /** `flip(cardId)`. */
  function FlipStep(s: Session, totalPairs: int, cardId: string): (r: FlipResult)
    ensures |r.session.cards| == |s.cards|
    ensures r.pending.Some? ==> r.pending.value.first < |s.cards| && r.pending.value.second < |s.cards|
  {
    if s.state != Playing || s.lock then FlipResult(s, None)
    else match FirstIndex(Ids(s.cards), cardId)
      case None => FlipResult(s, None)
      case Some(k) =>
        if s.cards[k].state == Matched || s.cards[k].state == Visible then FlipResult(s, None)
        else
          FlipHidden(s, totalPairs, k)
  }

  /** The deck with the cards at the positions of `faceDown` turned face down. */
  function HideAt(cards: seq<CardData>, faceDown: set<nat>): (r: seq<CardData>)
    ensures |r| == |cards|
    ensures forall k :: 0 <= k < |cards| ==> r[k] == (if k in faceDown then cards[k].(state := Hidden) else cards[k])
  {
    seq(|cards|, k requires 0 <= k < |cards| => if k in faceDown then cards[k].(state := Hidden) else cards[k])
  }

  /**
   * The deferred mismatch callback: the cards it captured are turned face down
   * (`faceDown` holds their positions in this session's deck, none if they belong to
   * an earlier deck), the revealed ids and the lock are cleared, and the turn
   * passes to `nextPlayer`.
   */
  function ResolveStep(s: Session, faceDown: set<nat>, nextPlayer: PlayerColor): (r: Session)
    ensures |r.cards| == |s.cards|
    ensures forall k :: 0 <= k < |s.cards| && k in faceDown ==> r.cards[k] == s.cards[k].(state := Hidden)
    ensures forall k :: 0 <= k < |s.cards| && k !in faceDown ==> r.cards[k] == s.cards[k]
    ensures r.openedIds == [] && !r.lock && r.currentPlayer == nextPlayer
    ensures r.(cards := s.cards, openedIds := s.openedIds, lock := s.lock, currentPlayer := s.currentPlayer, message := s.message) == s
  {
    s.(cards := HideAt(s.cards, faceDown), openedIds := [], lock := false, currentPlayer := nextPlayer, message := NoMatch(nextPlayer))
  }

  /** Changing the state of one card keeps every id where it was. */
  lemma IdsKeep(cards: seq<CardData>, k: nat, st: CardState)
    requires k < |cards|
    ensures Ids(cards[k := cards[k].(state := st)]) == Ids(cards)
  {
  }

  /** The well-formed pending resolution `p` of session `s`: both cards visible, revealed and handed to the opponent. */
  ghost predicate PendingFor(s: Session, p: Pending) {
    && p.first < |s.cards| && p.second < |s.cards|
    && s.cards[p.first].state == Visible && s.cards[p.second].state == Visible
    && s.cards[p.first].pairKey != s.cards[p.second].pairKey
    && s.lock && s.openedIds == [s.cards[p.first].id, s.cards[p.second].id]
    && p.nextPlayer == Opponent(s.currentPlayer)
  }

  /** A flip is ignored, leaving the session exactly as it was, if and only if it is not accepted. */
  lemma FlipIgnoredExactly(s: Session, totalPairs: int, cardId: string)
    ensures FlipStep(s, totalPairs, cardId) == FlipResult(s, None) <==> !Accepts(s, cardId)
  {
    if Accepts(s, cardId) {
      var k := FirstIndex(Ids(s.cards), cardId).value;
      var revealed := s.(cards := s.cards[k := s.cards[k].(state := Visible)], openedIds := s.openedIds + [s.cards[k].id]);
      var r := FlipStep(s, totalPairs, cardId);
      if |revealed.openedIds| >= 2 {
        var m := revealed.(moves := s.moves + 1);
        IdsKeep(s.cards, k, Visible);
        var ids := Ids(m.cards);
        var foundA := FirstIndex(ids, m.openedIds[0]);
        var foundB := FirstIndex(ids, m.openedIds[1]);
        if foundA.None? || foundB.None? {
          assert r.session.cards[k].state == Visible;
        } else if m.cards[foundA.value].pairKey == m.cards[foundB.value].pairKey {
          assert r.session.cards[k].state != Hidden;
        } else {
          assert r.session.cards[k].state == Visible;
        }
      }
      assert r.session.cards[k].state != s.cards[k].state;
    }
  }

  /** The first flip of a pair reveals the card and records its id; nothing else changes, and no move is counted. */
  lemma FlipFirstCard(s: Session, totalPairs: int, cardId: string)
    requires Inv(s, totalPairs) && Accepts(s, cardId) && |s.openedIds| == 0
    ensures var k := FirstIndex(Ids(s.cards), cardId).value;
            FlipStep(s, totalPairs, cardId)
              == FlipResult(s.(cards := s.cards[k := s.cards[k].(state := Visible)], openedIds := [cardId]), None)
  {
  }

  /** The session after the second flip of a matching pair: the cards at `a` and `k` matched and scored. */
  function ScoreMatch(s: Session, totalPairs: int, a: nat, k: nat): Session
    requires a < |s.cards| && k < |s.cards|
  {
    var cards := s.cards[a := s.cards[a].(state := Matched)][k := s.cards[k].(state := Matched)];
    CheckWin(s.(cards := cards, matches := s.matches + 1, score := s.score.Add(s.currentPlayer),
                openedIds := [], lock := false, moves := s.moves + 1,
                message := MatchScored(s.currentPlayer)), totalPairs)
  }

  /** The second flip of a matching pair, in closed form. */
  lemma FlipMatchStep(s: Session, totalPairs: int, cardId: string)
    requires Inv(s, totalPairs) && Accepts(s, cardId) && |s.openedIds| == 1
    requires CardWithId(s.cards, s.openedIds[0]).pairKey == CardWithId(s.cards, cardId).pairKey
    ensures var a := FirstIndex(Ids(s.cards), s.openedIds[0]).value;
            var k := FirstIndex(Ids(s.cards), cardId).value;
            a != k && FlipStep(s, totalPairs, cardId) == FlipResult(ScoreMatch(s, totalPairs, a, k), None)
  {
    var a := FirstIndex(Ids(s.cards), s.openedIds[0]).value;
    var k := FirstIndex(Ids(s.cards), cardId).value;
    IdsKeep(s.cards, k, Visible);
    var cards := s.cards[k := s.cards[k].(state := Visible)];
    FirstIndexOfDistinct(Ids(cards), k);
    var marked := cards[a := cards[a].(state := Matched)];
    assert marked[k := marked[k].(state := Matched)] == s.cards[a := s.cards[a].(state := Matched)][k := s.cards[k].(state := Matched)];
  }

  /**
   * The second flip of a pair whose pair keys agree: both cards become matched,
   * the move, the match and the acting player's score each go up by one, the
   * acting player keeps the turn, nothing stays revealed or locked, and the game
   * is won exactly when this was the last pair.
   */
  lemma FlipMatch(s: Session, totalPairs: int, cardId: string)
    requires Inv(s, totalPairs) && Accepts(s, cardId) && |s.openedIds| == 1
    requires CardWithId(s.cards, s.openedIds[0]).pairKey == CardWithId(s.cards, cardId).pairKey
    ensures var a := FirstIndex(Ids(s.cards), s.openedIds[0]).value;
            var k := FirstIndex(Ids(s.cards), cardId).value;
            var r := FlipStep(s, totalPairs, cardId);
            && a != k
            && r.pending == None
            && |r.session.cards| == |s.cards|
            && r.session.cards[a].state == Matched && r.session.cards[k].state == Matched
            && (forall j :: 0 <= j < |s.cards| && j != a && j != k ==> r.session.cards[j] == s.cards[j])
            && r.session.moves == s.moves + 1
            && r.session.matches == s.matches + 1
            && r.session.score == s.score.Add(s.currentPlayer)
            && r.session.currentPlayer == s.currentPlayer
            && r.session.openedIds == [] && !r.session.lock
            && (r.session.state == Won <==> s.matches + 1 == totalPairs)
  {
    FlipMatchStep(s, totalPairs, cardId);
  }

  /**
   * The second flip of a pair whose pair keys differ: the card is revealed, the
   * move is counted, the session locks with both cards face up, scores and turn
   * are unchanged, and a resolution handing the turn to the opponent is scheduled.
   */
  lemma FlipMismatch(s: Session, totalPairs: int, cardId: string)
    requires Inv(s, totalPairs) && Accepts(s, cardId) && |s.openedIds| == 1
    requires CardWithId(s.cards, s.openedIds[0]).pairKey != CardWithId(s.cards, cardId).pairKey
    ensures var a := FirstIndex(Ids(s.cards), s.openedIds[0]).value;
            var k := FirstIndex(Ids(s.cards), cardId).value;
            var r := FlipStep(s, totalPairs, cardId);
            && r.session == s.(cards := s.cards[k := s.cards[k].(state := Visible)],
                               openedIds := s.openedIds + [cardId], moves := s.moves + 1, lock := true)
            && r.pending == Some(Pending(a, k, Opponent(s.currentPlayer)))
            && PendingFor(r.session, r.pending.value)
  {
    var k := FirstIndex(Ids(s.cards), cardId).value;
    IdsKeep(s.cards, k, Visible);
    var cards := s.cards[k := s.cards[k].(state := Visible)];
    FirstIndexOfDistinct(Ids(cards), k);
  }

  /** Exactly one move is counted per pair of accepted flips: on the second flip, never on the first or on an ignored one. */
  lemma FlipCountsMoves(s: Session, totalPairs: int, cardId: string)
    requires Inv(s, totalPairs)
    ensures FlipStep(s, totalPairs, cardId).session.moves
              == s.moves + (if Accepts(s, cardId) && |s.openedIds| == 1 then 1 else 0)
  {
    if Accepts(s, cardId) {
      if |s.openedIds| == 0 {
        FlipFirstCard(s, totalPairs, cardId);
      } else if CardWithId(s.cards, s.openedIds[0]).pairKey == CardWithId(s.cards, cardId).pairKey {
        FlipMatch(s, totalPairs, cardId);
      } else {
        FlipMismatch(s, totalPairs, cardId);
      }
    } else {
      FlipIgnoredExactly(s, totalPairs, cardId);
    }
  }

  /** The first flip of a pair keeps the invariant and the synchronisation. */
  lemma RevealFirstKeepsInv(s: Session, totalPairs: int, k: nat)
    requires Inv(s, totalPairs) && |s.openedIds| == 0 && k < |s.cards| && s.cards[k].state == Hidden
    ensures var r := s.(cards := s.cards[k := s.cards[k].(state := Visible)], openedIds := [s.cards[k].id]);
            Inv(r, totalPairs) && (Synced(s) ==> Synced(r))
  {
    var cards := s.cards[k := s.cards[k].(state := Visible)];
    IdsKeep(s.cards, k, Visible);
    MatchedCountSame(s.cards, cards);
    assert Ids(cards)[k] == s.cards[k].id;
  }

  /** The second flip of a matching pair keeps the invariant and the synchronisation. */
  lemma RevealMatchKeepsInv(s: Session, totalPairs: int, a: nat, k: nat)
    requires a < |s.cards| && k < |s.cards| && s.cards[k].state == Hidden
    requires Inv(s, totalPairs) && s.openedIds == [s.cards[a].id] && s.state == Playing
    requires s.cards[a].pairKey == s.cards[k].pairKey
    ensures Inv(ScoreMatch(s, totalPairs, a, k), totalPairs)
    ensures Synced(s) ==> Synced(ScoreMatch(s, totalPairs, a, k))
  {
    var marked := s.cards[a := s.cards[a].(state := Matched)];
    assert s.cards[a].state == Visible;
    MatchedCountMark(s.cards, a);
    MatchedCountMark(marked, k);
    IdsKeep(s.cards, a, Matched);
    IdsKeep(marked, k, Matched);
    var cards := marked[k := marked[k].(state := Matched)];
    MatchedCountBound(cards);
    if Synced(s) {
      forall j | 0 <= j < |s.cards| && s.cards[j].state == Visible
        ensures j == a
      {
        assert Ids(s.cards)[j] == Ids(s.cards)[a];
      }
    }
  }

  /** The second flip of a mismatching pair keeps the invariant and the synchronisation. */
  lemma RevealMismatchKeepsInv(s: Session, totalPairs: int, a: nat, k: nat)
    requires a < |s.cards| && k < |s.cards| && s.cards[k].state == Hidden
    requires Inv(s, totalPairs) && s.openedIds == [s.cards[a].id]
    requires s.cards[a].pairKey != s.cards[k].pairKey
    ensures var r := s.(cards := s.cards[k := s.cards[k].(state := Visible)],
                        openedIds := s.openedIds + [s.cards[k].id], moves := s.moves + 1, lock := true);
            Inv(r, totalPairs) && (Synced(s) ==> Synced(r))
  {
    var cards := s.cards[k := s.cards[k].(state := Visible)];
    IdsKeep(s.cards, k, Visible);
    MatchedCountSame(s.cards, cards);
    assert s.cards[a].state == Visible;
    FirstIndexOfDistinct(Ids(cards), a);
    FirstIndexOfDistinct(Ids(cards), k);
    assert Ids(cards)[k] == s.cards[k].id && Ids(cards)[a] == s.cards[a].id;
  }

  /** Every flip keeps the invariant and the synchronisation, and schedules only well-formed resolutions. */
  lemma FlipPreservesInv(s: Session, totalPairs: int, cardId: string)
    requires Inv(s, totalPairs)
    ensures var r := FlipStep(s, totalPairs, cardId);
            && Inv(r.session, totalPairs)
            && (Synced(s) ==> Synced(r.session))
            && (r.pending.Some? ==> PendingFor(r.session, r.pending.value))
  {
    if !Accepts(s, cardId) {
      FlipIgnoredExactly(s, totalPairs, cardId);
      return;
    }
    var k := FirstIndex(Ids(s.cards), cardId).value;
    if |s.openedIds| == 0 {
      FlipFirstCard(s, totalPairs, cardId);
      RevealFirstKeepsInv(s, totalPairs, k);
    } else {
      var a := FirstIndex(Ids(s.cards), s.openedIds[0]).value;
      assert s.openedIds == [s.cards[a].id];
      if s.cards[a].pairKey == s.cards[k].pairKey {
        FlipMatchStep(s, totalPairs, cardId);
        RevealMatchKeepsInv(s, totalPairs, a, k);
      } else {
        FlipMismatch(s, totalPairs, cardId);
        RevealMismatchKeepsInv(s, totalPairs, a, k);
      }
    }
  }

  /** Turning cards face down keeps every id where it was and matches no card. */
  lemma HideAtKeeps(cards: seq<CardData>, faceDown: set<nat>)
    requires forall k :: 0 <= k < |cards| && k in faceDown ==> cards[k].state != Matched
    ensures Ids(HideAt(cards, faceDown)) == Ids(cards)
    ensures MatchedCount(HideAt(cards, faceDown)) == MatchedCount(cards)
  {
    MatchedCountSame(cards, HideAt(cards, faceDown));
  }

  /**
   * A resolution keeps the invariant whenever the cards it turns face down are
   * not matched: it clears the revealed ids and the lock and leaves the deck,
   * counters and scores as they were (whichever player it hands the turn to).
   */
  lemma ResolvePreservesInv(s: Session, totalPairs: int, faceDown: set<nat>, nextPlayer: PlayerColor)
    requires Inv(s, totalPairs)
    requires forall k :: 0 <= k < |s.cards| && k in faceDown ==> s.cards[k].state != Matched
    ensures Inv(ResolveStep(s, faceDown, nextPlayer), totalPairs)
  {
    HideAtKeeps(s.cards, faceDown);
  }

  /**
   * The resolution a mismatching flip scheduled, run on the session the flip
   * left: both cards go face down, nothing stays revealed or locked, the turn
   * passes to the opponent, and the session is synchronised again.
   */
  lemma ResolvePendingSynced(s: Session, totalPairs: int, p: Pending)
    requires Inv(s, totalPairs) && Synced(s) && PendingFor(s, p)
    ensures var r := ResolveStep(s, {p.first, p.second}, p.nextPlayer);
            && Inv(r, totalPairs) && Synced(r)
            && r.cards[p.first].state == Hidden && r.cards[p.second].state == Hidden
            && (forall k :: 0 <= k < |s.cards| && k != p.first && k != p.second ==> r.cards[k] == s.cards[k])
            && r.currentPlayer == Opponent(s.currentPlayer) && r.openedIds == [] && !r.lock
            && r.score == s.score && r.matches == s.matches && r.moves == s.moves
  {
    ResolvePreservesInv(s, totalPairs, {p.first, p.second}, p.nextPlayer);
    forall k | 0 <= k < |s.cards| && s.cards[k].state == Visible
      ensures k == p.first || k == p.second
    {
      assert s.cards[k].id in s.openedIds;
      assert Ids(s.cards)[k] == Ids(s.cards)[p.first] || Ids(s.cards)[k] == Ids(s.cards)[p.second];
    }
  }

  /**
   * A resolution that arrives when one card of the current deck is revealed
   * (as a callback left over from before `newGame` does) clears the revealed id
   * but leaves that card face up: the session is no longer synchronised, and the
   * card can no longer be flipped.
   */
  lemma StaleResolutionDesyncs(s: Session, totalPairs: int, nextPlayer: PlayerColor, cardId: string)
    requires Inv(s, totalPairs) && |s.openedIds| == 1 && cardId == s.openedIds[0]
    ensures var r := ResolveStep(s, {}, nextPlayer);
            && Inv(r, totalPairs) && !Synced(r)
            && CardWithId(r.cards, cardId).state == Visible
            && !Accepts(r, cardId)
  {
    ResolvePreservesInv(s, totalPairs, {}, nextPlayer);
    var r := ResolveStep(s, {}, nextPlayer);
    assert r.cards == s.cards;
    var k := FirstIndex(Ids(s.cards), cardId).value;
    assert s.cards[k].id == cardId;
  }
}
