/**
 * The card types the engine works on and the per-card flags the board view
 * derives from them. The HTML the template builds is not modelled: a board
 * view is the column count and one record of flags per card.
 */
module BoardTemplate {

  import opened Optional
  import opened GameSettingsStore

  datatype CardState = Hidden | Visible | Matched

  /** The value of a card at one moment. */
  datatype CardData = CardData(
    id: string,
    pairKey: string,
    iconUrl: string,
    state: CardState,
    matchedBy: Option<PlayerColor>)

  /**
   * A card as the engine holds it: an object whose `state` (and, in principle,
   * `matchedBy`) is updated in place. Identity, pair key and icon are fixed once
   * the card is built.
   */
  class MemoryCard {
    const id: string
    const pairKey: string
    const iconUrl: string
    var state: CardState
    var matchedBy: Option<PlayerColor>

    constructor (id: string, pairKey: string, iconUrl: string, state: CardState, matchedBy: Option<PlayerColor>)
      ensures Data() == CardData(id, pairKey, iconUrl, state, matchedBy)
    {
      this.id := id;
      this.pairKey := pairKey;
      this.iconUrl := iconUrl;
      this.state := state;
      this.matchedBy := matchedBy;
    }

    /** The current value of this card. */
    function Data(): (d: CardData)
      reads this
    {
      CardData(id, pairKey, iconUrl, state, matchedBy)
    }
  }

  /** The rendering of one card: the attributes the template derives from it. */
  datatype CardView = CardView(
    id: string,
    pairKey: string,
    iconUrl: string,
    isFlipped: bool,
    isMatched: bool,
    matchedBy: string)

  /** The rendered board: the grid's column count and the cards in order. */
  datatype BoardView = BoardView(cols: int, items: seq<CardView>)

  /** `getBoardCols`: the number of grid columns for a board size. */
  function GetBoardCols(boardSize: int): (cols: int)
    ensures cols in {4, 6, 8}
    ensures cols == 4 <==> boardSize == 16
    ensures cols == 6 <==> boardSize == 24
  {
    if boardSize == 16 then 4
    else if boardSize == 24 then 6
    else 8
  }

  /**
   * The flags of one card: it is shown flipped when it is visible or matched,
   * marked matched when it is matched, and carries a `matchedBy` attribute only
   * when it is matched and has an owner.
   */
  function ViewOf(c: CardData): (v: CardView)
    ensures v.id == c.id && v.pairKey == c.pairKey && v.iconUrl == c.iconUrl
    ensures v.isFlipped <==> c.state != Hidden
    ensures v.isMatched <==> c.state == Matched
    ensures v.isMatched ==> v.isFlipped
    ensures v.matchedBy != "" <==> c.state == Matched && c.matchedBy.Some?
    ensures v.matchedBy != "" ==> v.matchedBy == ColorName(c.matchedBy.value)
  {
    var isFlipped := c.state == Visible || c.state == Matched;
    var isMatched := c.state == Matched;
    var matchedBy := if isMatched && c.matchedBy.Some? then ColorName(c.matchedBy.value) else "";
    CardView(c.id, c.pairKey, c.iconUrl, isFlipped, isMatched, matchedBy)
  }

  /** The `map` over the cards: one item per card, in card order. */
  function Items(cards: seq<CardData>): (items: seq<CardView>)
    ensures |items| == |cards|
    ensures forall k :: 0 <= k < |cards| ==> items[k] == ViewOf(cards[k])
  {
    if cards == [] then [] else [ViewOf(cards[0])] + Items(cards[1..])
  }

  /** `boardTemplate`, without the markup: the column count for the board and the cards' items in order. */
  function Template(cards: seq<CardData>, boardSize: int): (v: BoardView)
    ensures v.cols == GetBoardCols(boardSize) && |v.items| == |cards|
    ensures forall k :: 0 <= k < |cards| ==> v.items[k] == ViewOf(cards[k])
  {
    BoardView(GetBoardCols(boardSize), Items(cards))
  }

  /** When no card has an owner, no rendered card carries a `matchedBy` attribute. */
  lemma NoOwnerNoAttribute(cards: seq<CardData>, boardSize: int)
    requires forall k :: 0 <= k < |cards| ==> cards[k].matchedBy == None
    ensures forall item :: item in Template(cards, boardSize).items ==> item.matchedBy == ""
  {
    var items := Template(cards, boardSize).items;
    forall item | item in items
      ensures item.matchedBy == ""
    {
      var k :| 0 <= k < |items| && items[k] == item;
      assert item == ViewOf(cards[k]);
    }
  }
}
