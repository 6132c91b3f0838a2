/**
 * The game settings store: the two validators, the normalisation that turns
 * whatever is stored under the settings key into well-formed settings, and the
 * field-wise merge that writes settings back.
 *
 * Browser storage and JSON are abstracted: the slot holds the value that
 * `JSON.parse` produced (or says why there is none), and writing stores the
 * value that `JSON.stringify` would have serialised.
 */
module GameSettingsStore {

  import opened Optional

  datatype PlayerColor = Blue | Red

  /** The board sizes the game offers. */
  type BoardSize = n: int | n == 16 || n == 24 || n == 32 witness 16

  datatype GameSettings = GameSettings(boardSize: BoardSize, startingPlayer: PlayerColor)

  /** The settings used whenever nothing usable is stored. */
  const DefaultSettings: GameSettings := GameSettings(16, Blue)

  /** The JSON text of a player colour. */
  function ColorName(p: PlayerColor): string {
    match p
    case Blue => "blue"
    case Red => "red"
  }

  /** A value as `JSON.parse` produces it (numbers are JavaScript numbers, kept exact). */
  datatype JsonValue =
    | JNull
    | JBool(b: bool)
    | JNumber(n: real)
    | JString(s: string)
    | JArray(items: seq<JsonValue>)
    | JObject(fields: map<string, JsonValue>)

  /** What reading a property yields in JavaScript: `undefined`, or a value. */
  datatype Field = Undefined | Defined(value: JsonValue)

  /**
   * The storage slot as seen through `getItem` and `JSON.parse`: nothing stored
   * (or the empty string), an item that could not be read or parsed (the read
   * throws), or the parsed value.
   */
  datatype Stored = Absent | Unreadable | Parsed(json: JsonValue)

  /** A settings update whose fields may be missing or hold anything at run time. */
  datatype PartialSettings = PartialSettings(boardSize: Field, startingPlayer: Field)

  /**
   * Property access `v.key` on a parsed value: `None` when it throws (the value
   * is `null`); own properties of an object; `undefined` on everything else.
   */
  function Property(v: JsonValue, key: string): (r: Option<Field>)
    ensures r.None? <==> v == JNull
    ensures v.JObject? && key in v.fields ==> r == Some(Defined(v.fields[key]))
    ensures r.Some? && r.value.Defined? ==> v.JObject? && key in v.fields
  {
    match v
    case JNull => None
    case JObject(fields) => if key in fields then Some(Defined(fields[key])) else Some(Undefined)
    case _ => Some(Undefined)
  }

  /** The field that holds exactly the given board size. */
  function BoardSizeField(b: BoardSize): Field {
    Defined(JNumber(b as real))
  }

  /** The field that holds exactly the given player colour. */
  function ColorField(p: PlayerColor): Field {
    Defined(JString(ColorName(p)))
  }

  /** `isBoardSize`: strict equality with one of the numbers 16, 24 and 32. */
  predicate IsBoardSize(f: Field): (b: bool)
    ensures b <==> exists n: BoardSize :: f == BoardSizeField(n)
  {
    if f == Defined(JNumber(16.0)) then assert f == BoardSizeField(16); true
    else if f == Defined(JNumber(24.0)) then assert f == BoardSizeField(24); true
    else if f == Defined(JNumber(32.0)) then assert f == BoardSizeField(32); true
    else false
  }

  /** `isPlayerColor`: strict equality with one of the strings "blue" and "red". */
  predicate IsPlayerColor(f: Field): (b: bool)
    ensures b <==> exists p: PlayerColor :: f == ColorField(p)
  {
    if f == Defined(JString("blue")) then assert f == ColorField(Blue); true
    else if f == Defined(JString("red")) then assert f == ColorField(Red); true
    else false
  }

  /** The board size a field holds once `isBoardSize` has narrowed its type. */
  function BoardSizeOf(f: Field): (b: BoardSize)
    requires IsBoardSize(f)
    ensures BoardSizeField(b) == f
  {
    f.value.n.Floor
  }

  /** The player colour a field holds once `isPlayerColor` has narrowed its type. */
  function PlayerColorOf(f: Field): (p: PlayerColor)
    requires IsPlayerColor(f)
    ensures ColorField(p) == f
  {
    if f.value.s == "blue" then Blue else Red
  }

  /** Every board size passes the validator, and narrowing gives it back. */
  lemma BoardSizeFieldRoundTrip(b: BoardSize)
    ensures IsBoardSize(BoardSizeField(b)) && BoardSizeOf(BoardSizeField(b)) == b
  {
  }

  /** Every player colour passes the validator, and narrowing gives it back. */
  lemma ColorFieldRoundTrip(p: PlayerColor)
    ensures IsPlayerColor(ColorField(p)) && PlayerColorOf(ColorField(p)) == p
  {
  }

  /** The nullish coalescing `a ?? b`: `b` exactly when `a` is `null` or `undefined`. */
  function Coalesce(a: Field, b: Field): Field {
    if a == Undefined || a == Defined(JNull) then b else a
  }

  /**
   * `getGameSettings`. `hasWindow` is false when the code runs outside a browser.
   * A missing, unreadable or `null` item gives the defaults; otherwise an invalid
   * board size becomes 16, the starting player is read from `startingPlayer`,
   * falling back to the legacy `playerColor` only when `startingPlayer` is
   * `null` or missing, and an invalid colour becomes blue.
   */
  function GetGameSettings(hasWindow: bool, stored: Stored): (r: GameSettings)
    ensures !hasWindow || stored.Absent? || stored.Unreadable? || stored == Parsed(JNull) ==> r == DefaultSettings
    ensures hasWindow && stored.Parsed? && !stored.json.JObject? ==> r == DefaultSettings
  {
    if !hasWindow then DefaultSettings
    else
      match stored
      case Absent => DefaultSettings
      case Unreadable => DefaultSettings
      case Parsed(v) =>
        match Property(v, "boardSize")
        case None => DefaultSettings
        case Some(size) =>
          var boardSize := if IsBoardSize(size) then BoardSizeOf(size) else 16;
          var startingRaw := Coalesce(Property(v, "startingPlayer").value, Property(v, "playerColor").value);
          var startingPlayer := if IsPlayerColor(startingRaw) then PlayerColorOf(startingRaw) else Blue;
          GameSettings(boardSize, startingPlayer)
  }

  /** The board size is the stored one when that one is valid, and 16 otherwise. */
  lemma BoardSizeNormalised(v: JsonValue)
    requires v != JNull
    ensures var stored := Property(v, "boardSize").value;
            GetGameSettings(true, Parsed(v)).boardSize == if IsBoardSize(stored) then BoardSizeOf(stored) else 16
  {
  }

  /**
   * The starting player: a valid `startingPlayer` wins; a `startingPlayer` that is
   * `null` or missing defers to a valid legacy `playerColor`; in every other case
   * (including an invalid, non-null `startingPlayer` beside a valid `playerColor`)
   * the player is blue.
   */
  lemma StartingPlayerRule(v: JsonValue)
    requires v != JNull
    ensures var sp := Property(v, "startingPlayer").value;
            var legacy := Property(v, "playerColor").value;
            var p := GetGameSettings(true, Parsed(v)).startingPlayer;
            && (IsPlayerColor(sp) ==> p == PlayerColorOf(sp))
            && ((sp == Undefined || sp == Defined(JNull)) && IsPlayerColor(legacy) ==> p == PlayerColorOf(legacy))
            && ((sp == Undefined || sp == Defined(JNull)) && !IsPlayerColor(legacy) ==> p == Blue)
            && (sp != Undefined && sp != Defined(JNull) && !IsPlayerColor(sp) ==> p == Blue)
  {
  }

  /** The JSON value `JSON.stringify` writes for settings, as `JSON.parse` reads it back. */
  function Encode(s: GameSettings): (v: JsonValue)
    ensures v.JObject? && v.fields.Keys == {"boardSize", "startingPlayer"}
    ensures Property(v, "boardSize") == Some(BoardSizeField(s.boardSize))
    ensures Property(v, "startingPlayer") == Some(ColorField(s.startingPlayer))
  {
    JObject(map["boardSize" := JNumber(s.boardSize as real), "startingPlayer" := JString(ColorName(s.startingPlayer))])
  }

  /** The merge of `setGameSettings`: each field of `next` that is valid replaces the current one. */
  function Merge(current: GameSettings, next: PartialSettings): (r: GameSettings)
    ensures IsBoardSize(next.boardSize) ==> BoardSizeField(r.boardSize) == next.boardSize
    ensures !IsBoardSize(next.boardSize) ==> r.boardSize == current.boardSize
    ensures IsPlayerColor(next.startingPlayer) ==> ColorField(r.startingPlayer) == next.startingPlayer
    ensures !IsPlayerColor(next.startingPlayer) ==> r.startingPlayer == current.startingPlayer
  {
    GameSettings(
      if IsBoardSize(next.boardSize) then BoardSizeOf(next.boardSize) else current.boardSize,
      if IsPlayerColor(next.startingPlayer) then PlayerColorOf(next.startingPlayer) else current.startingPlayer)
  }

  /**
   * `setGameSettings`: the new content of the slot. Outside a browser nothing is
   * written; otherwise the merge of the current settings with `next` is stored.
   */
  function SetGameSettings(hasWindow: bool, next: PartialSettings, stored: Stored): (r: Stored)
    ensures !hasWindow ==> r == stored
    ensures hasWindow ==> r.Parsed? && r.json.JObject? && r.json.fields.Keys == {"boardSize", "startingPlayer"}
  {
    if !hasWindow then stored
    else Parsed(Encode(Merge(GetGameSettings(true, stored), next)))
  }

  /** Reading back what was written gives exactly the settings that were written. */
  lemma EncodeRoundTrip(s: GameSettings)
    ensures GetGameSettings(true, Parsed(Encode(s))) == s
  {
    BoardSizeFieldRoundTrip(s.boardSize);
    ColorFieldRoundTrip(s.startingPlayer);
  }

  /** With one storage slot, reading after a write returns the merged settings. */
  lemma SetThenGet(next: PartialSettings, stored: Stored)
    ensures GetGameSettings(true, SetGameSettings(true, next, stored)) == Merge(GetGameSettings(true, stored), next)
  {
    EncodeRoundTrip(Merge(GetGameSettings(true, stored), next));
  }

  /** A write whose fields are all invalid stores the normalised current settings and changes nothing observable. */
  lemma EmptyUpdateKeepsSettings(next: PartialSettings, stored: Stored)
    requires !IsBoardSize(next.boardSize) && !IsPlayerColor(next.startingPlayer)
    ensures GetGameSettings(true, SetGameSettings(true, next, stored)) == GetGameSettings(true, stored)
  {
    SetThenGet(next, stored);
  }

  /** Writing the same update twice is the same as writing it once. */
  lemma SetIdempotent(next: PartialSettings, stored: Stored)
    ensures SetGameSettings(true, next, SetGameSettings(true, next, stored)) == SetGameSettings(true, next, stored)
  {
    SetThenGet(next, stored);
  }
}
