/**
  Shared definitions of the bot's header: the screen geometry, the wall test,
  and the table that maps each abstract NetHack action to the key that
  performs it.
 */
module NhBot {

  /** One byte of the screen buffer or of the keystroke stream (uint8_t). */
  newtype byte = x: int | 0 <= x < 256

  /** The byte value of an ASCII character literal. */
  function Chr(c: char): byte
    requires c as int < 256
  {
    c as int as byte
  }

  /** A C string literal as the bytes it holds (without the terminating NUL). */
  function Ascii(s: string): (b: seq<byte>)
    requires forall i :: 0 <= i < |s| ==> s[i] as int < 256
    ensures |b| == |s|
    ensures forall i :: 0 <= i < |s| ==> b[i] as int == s[i] as int
  {
    seq(|s|, i requires 0 <= i < |s| => s[i] as int as byte)
  }

  /** Terminal width and height, and the size of the pty read buffer. */
  const W: int := 80
  const H: int := 24
  const BUFLEN: int := (W * H) * 2

  lemma BufferSizes()
    ensures W * H == 1920
    ensures BUFLEN == 2 * W * H == 3840
  {
  }

  /** The `iswall` macro: a horizontal or vertical wall segment. */
  predicate IsWall(c: byte) {
    c == Chr('-') || c == Chr('|')
  }

  lemma WallGlyphs(c: byte)
    ensures IsWall(c) <==> c as int in {45, 124}
  {
  }

  /**
    The abstract actions. The first fifteen constructors are the enumerators
    of the C enum, in their order; `DoNothing` is the extra value the
    dispatcher tests for but the enum does not declare.
   */
  datatype Action =
    | North | East | South | West
    | NorthEast | SouthEast | SouthWest | NorthWest
    | Drop | Eat
    | Space | Dollar | AnswerY | AnswerN | AnswerQ
    | DoNothing

  /** Number of enumerators (`NetHackActionEnum_Count`). */
  const ACTION_COUNT: int := 15

  /** The enumerator's integer value. */
  function Ordinal(a: Action): (i: int)
    requires a != DoNothing
    ensures 0 <= i < ACTION_COUNT
  {
    match a
    case North => 0
    case East => 1
    case South => 2
    case West => 3
    case NorthEast => 4
    case SouthEast => 5
    case SouthWest => 6
    case NorthWest => 7
    case Drop => 8
    case Eat => 9
    case Space => 10
    case Dollar => 11
    case AnswerY => 12
    case AnswerN => 13
    case AnswerQ => 14
  }

  /** The enumerator with integer value `i`. */
  function FromOrdinal(i: int): (a: Action)
    requires 0 <= i < ACTION_COUNT
    ensures a != DoNothing
  {
    [North, East, South, West, NorthEast, SouthEast, SouthWest, NorthWest,
     Drop, Eat, Space, Dollar, AnswerY, AnswerN, AnswerQ][i]
  }

  lemma OrdinalRoundTrip(a: Action, i: int)
    ensures a != DoNothing ==> FromOrdinal(Ordinal(a)) == a
    ensures 0 <= i < ACTION_COUNT ==> Ordinal(FromOrdinal(i)) == i
  {
  }

  /** One row of the lookup table: the action and the key that performs it. */
  datatype ActionEntry = ActionEntry(id: Action, key: byte)

  /** `NetHackActionLookup`, row for row. */
  const ActionLookup: seq<ActionEntry> := [
    ActionEntry(North, 107),
    ActionEntry(East, 108),
    ActionEntry(South, 106),
    ActionEntry(West, 104),
    ActionEntry(NorthEast, 117),
    ActionEntry(SouthEast, 110),
    ActionEntry(SouthWest, 98),
    ActionEntry(NorthWest, 121),
    ActionEntry(Drop, Chr('D')),
    ActionEntry(Eat, 101),
    ActionEntry(Space, 32),
    ActionEntry(Dollar, 36),
    ActionEntry(AnswerY, Chr('y')),
    ActionEntry(AnswerN, Chr('n')),
    ActionEntry(AnswerQ, Chr('q'))
  ]

  /** The table has one row per enumerator and row `i` describes enumerator `i`. */
  lemma LookupIndexedByOrdinal()
    ensures |ActionLookup| == ACTION_COUNT
    ensures forall i :: 0 <= i < ACTION_COUNT ==>
              ActionLookup[i].id != DoNothing && Ordinal(ActionLookup[i].id) == i
  {
  }

  /**
    The key written for an action: `NetHackActionLookup[action].ActionChar`.
    Indexing by the enumerator's value finds the row whose id is the action,
    so the key is the one the table pairs with that action.
   */
  function ActionKey(a: Action): (k: byte)
    requires a != DoNothing
    ensures exists i :: 0 <= i < |ActionLookup| && ActionLookup[i] == ActionEntry(a, k)
  {
    ActionLookup[Ordinal(a)].key
  }

  /** The vi-style movement keys of the eight compass directions. */
  lemma MovementKeys()
    ensures ActionKey(North) == Chr('k') == 107
    ensures ActionKey(East) == Chr('l') == 108
    ensures ActionKey(South) == Chr('j') == 106
    ensures ActionKey(West) == Chr('h') == 104
    ensures ActionKey(NorthEast) == Chr('u')
    ensures ActionKey(SouthEast) == Chr('n')
    ensures ActionKey(SouthWest) == Chr('b')
    ensures ActionKey(NorthWest) == Chr('y')
  {
  }

  /** The command and text keys. */
  lemma CommandAndTextKeys()
    ensures ActionKey(Drop) == Chr('D')
    ensures ActionKey(Eat) == Chr('e') == 101
    ensures ActionKey(Space) == Chr(' ') == 32
    ensures ActionKey(Dollar) == Chr('$') == 36
    ensures ActionKey(AnswerY) == Chr('y')
    ensures ActionKey(AnswerN) == Chr('n')
    ensures ActionKey(AnswerQ) == Chr('q')
  {
  }

  predicate IsCompass(a: Action) {
    a in {North, East, South, West, NorthEast, SouthEast, SouthWest, NorthWest}
  }

  /** Different compass directions are sent as different keys. */
  lemma CompassKeysDistinct(a: Action, b: Action)
    requires IsCompass(a) && IsCompass(b)
    ensures ActionKey(a) == ActionKey(b) <==> a == b
  {
  }

  /**
    The table as a whole is not injective: two pairs of distinct actions share
    a key, and those are the only collisions.
   */
  lemma KeyCollisions(a: Action, b: Action)
    requires a != DoNothing && b != DoNothing && a != b
    ensures ActionKey(a) == ActionKey(b) <==>
              {a, b} == {NorthWest, AnswerY} || {a, b} == {SouthEast, AnswerN}
  {
  }
}
