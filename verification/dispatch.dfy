/**
  Turning an abstract action into keystrokes: `action_prologue`, the action's
  key from the lookup table, and `action_epilogue`. Every write is modelled
  as appending bytes; write failures are not modelled.
 */
module Dispatch {
  import opened NhBot
  import opened Rand

  /** The keys written, the status `nhbot_perform_action` returns, and the cursor into the random stream. */
  datatype Performed = Performed(bytes: seq<byte>, status: int, next: nat)

  /** `action_prologue`: eating first opens the menu with `m`. */
  function Prologue(a: Action): (bs: seq<byte>)
    ensures |bs| <= 1
    ensures bs != [] <==> a == Eat
    ensures bs != [] ==> bs[0] == Chr('m')
  {
    if a == Eat then [Chr('m')] else []
  }

  /** The inventory letter the eat epilogue picks for a `randrange(0, 6)` outcome; 3, 5 and 6 pick none. */
  function EatSlot(outcome: int): (bs: seq<byte>)
    requires 0 <= outcome <= 6
    ensures |bs| <= 1
    ensures bs == [] <==> outcome in {3, 5, 6}
  {
    if outcome == 0 then [Chr('f')]
    else if outcome == 1 then [Chr('g')]
    else if outcome == 2 then [Chr('h')]
    else if outcome == 4 then [Chr('j')]
    else []
  }

  /** `action_epilogue`: a random food letter after eating, "A" and a line break after dropping. */
  function Epilogue(a: Action, v: RandValue): (bs: seq<byte>)
    ensures a == Eat ==> |bs| <= 1 && (bs == [] <==> v % 7 in {3, 5, 6})
    ensures a == Drop ==> bs == [Chr('A'), 10]
    ensures a !in {Eat, Drop} ==> bs == []
  {
    if a == Eat then EatSlot(RandRange(0, 6, v))
    else if a == Drop then [Chr('A'), 10]
    else []
  }

  /**
    `nhbot_perform_action`: nothing for `DoNothing`; otherwise prologue, the
    action's key, epilogue. Only `DoNothing` returns 0: the success path never
    resets the status from -1. Eating consumes one draw.
   */
  function PerformAction(a: Action, rng: RandStream, k: nat): (p: Performed)
    ensures a == DoNothing ==> p.bytes == [] && p.status == 0 && p.next == k
    ensures a != DoNothing ==> p.status == -1
    ensures a == Eat ==>
              && p.next == k + 1
              && 2 <= |p.bytes| <= 3
              && p.bytes[..2] == [Chr('m'), Chr('e')]
              && (|p.bytes| == 3 <==> rng(k) % 7 in {0, 1, 2, 4})
              && (|p.bytes| == 3 ==> p.bytes[2] in {Chr('f'), Chr('g'), Chr('h'), Chr('j')})
    ensures a == Eat && rng(k) % 7 == 0 ==> p.bytes == [Chr('m'), Chr('e'), Chr('f')]
    ensures a == Eat && rng(k) % 7 == 1 ==> p.bytes == [Chr('m'), Chr('e'), Chr('g')]
    ensures a == Eat && rng(k) % 7 == 2 ==> p.bytes == [Chr('m'), Chr('e'), Chr('h')]
    ensures a == Eat && rng(k) % 7 == 4 ==> p.bytes == [Chr('m'), Chr('e'), Chr('j')]
    ensures a == Eat && rng(k) % 7 in {3, 5, 6} ==> p.bytes == [Chr('m'), Chr('e')]
    ensures a == Drop ==> p.bytes == [Chr('D'), Chr('A'), 10] && p.next == k
    ensures a !in {Eat, Drop, DoNothing} ==> p.bytes == [ActionKey(a)] && p.next == k
  {
    if a == DoNothing then Performed([], 0, k)
    else
      var next := if a == Eat then k + 1 else k;
      Performed(Prologue(a) + [ActionKey(a)] + Epilogue(a, rng(k)), -1, next)
  }

  /** The compass direction a key moves in, or `DoNothing` for any other key. */
  function CompassOfKey(b: byte): (a: Action)
    ensures a == DoNothing || (IsCompass(a) && ActionKey(a) == b)
  {
    if b == Chr('k') then North
    else if b == Chr('l') then East
    else if b == Chr('j') then South
    else if b == Chr('h') then West
    else if b == Chr('u') then NorthEast
    else if b == Chr('n') then SouthEast
    else if b == Chr('b') then SouthWest
    else if b == Chr('y') then NorthWest
    else DoNothing
  }

  /** A movement is sent as one key, and that key names the movement again. */
  lemma MovementRoundTrip(a: Action, rng: RandStream, k: nat)
    requires IsCompass(a)
    ensures |PerformAction(a, rng, k).bytes| == 1
    ensures CompassOfKey(PerformAction(a, rng, k).bytes[0]) == a
  {
  }

  /** The eat epilogue picks an item for exactly four of the seven outcomes. */
  lemma EatSlotOutcomes()
    ensures |set o | 0 <= o <= 6 && EatSlot(o) != []| == 4
  {
    assert (set o | 0 <= o <= 6 && EatSlot(o) != []) == {0, 1, 2, 4};
  }
}
