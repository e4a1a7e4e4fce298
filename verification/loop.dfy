/**
  One pass of the main loop after the screen has been brought up to date:
  interpret the screen, answer naming prompts, and, when the player is on
  screen, train, move, and send at most one reactive action.
 */
module Loop {
  import opened NhBot
  import opened Rand
  import opened Screen
  import opened Interpret
  import opened QLearn
  import opened Dispatch

  /** The loop acts only when both player coordinates differ from -1. */
  predicate PlayerFound(snap: Snapshot) {
    snap.playerRow != -1 && snap.playerCol != -1
  }

  /** The `switch` on EXPLOIT's answer: 0..3 move N, E, S, W; anything else sends nothing. */
  function MovementAction(choice: int): (a: Action)
    ensures 0 <= choice < MAX_ACTIONS ==> a == FromOrdinal(choice) && IsCompass(a)
    ensures !(0 <= choice < MAX_ACTIONS) ==> a == DoNothing
  {
    if choice == 0 then North
    else if choice == 1 then East
    else if choice == 2 then South
    else if choice == 3 then West
    else DoNothing
  }

  /**
    Where a compass move takes the player on screen, as a row and column
    step: north is one row up, east one column right.
   */
  function Offset(a: Action): Pos
    requires IsCompass(a)
  {
    var dy := if a in {North, NorthEast, NorthWest} then -1
              else if a in {South, SouthEast, SouthWest} then 1
              else 0;
    var dx := if a in {East, NorthEast, SouthEast} then 1
              else if a in {West, NorthWest, SouthWest} then -1
              else 0;
    Pos(dy, dx)
  }

  /** The learner's move `choice` steps the virtual agent the way the action sent for it moves the player. */
  lemma MovementMatchesDirection(choice: int)
    requires 0 <= choice < MAX_ACTIONS
    ensures IsCompass(MovementAction(choice))
    ensures DIRS[choice] == Offset(MovementAction(choice))
  {
  }

  /** The `if / else if` chain after the move: the first condition that holds wins. */
  function ReactiveAction(snap: Snapshot): (a: Action)
    ensures a in {Space, AnswerN, Eat, Drop, DoNothing}
  {
    if snap.promptMore then Space
    else if snap.promptYn then AnswerN
    else if snap.hungry then Eat
    else if snap.burdened then Drop
    else DoNothing
  }

  /** Each reactive action is chosen exactly when its condition holds and no earlier one does. */
  lemma ReactivePriority(snap: Snapshot)
    ensures ReactiveAction(snap) == Space <==> snap.promptMore
    ensures ReactiveAction(snap) == AnswerN <==> !snap.promptMore && snap.promptYn
    ensures ReactiveAction(snap) == Eat <==> !snap.promptMore && !snap.promptYn && snap.hungry
    ensures ReactiveAction(snap) == Drop <==>
              !snap.promptMore && !snap.promptYn && !snap.hungry && snap.burdened
    ensures ReactiveAction(snap) == DoNothing <==>
              !snap.promptMore && !snap.promptYn && !snap.hungry && !snap.burdened
  {
  }

  /**
    What the decision block sends once EXPLOIT has answered `choice`: nothing
    without a player; otherwise the movement, then the one reactive action.
   */
  function DispatchCycle(snap: Snapshot, choice: int, rng: RandStream, k: nat): (p: Performed)
    ensures !PlayerFound(snap) ==> p.bytes == [] && p.next == k
    ensures PlayerFound(snap) ==>
              var m := PerformAction(MovementAction(choice), rng, k);
              |m.bytes| <= 1 &&
              p.bytes == m.bytes + PerformAction(ReactiveAction(snap), rng, m.next).bytes
    ensures |p.bytes| <= 4 && k <= p.next
  {
    if !PlayerFound(snap) then Performed([], 0, k)
    else
      var m := PerformAction(MovementAction(choice), rng, k);
      var r := PerformAction(ReactiveAction(snap), rng, m.next);
      Performed(m.bytes + r.bytes, r.status, r.next)
  }

  /** Hunger with no prompt on screen: the move, then `m`, `e` and possibly a food letter; no drop. */
  lemma HungryCycle(snap: Snapshot, choice: int, rng: RandStream, k: nat)
    requires PlayerFound(snap) && 0 <= choice < MAX_ACTIONS
    requires snap.hungry && !snap.promptMore && !snap.promptYn
    ensures var out := DispatchCycle(snap, choice, rng, k).bytes;
            && 3 <= |out| <= 4
            && out[0] == ActionKey(MovementAction(choice))
            && out[1..3] == [Chr('m'), Chr('e')]
            && Chr('D') !in out && Chr('A') !in out
  {
    ReactivePriority(snap);
    var m := PerformAction(MovementAction(choice), rng, k);
    var out := DispatchCycle(snap, choice, rng, k).bytes;
    assert |m.bytes| == 1;
    assert out[1..3] == PerformAction(Eat, rng, m.next).bytes[..2];
  }

  /** A yes/no prompt is answered with `n`, whatever hunger or burden says. */
  lemma YesNoCycle(snap: Snapshot, choice: int, rng: RandStream, k: nat)
    requires PlayerFound(snap) && snap.promptYn && !snap.promptMore
    ensures var out := DispatchCycle(snap, choice, rng, k).bytes;
            |out| >= 1 && out[|out| - 1] == Chr('n') &&
            out[..|out| - 1] == PerformAction(MovementAction(choice), rng, k).bytes
  {
    ReactivePriority(snap);
  }

  /**
    The decision block of the main loop: when the player is on screen, train
    from the player's cell, ask EXPLOIT at the cell where training left the
    agent, and dispatch. Nothing happens without a player.
   */
  method DecisionBlock(snap: Snapshot, q: QTable, env: seq<byte>, outside: int -> byte, rng: RandStream, k: nat)
    returns (out: Performed, q': QTable, choice: int)
    requires |env| == W * H && PlayerPositionValid(snap)
    ensures !PlayerFound(snap) ==> out.bytes == [] && q' == q && out.next == k
    ensures PlayerFound(snap) ==>
              var trained := TrainSteps(env, outside, rng,
                               TrainState(Learner(q, Pos(snap.playerRow, snap.playerCol)), k), MAX_EPOCHS);
              && q' == trained.learner.q
              && choice == Exploit(q'[Idx(trained.learner.agent)])
              && out == DispatchCycle(snap, choice, rng, trained.next)
    ensures TableConsistent(q) ==> TableConsistent(q')
    ensures k <= out.next
  {
    if !PlayerFound(snap) {
      return Performed([], 0, k), q, MAX_ACTIONS;
    }
    var agent := Pos(snap.playerRow, snap.playerCol);
    var trained := Train(env, outside, rng, TrainState(Learner(q, agent), k));
    q' := trained.learner.q;
    choice := Exploit(q'[Idx(trained.learner.agent)]);
    out := DispatchCycle(snap, choice, rng, trained.next);
  }

  /**
    The outcome of a pass with the player on screen, after the prompt answers
    `npc`: the table is the one 10000 epochs of training from the player's
    cell produce, and the bytes are the prompt answers followed by the move
    EXPLOIT picks at the trained agent's cell and the one reactive action.
   */
  predicate TrainedAndSent(snap: Snapshot, chars: seq<byte>, q: QTable, outside: int -> byte, rng: RandStream,
                           npc: Emitted, out: seq<byte>, q': QTable, k': nat)
    requires |chars| == W * H && PlayerFound(snap) && PlayerPositionValid(snap)
  {
    var trained := TrainSteps(chars, outside, rng,
                     TrainState(Learner(q, Pos(snap.playerRow, snap.playerCol)), npc.next), MAX_EPOCHS);
    var sent := DispatchCycle(snap, Exploit(trained.learner.q[Idx(trained.learner.agent)]), rng, trained.next);
    && q' == trained.learner.q
    && out == npc.bytes + sent.bytes
    && k' == sent.next
  }

  /**
    Everything after the screen has been read and the prompts answered with
    `npc`: the decision block runs on the characters, and whatever it sends
    follows the prompt answers.
   */
  method Respond(snap: Snapshot, chars: seq<byte>, q: QTable, outside: int -> byte, rng: RandStream, npc: Emitted)
    returns (out: seq<byte>, q': QTable, k': nat)
    requires |chars| == W * H && PlayerPositionValid(snap)
    ensures |npc.bytes| <= |out| && out[..|npc.bytes|] == npc.bytes
    ensures npc.next <= k'
    ensures !PlayerFound(snap) ==> out == npc.bytes && q' == q && k' == npc.next
    ensures PlayerFound(snap) ==> TrainedAndSent(snap, chars, q, outside, rng, npc, out, q', k')
    ensures TableConsistent(q) ==> TableConsistent(q')
  {
    var decided, choice;
    decided, q', choice := DecisionBlock(snap, q, chars, outside, rng, npc.next);
    out := npc.bytes + decided.bytes;
    assert out[..|npc.bytes|] == npc.bytes;
    k' := decided.next;
  }

  /** One pass of the loop on an up-to-date screen: read it, answer the prompts, then respond. */
  method Cycle(s: ScreenState, q: QTable, outside: int -> byte, rng: RandStream, k: nat)
    returns (out: seq<byte>, snap: Snapshot, q': QTable, k': nat)
    requires Valid(s) && StatsReadable(s.chars)
    ensures snap == Read(s) && PlayerPositionValid(snap)
    ensures var npc := NpcResponses(s.chars, rng, k);
            && |npc.bytes| <= |out|
            && out[..|npc.bytes|] == npc.bytes
            && npc.next <= k'
    ensures !PlayerFound(snap) ==> out == NpcResponses(s.chars, rng, k).bytes && q' == q
    ensures PlayerFound(snap) ==>
              TrainedAndSent(snap, s.chars, q, outside, rng, NpcResponses(s.chars, rng, k), out, q', k')
    ensures TableConsistent(q) ==> TableConsistent(q')
  {
    snap := Read(s);
    var npc := NpcResponses(s.chars, rng, k);
    out, q', k' := Respond(snap, s.chars, q, outside, rng, npc);
  }
}
