/**
  `screen_text_process`: reads the prompt and status flags, the bottom-line
  statistics and the player's position off the grid, and answers the naming
  and item-selection prompts directly.
 */
module Interpret {
  import opened NhBot
  import opened Rand
  import opened Screen
  import opened Search

  const MORE_TEXT: seq<byte> := Ascii("--More--")
  const YN_TEXT: seq<byte> := Ascii("[yn")
  const HUNGRY_TEXT: seq<byte> := Ascii("Hungry")
  const BURDENED_TEXT: seq<byte> := Ascii("Burdened")
  const STRESSED_TEXT: seq<byte> := Ascii("Stressed")
  const CALL_A_TEXT: seq<byte> := Ascii("Call a")
  const HELLO_STRANGER_TEXT: seq<byte> := Ascii("Hello stranger")
  const WHAT_DO_YOU_WANT_TEXT: seq<byte> := Ascii("What do you want")
  const YOU_ARE_REQUIRED_TEXT: seq<byte> := Ascii("You are required")

  /** A bottom-line label and the position guess passed along with it. */
  datatype StatLabel = StatLabel(text: seq<byte>, hstart: int)

  /** The thirteen labels, in the order the C code reads them. */
  const STAT_LABELS: seq<StatLabel> := [
    StatLabel(Ascii("St:"), (H - 1) * W + 1),
    StatLabel(Ascii("Dx:"), (H - 1) * W + 7),
    StatLabel(Ascii("Co:"), (H - 1) * W + 12),
    StatLabel(Ascii("In:"), (H - 1) * W + 18),
    StatLabel(Ascii("Wi:"), (H - 1) * W + 23),
    StatLabel(Ascii("Ch:"), (H - 1) * W + 29),
    StatLabel(Ascii("Dlvl:"), H * W + 0),
    StatLabel(Ascii("$:"), H * W + 6),
    StatLabel(Ascii("HP:"), H * W + 11),
    StatLabel(Ascii("Pw:"), H * W + 18),
    StatLabel(Ascii("Ac:"), H * W + 27),
    StatLabel(Ascii("Xp:"), H * W + 32),
    StatLabel(Ascii("T:"), H * W + 38)
  ]

  /** `NetHackBlStat`. */
  datatype Stats = Stats(
    St: nat, Dx: nat, Co: nat, In: nat, Wi: nat, Ch: nat,
    Dlvl: nat, Money: nat, HP: nat, Pw: nat, Ac: nat, Xp: nat, T: nat)

  /** The part of `NetHackState` that one pass over the screen recomputes. */
  datatype Snapshot = Snapshot(
    promptMore: bool, promptYn: bool, hungry: bool, burdened: bool,
    stats: Stats, playerRow: int, playerCol: int)

  /** Every label's digit scan fits the 32-byte buffer of the C code. */
  predicate StatsReadable(chars: seq<byte>) {
    |chars| == W * H &&
    forall k :: 0 <= k < |STAT_LABELS| ==> StatReadable(chars, STAT_LABELS[k].text)
  }

  function StatAt(chars: seq<byte>, k: int): nat
    requires StatsReadable(chars) && 0 <= k < |STAT_LABELS|
  {
    StatInt(STAT_LABELS[k].hstart, chars, STAT_LABELS[k].text)
  }

  /** The thirteen `screen_text_bl_int` calls. */
  function ReadStats(chars: seq<byte>): (st: Stats)
    requires StatsReadable(chars)
  {
    Stats(StatAt(chars, 0), StatAt(chars, 1), StatAt(chars, 2), StatAt(chars, 3),
          StatAt(chars, 4), StatAt(chars, 5), StatAt(chars, 6), StatAt(chars, 7),
          StatAt(chars, 8), StatAt(chars, 9), StatAt(chars, 10), StatAt(chars, 11),
          StatAt(chars, 12))
  }

  /** The player: an `@` whose colour has the bright bit. */
  predicate IsPlayerAt(s: ScreenState, r: int, c: int)
    requires Valid(s) && 0 <= r < H && 0 <= c < W
  {
    CharAt(s, r, c) == Chr('@') && IsBright(ColorAt(s, r, c))
  }

  predicate IsPlayerCell(s: ScreenState, i: int)
    requires Valid(s) && 0 <= i < W * H
  {
    s.chars[i] == Chr('@') && IsBright(s.colors[i])
  }

  /** No cell of the grid holds the player. */
  predicate NoPlayer(s: ScreenState)
    requires Valid(s)
  {
    forall r, c :: 0 <= r < H && 0 <= c < W ==> !IsPlayerAt(s, r, c)
  }

  /** (`row`, `col`) holds the player and no later cell in row-major order does. */
  predicate LastPlayerAt(s: ScreenState, row: int, col: int)
    requires Valid(s)
  {
    && 0 <= row < H && 0 <= col < W && IsPlayerAt(s, row, col)
    && forall r, c :: 0 <= r < H && 0 <= c < W && (r > row || (r == row && c > col)) ==>
         !IsPlayerAt(s, r, c)
  }

  /** The last player cell among the first `n` cells, or -1. */
  function LastPlayerBefore(s: ScreenState, n: int): (i: int)
    requires Valid(s) && 0 <= n <= W * H
    ensures -1 <= i < n
    ensures i != -1 ==> IsPlayerCell(s, i)
    ensures forall j :: i < j < n ==> !IsPlayerCell(s, j)
  {
    if n == 0 then -1
    else if IsPlayerCell(s, n - 1) then n - 1
    else LastPlayerBefore(s, n - 1)
  }

  /**
    The player scan: (-1, -1) when no cell holds the player, otherwise the row
    and column of the last such cell in row-major order (the scan keeps
    overwriting its answer).
   */
  function FindPlayer(s: ScreenState): (p: (int, int))
    requires Valid(s)
    ensures p == (-1, -1) <==> NoPlayer(s)
    ensures p != (-1, -1) ==> LastPlayerAt(s, p.0, p.1)
  {
    var i := LastPlayerBefore(s, W * H);
    if i == -1 then
      assert forall r, c :: 0 <= r < H && 0 <= c < W ==> !IsPlayerAt(s, r, c) by {
        forall r, c | 0 <= r < H && 0 <= c < W
          ensures !IsPlayerAt(s, r, c)
        {
          assert !IsPlayerCell(s, r * W + c);
        }
      }
      (-1, -1)
    else
      var row, col := i / W, i % W;
      assert i == row * W + col;
      assert IsPlayerAt(s, row, col);
      assert forall r, c :: 0 <= r < H && 0 <= c < W && (r > row || (r == row && c > col)) ==>
               !IsPlayerAt(s, r, c) by {
        forall r, c | 0 <= r < H && 0 <= c < W && (r > row || (r == row && c > col))
          ensures !IsPlayerAt(s, r, c)
        {
          assert r * W + c > i;
          assert !IsPlayerCell(s, r * W + c);
        }
      }
      (row, col)
  }

  /** The marker starts at one of the positions the search tests. */
  predicate OnScreen(chars: seq<byte>, marker: seq<byte>) {
    exists i :: 0 <= i < |chars| - |marker| && MatchAt(chars, marker, i)
  }

  /**
    The flags, statistics and player position of one pass over the screen.
    Each flag is raised exactly when its marker is on screen; burden is
    raised by either "Burdened" or "Stressed". The player is the last
    bright `@` in row-major order, or absent on both axes.
   */
  function Read(s: ScreenState): (snap: Snapshot)
    requires Valid(s) && StatsReadable(s.chars)
    ensures snap.promptMore <==> OnScreen(s.chars, MORE_TEXT)
    ensures snap.promptYn <==> OnScreen(s.chars, YN_TEXT)
    ensures snap.hungry <==> OnScreen(s.chars, HUNGRY_TEXT)
    ensures snap.burdened <==> OnScreen(s.chars, BURDENED_TEXT) || OnScreen(s.chars, STRESSED_TEXT)
    ensures snap.stats == ReadStats(s.chars)
    ensures PlayerPositionValid(snap)
    ensures snap.playerRow == -1 <==> NoPlayer(s)
    ensures snap.playerRow != -1 ==> LastPlayerAt(s, snap.playerRow, snap.playerCol)
  {
    var burdened := TextExists(s.chars, BURDENED_TEXT);
    var burdened := if !burdened then TextExists(s.chars, STRESSED_TEXT) else burdened;
    var player := FindPlayer(s);
    Snapshot(
      TextExists(s.chars, MORE_TEXT),
      TextExists(s.chars, YN_TEXT),
      TextExists(s.chars, HUNGRY_TEXT),
      burdened,
      ReadStats(s.chars),
      player.0, player.1)
  }

  /** A snapshot's player position is either absent on both axes or on the grid. */
  predicate PlayerPositionValid(snap: Snapshot) {
    (snap.playerRow == -1 && snap.playerCol == -1) ||
    (0 <= snap.playerRow < H && 0 <= snap.playerCol < W)
  }

  /** The prompt flag is raised exactly when "--More--" starts at a tested position. */
  lemma MoreFlagExact(s: ScreenState)
    requires Valid(s) && StatsReadable(s.chars)
    ensures Read(s).promptMore <==>
              exists i :: 0 <= i < W * H - 8 && MatchAt(s.chars, MORE_TEXT, i)
  {
  }

  /** "--More--" printed in the grid's last eight cells is not noticed. */
  lemma MoreAtGridEndMissed(s: ScreenState)
    requires Valid(s) && StatsReadable(s.chars)
    requires MatchAt(s.chars, MORE_TEXT, W * H - 8)
    requires forall i :: 0 <= i < W * H - 8 ==> !MatchAt(s.chars, MORE_TEXT, i)
    ensures !Read(s).promptMore
  {
    MoreFlagExact(s);
  }

  /** The alphabet of `random_string10`: the letters a to z, then the digits 1 to 9 and 0. */
  function Alphabet(): (a: seq<byte>)
    ensures |a| == 36
    ensures forall i :: 0 <= i < 36 ==> IsNameChar(a[i])
  {
    seq(26, i requires 0 <= i < 26 => (97 + i) as byte) +
    seq(10, i requires 0 <= i < 10 => (48 + (i + 1) % 10) as byte)
  }

  lemma AlphabetSpelled()
    ensures Alphabet() == Ascii("abcdefghijklmnopqrstuvwxyz1234567890")
  {
  }

  /** A lower-case letter or a digit. */
  predicate IsNameChar(b: byte) {
    (Chr('a') <= b <= Chr('z')) || IsDigit(b)
  }

  /** `random_string10`: ten characters, each the alphabet entry at `rand() % 36`. */
  function RandomName(rng: RandStream, k: nat): (name: seq<byte>)
    ensures |name| == 10
    ensures forall i :: 0 <= i < 10 ==> IsNameChar(name[i])
  {
    var alphabet := Alphabet();
    var name := seq(10, i requires 0 <= i < 10 => alphabet[rng(k + i) % |alphabet|]);
    assert forall i :: 0 <= i < 10 ==> IsNameChar(name[i]) by {
      forall i | 0 <= i < 10
        ensures IsNameChar(name[i])
      {
        assert name[i] == alphabet[rng(k + i) % 36];
      }
    }
    name
  }

  /** Where a name character sits in the alphabet. */
  function AlphabetIndex(b: byte): (i: nat)
    requires IsNameChar(b)
    ensures i < |Alphabet()| && Alphabet()[i] == b
  {
    if Chr('a') <= b <= Chr('z') then (b - Chr('a')) as int
    else if b == Chr('0') then 35
    else 26 + (b - Chr('1')) as int
  }

  /** The draw that makes `RandomName` pick `name[i]`. */
  function DrawFor(name: seq<byte>, i: nat): RandValue {
    if i < |name| && IsNameChar(name[i]) then AlphabetIndex(name[i]) else 0
  }

  /** Every ten-character name over the alphabet can be produced. */
  lemma RandomNameReachesAll(name: seq<byte>)
    requires |name| == 10 && forall i :: 0 <= i < 10 ==> IsNameChar(name[i])
    ensures RandomName(i => DrawFor(name, i), 0) == name
  {
    var out := RandomName(i => DrawFor(name, i), 0);
    forall i | 0 <= i < 10
      ensures out[i] == name[i]
    {
      assert DrawFor(name, i) == AlphabetIndex(name[i]);
    }
  }

  /** Bytes written to the game and how many draws were consumed. */
  datatype Emitted = Emitted(bytes: seq<byte>, next: nat)

  const NEWLINE: byte := 10

  /** Only name characters and line breaks. */
  predicate NameBytes(bs: seq<byte>) {
    forall i :: 0 <= i < |bs| ==> IsNameChar(bs[i]) || bs[i] == NEWLINE
  }

  /** The answer to one naming prompt, when its marker is on screen. */
  function NameIfPresent(chars: seq<byte>, marker: seq<byte>, rng: RandStream, k: nat): (e: Emitted)
    ensures TextExists(chars, marker) ==>
              |e.bytes| == 11 && e.bytes[10] == NEWLINE && e.next == k + 10
    ensures !TextExists(chars, marker) ==> e.bytes == [] && e.next == k
    ensures NameBytes(e.bytes)
  {
    if TextExists(chars, marker) then Emitted(RandomName(rng, k) + [NEWLINE], k + 10) else Emitted([], k)
  }

  function Count(b: bool): nat {
    if b then 1 else 0
  }

  /** How many of the three naming prompts are on screen. */
  function NamingPromptCount(chars: seq<byte>): nat {
    Count(TextExists(chars, CALL_A_TEXT)) + Count(TextExists(chars, HELLO_STRANGER_TEXT))
    + Count(TextExists(chars, YOU_ARE_REQUIRED_TEXT))
  }

  /** The answers to the three naming prompts, in the order the C code checks them. */
  function NamePrompts(chars: seq<byte>, rng: RandStream, k: nat): (e: Emitted)
    ensures e.next == k + 10 * NamingPromptCount(chars)
    ensures |e.bytes| == 11 * NamingPromptCount(chars)
    ensures NameBytes(e.bytes)
  {
    var a := NameIfPresent(chars, CALL_A_TEXT, rng, k);
    var b := NameIfPresent(chars, HELLO_STRANGER_TEXT, rng, a.next);
    var c := NameIfPresent(chars, YOU_ARE_REQUIRED_TEXT, rng, b.next);
    assert NameBytes(a.bytes + b.bytes);
    Emitted(a.bytes + b.bytes + c.bytes, c.next)
  }

  /**
    The direct answers: a fresh random name and a line break for each naming
    prompt on screen, then a space and a line break to cancel an item selection.
   */
  function NpcResponses(chars: seq<byte>, rng: RandStream, k: nat): (e: Emitted)
    ensures e.next == k + 10 * NamingPromptCount(chars)
    ensures |e.bytes| == 11 * NamingPromptCount(chars) + 2 * Count(TextExists(chars, WHAT_DO_YOU_WANT_TEXT))
    ensures TextExists(chars, WHAT_DO_YOU_WANT_TEXT) ==>
              e.bytes[|e.bytes| - 2..] == [Chr(' '), NEWLINE] && NameBytes(e.bytes[..|e.bytes| - 2])
    ensures !TextExists(chars, WHAT_DO_YOU_WANT_TEXT) ==> NameBytes(e.bytes)
  {
    var names := NamePrompts(chars, rng, k);
    if TextExists(chars, WHAT_DO_YOU_WANT_TEXT) then
      assert (names.bytes + [Chr(' '), NEWLINE])[..|names.bytes|] == names.bytes;
      Emitted(names.bytes + [Chr(' '), NEWLINE], names.next)
    else
      names
  }
}
