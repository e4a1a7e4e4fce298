# nhbot in Dafny

nhbot is a bot that plays NetHack. It runs the game on a pseudo-terminal and
feeds the game's output through a terminal emulator, which keeps an 80x24 grid
of characters and colours. On every pass of its loop the bot reads that grid.
It raises prompt and status flags, reads the bottom-line statistics, and
locates the player (a bright `@`). It answers naming prompts with random
names. When the player is on screen, it trains a tabular Q-learner on the
grid, moves one step in the direction the learner prefers, and sends at most
one reactive key: a space for `--More--`, `n` for a yes/no question, the eat
sequence when hungry, or the drop sequence when burdened.

The modules follow that structure:

- `NhBot`: the header. It holds the grid size, `iswall`, the action enum and
  the action-to-key lookup table.
- `Rand`: the C library's `rand()`, modelled as an injected stream of values
  plus a cursor. It also holds the three ways the bot turns a draw into a
  choice: `getRand`, `randrange` and `% 36`.
- `Screen`: colour folding (`tmt_char_color`), the dirty-row update, the
  cursor update, and the clearing of dirty marks.
- `Search`: `screen_text_exists`, `screen_text_find`, and the digit scan with
  its `atoi` in `screen_text_bl_int`.
- `Interpret`: `screen_text_process`. It covers the flags, the statistics,
  the player scan, `random_string10` and the direct answers to prompts.
- `QLearn`: `qlearn.h`. It covers rewards, the cached maximum, EXPLOIT and
  EXPLORE, the update rule, and the 10000-epoch training pass.
- `Dispatch`: `action_prologue`, `action_epilogue` and `nhbot_perform_action`.
- `Loop`: the decision block of the main loop, and one whole pass after the
  screen is up to date.

Behaviours of the code worth knowing:

- `getReward` treats `.` (floor) as the only obstacle (-1), as the
  "Obstacle" comment at qlearn.h:65 says, and pays 1 for `$`, `+`, blank and
  `#`. Walls score 0, so the learner avoids the floor it walks on and does
  not avoid walls.
- Both searches stop one position early. An occurrence that ends exactly at
  the end of the grid is never found, but an earlier occurrence of the same
  text still is.
- The player scan keeps the last bright `@`, not the first.
- EXPLOIT is asked at the cell where training left the virtual agent, not at
  the player's cell.
- `nhbot_perform_action` returns -1 on every path except `DoNothing`, because
  its success path never resets the status.

Q values are exact reals. The stream of `rand()` values and the memory just
outside the environment array are parameters.

## Model

| member | source | states |
|---|---|---|
| `NhBot.BufferSizes` | nhbot.h:12-15 | The grid is 80 by 24 (1920 cells) and the pty read buffer is twice that size. |
| `NhBot.WallGlyphs` | nhbot.h:11 | `iswall` holds for exactly the two bytes 45 (hyphen) and 124 (vertical bar). |
| `NhBot.OrdinalRoundTrip` | nhbot.h:42-61 | Enumerator values 0..14 and the fifteen actions correspond one to one, in declaration order. |
| `NhBot.LookupIndexedByOrdinal` | nhbot.h:117-133 | The lookup table has one row per enumerator, and row `i` describes enumerator `i`, so indexing it by an action's value finds that action's row. |
| `NhBot.ActionKey` | main.c:459 | The key sent for an action comes from the table row whose id is that action. |
| `NhBot.MovementKeys` | nhbot.h:118-125 | The eight compass moves are sent as the vi keys `k l j h u n b y`. |
| `NhBot.CommandAndTextKeys` | nhbot.h:126-132 | Drop, eat, space, dollar, y, n and q are sent as `D e`, space, `$ y n q`. |
| `NhBot.CompassKeysDistinct` | nhbot.h:118-125 | Two compass moves share a key exactly when they are the same move. |
| `NhBot.KeyCollisions` | nhbot.h:117-133 | Over the whole table, two different actions share a key exactly when they are {north-west, answer y} or {south-east, answer n}. |
| `Rand.GetRand` | qlearn.h:37 | For every `n` whose product with `RAND_MAX` is below 2^53, `getRand(n)` lies in `0..n-1`, and the draw falls in the `1/n` slice of the `rand()` range that belongs to that answer. |
| `Rand.GetRandReachesAll` | qlearn.h:37 | Every answer `a` in `0..n-1` of `getRand(n)` is produced by a draw, the smallest one in `a`'s slice. |
| `Rand.RandRange` | main.c:51-54 | `randrange(lower, upper)` lies in `lower..upper` and is congruent to the draw modulo the range's width. |
| `Screen.CharColor` | main.c:75-94 | An out-of-range foreground yields the sentinel bright red (10); every in-range cell yields a colour below 32. |
| `Screen.OrBrightIsBitwiseOr` | main.c:83-85 | Adding the bright bit by arithmetic agrees with the bitwise or with 8 that the C code uses. |
| `Screen.ColorRoundTrip` | main.c:75-91 | Decoding an in-range cell's colour byte recovers its intended base colour, brightness and reverse video: default reads as black, bright unless blank, and bold sets the bright bit. |
| `Screen.SentinelClass` | main.c:80-93 | An out-of-range foreground always decodes as bright red without reverse video. |
| `Screen.RowColumnOfIndex` | main.c:100-101 | Flat index `r * 80 + c` lies in the grid and recovers row `r` and column `c`. |
| `Screen.ApplyUpdate` | main.c:119-127 | Every cell of every dirty row gets the emulator's byte (`c & 0xff`) and derived colour; every cell of a clean row and the cursor keep their values. |
| `Screen.UpdateIdempotent` | main.c:119-127 | Applying the same update notification twice gives the same grid as applying it once. |
| `Screen.Clean` | main.c:130 | Clearing the marks leaves every line's characters and no line dirty. |
| `Screen.CleanUpdateIsIdentity` | main.c:119-130 | After the marks are cleared, a repeated update notification leaves the grid unchanged. |
| `Screen.MoveCursor` | main.c:115-118 | The cursor notification records the new row and column and leaves both grids unchanged. |
| `Search.ScanFrom` | main.c:144-149 | The search loop returns the first matching start at or after `i` and before `hlen - nlen`, or -1 when none of those starts match. |
| `Search.TextExists` | main.c:138-150 | `screen_text_exists` holds exactly when the needle fits and matches at some start below `hlen - nlen`. |
| `Search.TextFind` | main.c:153-165 | `screen_text_find` gives the first matching start below `hlen - nlen`, -1 when there is none, and 0 (`false`) for a needle longer than the haystack. |
| `Search.FindAgreesWithExists` | main.c:138-165 | The two searches agree on whether a fitting needle is present; for an over-long needle, exists says no and find says 0. |
| `Search.SuffixOccurrenceMissed` | main.c:144 | A needle that occurs only as the haystack's suffix is reported absent by both searches. |
| `Search.FindFirstMatch` | main.c:159-163 | A match at `p` with no match at any earlier start is the position `screen_text_find` reports. |
| `Search.DigitRun` | main.c:191 | The scan stops at the first non-digit: every byte it passes is a digit, and the byte after it is not (or the grid ends). |
| `Search.DigitRunOfDigits` | main.c:191 | A run of `k` digits followed by a non-digit or the grid's end has scan length exactly `k`. |
| `Search.DigitsFrom` | main.c:190-192 | The bytes copied into `buf` are all digits, and there are as many as the scan passed. |
| `Search.RunOfStoredDigits` | main.c:190-192 | A digit string stored in the grid and followed by a non-digit or the grid's end is exactly what the scan copies, and the scan passes exactly its length. |
| `Search.DecimalValue` | main.c:193 | `atoi` of a digit string is below 10 to the power of its length. With no leading zero it has exactly that many digits. |
| `Search.DecimalRoundTrip` | main.c:192-193 | `atoi` of a number's printed digits gives the number back. |
| `Search.StatStart` | main.c:187-190 | The digit scan starts inside the grid, both when the label is found and when it is not. |
| `Search.StatInt` | main.c:182-194 | `screen_text_bl_int` reads a value with no more decimal digits than the run of digits it scanned. What a given label reads as is stated by `Search.StatOfPresentLabel`, `Search.StatWithoutDigits` and `Search.StatOfAbsentLabel`. |
| `Search.StatIntOfDigits` | main.c:190-193 | When the scan starts at a stored digit string followed by a non-digit, the value read is that string's `atoi` value. |
| `Search.StatOfPresentLabel` | main.c:182-194 | A label whose first occurrence is followed by the printed value `n` reads as `n`, whatever position guess is passed. |
| `Search.StatWithoutDigits` | main.c:182-194 | A label followed directly by a non-digit reads as 0. |
| `Search.StatOfAbsentLabel` | main.c:187-193 | A missing label does not read as 0: the scan starts at `nlen - 1` and parses whatever digit sits there. |
| `Interpret.LastPlayerBefore` | main.c:373-379 | Among the first `n` cells, this is the last bright `@`, or -1 when there is none. |
| `Interpret.FindPlayer` | main.c:371-379 | The player position is (-1, -1) exactly when no cell holds a bright `@`; otherwise it is the last such cell in row-major order. |
| `Interpret.Read` | main.c:229-379 | Each of the More, yes/no and Hungry flags is raised exactly when its marker starts at a tested position. Burdened is raised exactly when `Burdened` or `Stressed` does. The player is on the grid or absent on both axes. When present, the cell holds a bright `@` and no later cell in row-major order does. When absent, no cell does. |
| `Interpret.MoreFlagExact` | main.c:229-232 | The `--More--` flag is raised exactly when the marker starts at one of the first 1912 cells. |
| `Interpret.MoreAtGridEndMissed` | main.c:229-232 | `--More--` in the grid's last eight cells goes unnoticed. |
| `Interpret.Alphabet` | main.c:170-173 | The name alphabet has 36 entries, all lower-case letters or digits. |
| `Interpret.AlphabetSpelled` | main.c:170 | The alphabet is `a..z` followed by `1234567890`. |
| `Interpret.RandomName` | main.c:168-179 | `random_string10` yields ten characters, each a lower-case letter or a digit. |
| `Interpret.RandomNameReachesAll` | main.c:168-179 | Every ten-character name over the alphabet is produced by some ten draws. |
| `Interpret.NameIfPresent` | main.c:259-266 | A naming prompt on screen is answered with ten name characters and a line break, using ten draws; without the prompt nothing is sent. |
| `Interpret.NamePrompts` | main.c:259-282 | Each naming prompt on screen uses ten draws and adds eleven bytes, and every byte sent is a name character or a line break. |
| `Interpret.NpcResponses` | main.c:259-288 | The direct answers use ten draws and eleven bytes per naming prompt present. `What do you want` adds a trailing space and line break. Everything else is name characters and line breaks. |
| `QLearn.Reward` | qlearn.h:60-76 | The reward is -1 exactly for floor (`.`), 1 exactly for `$`, `+`, blank and `#`, and 0 otherwise. |
| `QLearn.WallsAreNeutral` | qlearn.h:60-76 | Wall glyphs carry reward 0, so the learner does not treat them as obstacles. |
| `QLearn.MaxQUnique` | qlearn.h:81-94 | The cached maximum (the larger of 0 and the four move values) is uniquely determined by the values. |
| `QLearn.RunningMax` | qlearn.h:85-91 | After `n` iterations the running maximum is at least 0, bounds the first `n` values, and is 0 or one of them. |
| `QLearn.CalculateMaxQ` | qlearn.h:81-94 | Recomputing the cache leaves the move values alone and makes the cache their maximum with 0. |
| `QLearn.InitialTable` | qlearn.h:50 | The zero-initialised table is consistent: every cached maximum is correct. |
| `QLearn.FirstAtMax` | qlearn.h:118-125 | From move `a` on, the scan stops at the first value equal to the cache, or at 4 when none is. |
| `QLearn.Exploit` | qlearn.h:116-126 | EXPLOIT returns the first move, in N E S W order, whose value equals the cache, or 4 when none does. |
| `QLearn.ExploitNoMoveIffAllNegative` | qlearn.h:111-139 | On a consistent cell EXPLOIT returns 4 (no move) exactly when all four values are negative. |
| `QLearn.ExploitTieBreak` | qlearn.h:116-126 | Four equal non-negative values give N; four equal negative values give no move. |
| `QLearn.LegalMove` | qlearn.h:99-106 | A move is legal exactly when the byte at the destination's unchecked flat index is not floor. |
| `QLearn.LegalMoveInGrid` | qlearn.h:99-106 | Inside the grid, a move is legal exactly when its destination is not floor. |
| `QLearn.LegalMoveWrapsWest` | qlearn.h:99-106 | A step west from column 0 tests the last cell of the row above, because the flat index wraps. |
| `QLearn.DrawIsGetRand` | qlearn.h:131 | The move EXPLORE takes from a draw, its top two bits, is `getRand(4)` of that draw. |
| `QLearn.ExploreFrom` | qlearn.h:130-135 | Drawing from cursor `k` up to cursor `last`, the result is the first legal draw, or the draw at `last` when none is legal. Every earlier draw was illegal. |
| `QLearn.Explore` | qlearn.h:128-138 | EXPLORE returns the first legal draw of at most 100, or the 100th draw when none is legal. Every draw before the answer was illegal. |
| `QLearn.UpdateAgent` | qlearn.h:144-172 | A move off the grid changes nothing. Otherwise only the chosen value at the starting cell moves 70% toward reward plus 0.4 times the destination's cache. The starting cell's cache is recomputed and the agent steps to the destination. Consistency is preserved. |
| `QLearn.UpdateTowardTarget` | qlearn.h:158-160 | The updated value lies strictly between the old value and the target, unless the two already agree. |
| `QLearn.Epoch` | qlearn.h:176-183 | One epoch keeps the agent on the grid, consumes at least one draw, and preserves consistency. |
| `QLearn.TrainSteps` | qlearn.h:174-184 | `n` epochs keep the agent on the grid, consume at least `n` draws, and preserve consistency. |
| `QLearn.Train` | qlearn.h:174-184 | `nhbot_qlearn` runs exactly 10000 epochs, leaves the agent on the grid, and keeps a consistent table consistent. |
| `Dispatch.Prologue` | main.c:396-407 | The prologue sends `m` before eating and nothing before any other action. |
| `Dispatch.Epilogue` | main.c:409-442 | After eating, the epilogue sends at most one letter, and none exactly when the draw modulo 7 is 3, 5 or 6. After dropping it sends `A` and a line break. After any other action it sends nothing. |
| `Dispatch.PerformAction` | main.c:397-467 | `DoNothing` sends nothing and returns 0. Every other action returns -1. Eat consumes one draw and sends `m e` plus a food letter chosen by the draw modulo 7: 0 gives `f`, 1 `g`, 2 `h`, 4 `j`, and 3, 5 or 6 give none. Drop sends `D A` and a line break. Every other action sends its one key. |
| `Dispatch.CompassOfKey` | nhbot.h:118-125 | A key maps back to the compass move it performs, or to no move. |
| `Dispatch.MovementRoundTrip` | main.c:445-467 | A compass move is sent as a single key, and that key maps back to the same move. |
| `Dispatch.EatSlotOutcomes` | main.c:415-431 | Exactly four of the seven epilogue outcomes pick an inventory letter. |
| `Loop.MovementAction` | main.c:528-541 | EXPLOIT answers 0..3 map to N, E, S, W (the enum's first four values); any other answer sends no move. |
| `Loop.MovementMatchesDirection` | main.c:528-541 | The learner's direction `dir[c]` equals the screen offset of the compass move sent for EXPLOIT's answer `c` (north is one row up, east one column right). |
| `Loop.ReactiveAction` | main.c:543-554 | The reactive step sends a space, `n`, the eat sequence, the drop sequence, or nothing. |
| `Loop.ReactivePriority` | main.c:543-554 | Each reactive action is chosen exactly when its condition holds and no earlier condition does. Otherwise nothing is sent. |
| `Loop.DispatchCycle` | main.c:528-554 | Without a player nothing is sent. Otherwise at most one movement key is sent, then one reactive action, at most four bytes in all. |
| `Loop.HungryCycle` | main.c:543-551 | Hungry with no prompt sends the move, then `m e` and possibly a food letter, and never the drop keys. |
| `Loop.YesNoCycle` | main.c:546-548 | A yes/no prompt is answered with `n` after the move, whatever hunger or burden say. |
| `Loop.DecisionBlock` | main.c:521-555 | With the player on screen: train from the player's cell, ask EXPLOIT at the trained agent's cell, and dispatch. Without a player: nothing is sent and the table is unchanged. Consistency is preserved. |
| `Loop.Respond` | main.c:521-555 | The direct prompt answers come first, and the random cursor only moves forward. Without a player only they are sent. With a player, the table is the result of 10000 training epochs from the player's cell. The bytes that follow are the move EXPLOIT picks at the trained agent's cell and then the one reactive action. |
| `Loop.Cycle` | main.c:518-555 | One pass reads the screen and places the player on the grid or nowhere. Prompt answers come first. Without a player, only they are sent and the table is unchanged. With a player, the table is the result of 10000 training epochs from the player's cell, and the answers are followed by the move EXPLOIT picks at the trained agent's cell and then the one reactive action. |

## Left out

- Process and terminal handling is not modelled: the pty, `fork`, `exec`, the environment, signal handling, `select`, `read`, `kill`, `usleep`, and copying the screen to standard output. The terminal emulator's own parsing (`tmt_write`) is also left out. Its output arrives as `TmtLine` values.
- Failed writes are not modelled. Every `nhbot_write` is treated as appending its bytes to the output, so the error paths of `check` that follow a failed write do not arise.
- The two stray writes after the update loop (main.c:128-129) are not modelled. After a dirty row, `r` is 24 and `c` is 80, so the writes go to flat index 2000. `ScreenChar[2000]` is byte 80 of `ScreenColor` in the `NetHackState` layout (nhbot.h:91-92). So after every update with a dirty row, the colour of row 1, column 0 becomes 0, and an `@` there is never taken for the player. `ScreenColor[2000]` lands after the colour grid, in the bytes of the unused `QMap5x5` field. When no row is dirty, `c` is uninitialised. The model keeps row 1, column 0's colour as the emulator reports it.
- `nhbot_make_qmap` copies the grid onto itself, and `nhbot_qlearn_set_env` copies it into the learner's environment. The model passes the grid's characters as the environment directly.
- `nhbot_action` also stores the action's table row in the bot's state. Nothing in the modelled code reads that field back, so it is not modelled.
- `QMap5x5`, the `NetHackColor` enum and `getSRand` are declared but never used in the modelled code.
- `Search.StatInt`: `atoi`'s behaviour on runs too long for `int` is not modelled, and values are unbounded naturals. The model requires each digit run to be shorter than the 32-byte buffer. A run of exactly 32 digits fills the buffer and leaves no terminating NUL for `atoi`, and a longer run overflows it.
- `Search.DigitRun`: when the scan reaches the end of the grid, it stops there. In the program the next byte is the first colour byte, which is always below 32 and so never a digit.
- `Interpret.ReadStats` carries no contract of its own, and `Interpret.Read` states the statistics only as what `ReadStats` computes. What a single statistic reads as is stated by `Search.StatOfPresentLabel`, `Search.StatWithoutDigits` and `Search.StatOfAbsentLabel`.
- `QLearn.UpdateAgent`: Q values are exact reals. The rounding of `double` arithmetic in the update rule is not modelled.
- `Rand.GetRand`: the model requires `n * RAND_MAX` below 2^53. Within that bound, the `double` product is exact and the division by 2^31 only shifts the exponent, so the truncation equals integer division. The program passes only 4.
- `QLearn.LegalMove`: a step off the top or bottom row reads memory outside the environment array. The model reads that memory through a caller-supplied function instead of modelling the process's memory layout.
- `ChooseAgentAction` with a selection other than EXPLOIT or EXPLORE returns an uninitialised value. The program never calls it that way, so the model has no such case.
- What the game does in response to the keys is not modelled. The model covers only the bytes the bot sends and the bot's own state.
