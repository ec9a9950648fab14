# STM Shell command state machines, in Dafny

This project models the application-side core of the STM Shell demo: the file
`shell_pfs.c`. That file defines the commands a user can run from the shell,
and the three constant tables that arrange them into a menu tree.

The shell calls the active command function once per tick, for as long as
`shell_state.command_fp` points at it. None of the command functions blocks.
Each keeps its place in `static` locals (a resume `state` and its own
counters), does one small step per call, and talks to the shell only through
these shared fields:
- the output buffer `shell_state.output`;
- `shell_fp`, set to `shell_state_output` to have the buffer sent;
- `shell_state.command_fp`, cleared to end the command;
- the transport's `busy` flag;
- the input line;
- the LED pin.

The `STATE_MACHINE` / `STATE` / `RETURN` macros (shell_pfs.c:40-48) turn a
`switch` into a resumable state machine. `STATE` opens with `break`, so a call
runs exactly one state. `RETURN` resets `state` to 0, routes the shell to its
output state and clears `command_fp`.

How the model is organised:
- `Shell` (shell.dfy) holds the shared fields.
  - The class `ShellState` keeps them as mutable fields. It also keeps two
    ghost logs: every level written to the LED and every message written to
    the buffer.
  - An `Effect` describes what one call does to those fields. `Apply` and
    `ApplyAll` give the fields after one call and after a sequence of calls.
  - `Iterate` (calls without input) and `Feed` (calls that each read an
    input) give the statics and the trace after a number of calls.
- Each command is modelled twice:
  - as a pure step function on a datatype of its statics (`CntStep`,
    `LoadStep`, `FlashStep`), about which the lemmas are proved;
  - as a class whose fields are those statics, with a `Step` method that
    mirrors the C body line by line. `Step` is proved to do exactly what the
    step function says.
- An `Activation` method in each class calls the command once per tick
  until it clears `command_fp`. This is how the shell drives a command.
  - The Cnt and Load activations call `Step`. The Load activation loops
    inside the helper method `Drive`, and also stops when its sequence of
    busy flags runs out.
  - The Flash activation converts the line once and then calls `Advance`
    in a loop, inside the helper method `Drive`.
  - Each postcondition states what the whole activation did.
- `Scan` (scan.dfy) models `sscanf (input, "flash %i", &arg)`. The `%i`
  directive reads an integer the way `strtol` does with base 0 (section
  7.21.6.2 of ISO/IEC 9899:2011): leading white space, an optional sign, and
  a `0x` prefix for hexadecimal or a leading `0` for octal.
- `Registry` (registry.dfy) models the block tables (shell_pfs.c:260-285).
  - Each raw row has a label, one pointer slot that holds a function or a
    `BLOCK_LEN` count, and a child-block pointer.
  - Each row is decoded into a tagged entry: `Title(count)`, `Runnable(cmd)`
    or `Submenu(child)`.
  - `CheckBlock` is the model's decision procedure for well-formedness. It
    accepts exactly the well-formed blocks. The firmware has no such check
    and uses the tables as they are written.
  - The constants `Level2Rows`, `Level1Rows` and `RootRows` transcribe
    `level_2_block`, `level_1_block` and `root_block` (shell_pfs.c:260-285).
    Constants carry no contract, so their content is stated by the lemmas
    `TablesWellFormed`, `ChildLinks` and `RegisteredCommands`.
  - The three declared tables are well formed, and their submenu links form
    a tree with no cycle.

## Model

| member | source | states |
|---|---|---|
| CntCommand.CntStep | shell_pfs.c:92-105 | One call writes a message exactly in state 0 and ends the command exactly in state 1, where it leaves `state` at 0 and the count one higher. It never writes the LED. |
| CntCommand.CntActivation | shell_pfs.c:92-105 | One activation of command_cnt takes two calls. It writes "Called c times" with the count so far and has it sent, ends the command on the second call and not before, writes no LED level, and leaves the count one higher with `state` back at 0. |
| CntCommand.CntRun | shell_pfs.c:96-104 | 2k calls from state 0 are k activations, with the count k higher at the end. |
| CntCommand.CntTraceWrites | shell_pfs.c:98 | k activations write the reports c, c+1, ..., c+k-1, in that order. |
| CntCommand.CntTraceLeds | shell_pfs.c:92-105 | command_cnt never writes the LED. |
| CntCommand.CntTraceEnds | shell_pfs.c:101-103 | Over k activations the command is ended exactly on the odd-numbered calls. |
| CntCommand.CntActivations | shell_pfs.c:92-105 | k activations in a row: the counter ends k higher, the reports count up from c in order, and each activation ends on its own second call. |
| CntCommand.ReportsCons | shell_pfs.c:98 | The reports from c are report c followed by the reports from c+1. |
| CntCommand.CntCommand.Step | shell_pfs.c:92-105 | One call of the C body changes the statics and the shared fields exactly as `CntStep` says. The input and the busy flag are untouched. |
| CntCommand.CntCommand.Activation | shell_pfs.c:92-105 | Calling until the command ends takes 2 calls. The buffer holds, and the log gains, exactly "Called c times". The count goes up by one; the LED, the input line and the busy flag are untouched. |
| LedToggleCommand.ToggleOnce | shell_pfs.c:111-120 | The effect of one call (`ToggleEffect`) inverts the pin, logs the new level, routes to the output state and ends the command, leaving buffer and sent messages unchanged. |
| LedToggleCommand.ToggleTwice | shell_pfs.c:111-120 | Toggling twice restores the pin, after writing the opposite level and then the original one. |
| LedToggleCommand.CommandLedToggle | shell_pfs.c:111-120 | A single call inverts the pin and logs the new level. It routes to the output state and ends the command. Buffer and sent messages are unchanged. |
| LoadCommand.CDiv | shell_pfs.c:138 | C division by a positive divisor truncates toward zero: the quotient is bounded from the appropriate side for each sign of the dividend. |
| LoadCommand.SumBelowClosedForm | shell_pfs.c:153-154 | 0 + 1 + ... + (n-1) is n(n-1)/2. |
| LoadCommand.SpinsAdd | shell_pfs.c:153-154 | The 10000 iterations of the time-wasting loop add 49995000 times `cnt` to `accu`. |
| LoadCommand.LoadCommand.WasteTime | shell_pfs.c:153-154 | The `for` loop, as a loop with invariants, adds `cnt * 49995000` to `accu`. |
| LoadCommand.LoadStep | shell_pfs.c:130-157 | One call writes a message exactly in state 1, and ends the command exactly in state 2 with 500 values printed, resetting `state` and `cnt` to 0. It never writes the LED. |
| LoadCommand.LoadStepLeavesLed | shell_pfs.c:123-159 | command_load never writes the LED. |
| LoadCommand.LoadStepKeepsInv | shell_pfs.c:130-157 | Between calls the statics stay in range: states 0 and 1 with fewer than 500 prints, state 2 with 1 to 500. The call that ends the command comes at cnt == 500 and resets `state` and `cnt` to 0. |
| LoadCommand.LoadPollsBusy | shell_pfs.c:132-141 | While the flag is set, a waiting command changes nothing at all. Only a clear flag moves it to state 1, and only state 1 writes the buffer. |
| LoadCommand.LoadWritesOnlyAfterIdle | shell_pfs.c:132-141 | For any sequence of busy flags, every write to the buffer comes on the call right after a call that saw the flag clear. |
| LoadCommand.LoadCountsUp | shell_pfs.c:136-149 | Within one activation the printed counters are consecutive, starting from `cnt`. If the last call ends the command, exactly enough values were printed to reach 500 and the statics are back at 0. |
| LoadCommand.CountsFromCons | shell_pfs.c:138 | A print of c in front of prints counting up from c+1 counts up from c. |
| LoadCommand.LoadIdleRun | shell_pfs.c:130-157 | With the transport never busy, 3(500 - c) calls print 500 - c values and end the command on the last call with the statics reset. |
| LoadCommand.LoadIdleActivation | shell_pfs.c:123-159 | A whole activation with the transport never busy takes 1500 calls and prints 0, 1, ..., 499 in order. It ends at its last call and at no other, with `state` and `cnt` back at 0. |
| LoadCommand.LoadActivationPrints | shell_pfs.c:123-159 | For any busy flags, an activation prints 0, 1, ... in order: at most 500 while it runs, and exactly 500, with its statics reset, once it has ended. |
| LoadCommand.LoadOutcome | shell_pfs.c:123-159 | The same, stated on the shared fields: earlier messages are kept, then the new values count up from 0, at most 500 while the command is active and exactly 500 once it has ended. |
| LoadCommand.LoadIdleStops | shell_pfs.c:130-157 | A driver that stops at the first ending call, or when its flags run out, stops after exactly 1500 calls with the command ended when the first 1500 flags are clear. |
| LoadCommand.LoadCommand.Step | shell_pfs.c:130-157 | One call of the C body, with the busy flag as input, does exactly what `LoadStep` says. |
| LoadCommand.LoadCommand.Activation | shell_pfs.c:123-159 | Calling once per tick with the given busy flags: the statics and the shared fields are those `LoadStep` gives over the flags used. The LED and the input line are untouched, and earlier messages are kept. The new values count up from 0: at most 500 while the command is active, and exactly 500, with the statics reset, once it has ended. With the first 1500 flags clear, the command ends after exactly 1500 calls. |
| Scan.DecimalValue | shell_pfs.c:229 | The digits of n read back in base 10 give n. |
| Scan.DigitRunStopsAt | shell_pfs.c:229 | The digit run of a numeral followed by a non-digit is the numeral. |
| Scan.MagnitudeOfDecimal | shell_pfs.c:229 | An unsigned numeral followed by nothing or white space converts to its value. Zero goes through the octal branch of `%i`. |
| Scan.SubjectMinus | shell_pfs.c:229 | A minus sign negates the magnitude that follows it. |
| Scan.ScanIntSigned | shell_pfs.c:229 | Any integer, printed and followed by nothing or white space, is read back by `%i` as itself. |
| Scan.ScanFlash | shell_pfs.c:229 | A conversion succeeds only on a line that opens with the literal "flash". |
| Scan.ScanFlashSigned | shell_pfs.c:229 | The line "flash N" converts to exactly N, for every integer N. |
| Scan.ScanFlashRejects | shell_pfs.c:229 | A line that does not open with "flash", or has only white space after it, converts nothing. |
| Scan.ScanFlashTail | shell_pfs.c:229 | After the literal "flash", the rest of the line is one `%i` conversion. |
| Scan.ScanFlashWord | shell_pfs.c:229 | "flash abc" converts nothing. |
| Scan.ScanFlashHex | shell_pfs.c:229 | "flash 0x1F" converts to 31. |
| Scan.ScanFlashOctal | shell_pfs.c:229 | "flash 010" converts to 8. |
| FlashCommand.FlashStep | shell_pfs.c:228-249 | One call never writes a message. It writes the LED exactly in states 1 (on) and 3 (off), and ends the command exactly in state 6, resetting `state` to 0. |
| FlashCommand.AlternatingLevels | shell_pfs.c:231-247 | The LED levels of n flashes are on, off, on, off, ...: index i is on exactly when i is even. |
| FlashCommand.DelayPhase | shell_pfs.c:235-237 | The delay state holds for d - 1 calls and moves on at the d-th, with nothing else changed. |
| FlashCommand.FlashCycle | shell_pfs.c:231-247 | One flash takes 2d + 3 calls: on, d delay calls, off, d delay calls, and the count. It ends in state 6 after the last flash and in state 1 otherwise. |
| FlashCommand.FlashCycles | shell_pfs.c:231-247 | n flashes from state 1 take n(2d + 3) calls and end in state 6 with `arg` at 0. |
| FlashCommand.RepeatLeds | shell_pfs.c:232-239 | Repeated flashes write their LED levels in order. |
| FlashCommand.ValidTraceEffects | shell_pfs.c:228-249 | The calls of a valid run write on/off n times each, write no message, and end the command at the return and nowhere else. |
| FlashCommand.FlashValid | shell_pfs.c:228-249 | A line converting to N > 0 takes N(2·max_delay + 3) + 2 calls. It writes on, off, ... N times each and writes no message. It ends at its last call with every static back at 0. |
| FlashCommand.FirmwareFlash | shell_pfs.c:224 | With the firmware's `max_delay` of 10000000, "flash N" for N > 0 takes N·20000003 + 2 calls, writes on, off, ... N times each and no message, and ends at its last call with the statics at 0. |
| FlashCommand.FlashInvalid | shell_pfs.c:228-230 | A line converting nothing, or a number that is not positive, takes two calls (parse, return) and writes nothing. `arg` keeps its old value when nothing converts and takes the converted value otherwise. |
| FlashCommand.FlashOutcome | shell_pfs.c:220-251 | The shared fields after a whole activation, in both cases above: routed to the output state, command ended, buffer and sent messages unchanged, and the LED log extended by the flashes. |
| FlashCommand.FlashCommand.Advance | shell_pfs.c:228-249 | One call of the C body, given what `sscanf` returns, does exactly what `FlashStep` says. |
| FlashCommand.FlashCommand.Step | shell_pfs.c:227-250 | One call reading the input line: `Advance` given `ScanFlash` of the line. |
| FlashCommand.FlashCommand.Activation | shell_pfs.c:220-251 | Calling until the command ends: for "flash N" with N > 0, N(2·max_delay + 3) + 2 calls, the LED log gains N alternating on/off pairs, and the statics are reset. Otherwise 2 calls, no LED write, and the `arg` rule above. `delay` keeps its old value. No message is sent, and the input line and the buffer are untouched. |
| Shell.ShellState.Write | shell_pfs.c:98 | Writing the buffer replaces it with the message and appends the message to the sent log; nothing else changes. |
| Shell.ShellState.Route | shell_pfs.c:99 | `shell_fp = shell_state_output` sets the route to the output state and changes nothing else. |
| Shell.ShellState.Return | shell_pfs.c:46 | The shell part of `RETURN` routes to the output state and clears `command_fp`, and changes nothing else. |
| Shell.ShellState.WriteLed | shell_pfs.c:53 | `LED(a)` sets the pin to the level and appends it to the LED log; nothing else changes. |
| Shell.ShellState.ToggleLed | shell_pfs.c:113 | Toggling the pin inverts it and appends the new level to the LED log; nothing else changes. |
| Shell.IterateTick | shell_pfs.c:40-48 | For a run that ends at its last call, one more call moves the statics and the shared fields by that call's effect. The command is still active exactly while calls remain. |
| Registry.DecodeEncode | shell_pfs.c:260-285 | Encoding an entry as a C row and decoding it gives the entry back. |
| Registry.EncodeDecode | shell_pfs.c:260-285 | A meaningful row is the encoding of what it decodes to. |
| Registry.DecodeRowsFails | shell_pfs.c:260-285 | A table fails to decode exactly when one of its rows is a meaningless combination of slots. |
| Registry.CheckBlockMeans | shell_pfs.c:260-285 | `CheckBlock` returns a block exactly when the rows decode to it and the block is well formed: its first entry is a title counting the entries after it, and no other entry is a title. |
| Registry.CheckEncoded | shell_pfs.c:260-285 | A well-formed block written as a table is accepted by `CheckBlock` and given back. |
| Registry.RowSlots | shell_pfs.c:272-280 | Submenu rows carry a null function and a child block; runnable and title rows carry no child block. |
| Registry.TablesWellFormed | shell_pfs.c:260-285 | level_2_block, level_1_block and root_block are accepted by `CheckBlock`, with titles counting 2, 3 and 5 entries. |
| Registry.ChildLinks | shell_pfs.c:272-280 | The only submenu links are root to level 1 and level 1 to level 2. |
| Registry.PathDepth | shell_pfs.c:260-285 | Each step down a submenu link goes exactly one level deeper. |
| Registry.Acyclic | shell_pfs.c:260-285 | No walk along submenu links comes back to the block it started from. |
| Registry.RegisteredCommands | shell_pfs.c:260-285 | Each of the four commands has a row in root_block, and the only commands in level_1_block and level_2_block are command_load. |
| Registry.RootReachesAll | shell_pfs.c:272-280 | The root reaches level 1, and level 1 reaches level 2. |

## Left out

- The shell driver is not part of this model. That covers resolving a line
  against a block, the navigation stack, `shell_state_output`, prompt
  printing, and the transport that sets `busy`. The `Activation` methods
  stand in for it by calling the command until it ends. `busy` is an input
  of each call, and `ShellState.Activate` stands in for the driver selecting
  a command.
- The variants compiled out by `#define USING_STATE_MACHINE_MACROS` (shell_pfs.c:64)
  (shell_pfs.c:69-89 and 164-217) are not modelled. Only the macro versions
  are built.
- The `SHELL_NO_LED` build, where `LED(a)` does nothing, is not modelled.
- Message text is not modelled: sprintf formatting is left out. A message is
  kept as the integers it prints (`CalledTimes`, `Values`).
- LoadCommand.LoadStep: the `(long)` cast of `accu / 10000`, and the 64-bit
  range of `accu`, are not modelled. Integers are unbounded, so a target
  where `long` is 32 bits would print a truncated value after a few
  activations.
- CntCommand.CntStep: C `int` overflow of `cnt` after 2^31 activations is not
  modelled.
- Scan.ScanFlash: converting a value beyond the range of `int` with `%i` is
  undefined behaviour (section 7.21.6.2 of ISO/IEC 9899:2011). The model
  gives the unbounded value instead. So is `arg` in
  FlashCommand.FlashStep. Locale-dependent forms that `%i` may accept are
  also not modelled.
- FlashCommand.FlashCommand: `max_delay` is a constructor parameter (positive;
  10000000 in the firmware). This keeps the proofs independent of the
  constant, and is why lemmas state call counts in terms of it.
- FlashCommand.FlashCommand.Activation: it converts the line once, because
  the input does not change while the command runs. Only the first call,
  in state 0, reads it.
- The `volatile` qualifier on `accu`, and the timing the busy loops are
  meant to cause, have no counterpart. Only the values are modelled.
- Registry: labels are kept as strings but nothing reads them. Matching a
  typed command against labels belongs to the driver. `BLOCK_LEN` and
  `CMD_BLOCK` are defined in shell.h, which is not part of this model. They
  are modelled as a count stored in the function slot and a pointer to the
  child block.
