/** `command_flash`: parses "flash N" and flashes the LED N times, one step
    per call. States 1 and 3 write the LED and load the delay counter, states
    2 and 4 count it down one call at a time, state 5 counts the flashes, and
    state 6 returns to the prompt. The delay reload value `max_delay` is a
    parameter of the model (positive; 10000000 in the firmware). */
module FlashCommand {
  import opened Shell
  import opened Scan

  /** `max_delay` as the firmware sets it. */
  const FirmwareMaxDelay := 10000000

  /** The statics of command_flash: `state`, `arg` and `delay`. */
  datatype FlashLocals = FlashLocals(state: int, arg: int, delay: int)

  const LedOn := Quiet.(led := Some(true))
  const LedOff := Quiet.(led := Some(false))

  /** One call of command_flash. `parsed` is what `sscanf` makes of the
      input line (`ScanFlash(shell_state.input)`); only state 0 reads it, and
      it stores into `arg` only when the conversion succeeds. */
  function FlashStep(l: FlashLocals, parsed: Option<int>, maxDelay: int): (r: Transition<FlashLocals>)
    ensures r.effect.write.None?
    ensures r.effect.led.Some? <==> l.state == 1 || l.state == 3
    ensures r.effect.led.Some? ==> r.effect.led.value == (l.state == 1)
    ensures r.effect.end <==> l.state == 6
    ensures r.effect.end ==> r.next.state == 0
  {
    if l.state == 0 then
      var arg := if parsed.Some? then parsed.value else l.arg;
      Transition(l.(state := if parsed.Some? && arg > 0 then 1 else 6, arg := arg), Quiet)
    else if l.state == 1 then
      Transition(l.(state := 2, delay := maxDelay), LedOn)
    else if l.state == 2 then
      var d := l.delay - 1;
      Transition(l.(state := if d > 0 then 2 else 3, delay := d), Quiet)
    else if l.state == 3 then
      Transition(l.(state := 4, delay := maxDelay), LedOff)
    else if l.state == 4 then
      var d := l.delay - 1;
      Transition(l.(state := if d > 0 then 4 else 5, delay := d), Quiet)
    else if l.state == 5 then
      var a := l.arg - 1;
      Transition(l.(state := if a == 0 then 6 else 1, arg := a), Quiet)
    else if l.state == 6 then
      Transition(l.(state := 0), Ending)
    else
      Transition(l, Quiet)
  }

  /** The command as the shell sees it for one activation: the input line and
      `max_delay` do not change between calls. */
  function Flasher(parsed: Option<int>, maxDelay: int): FlashLocals -> Transition<FlashLocals>
  {
    l => FlashStep(l, parsed, maxDelay)
  }

  /** The LED levels written by `n` flashes: on, off, on, off, ... */
  function Alternating(n: nat): (r: seq<bool>)
    ensures |r| == 2 * n
  {
    if n == 0 then [] else [true, false] + Alternating(n - 1)
  }

  /** `n` flashes write exactly `n` ons and `n` offs, strictly alternating
      and starting with on. */
  lemma {:induction false} AlternatingLevels(n: nat)
    ensures forall i :: 0 <= i < 2 * n ==> Alternating(n)[i] == (i % 2 == 0)
  {
    if n > 0 {
      AlternatingLevels(n - 1);
      var r := Alternating(n);
      forall i | 0 <= i < 2 * n ensures r[i] == (i % 2 == 0) {
        if i >= 2 {
          assert r[i] == Alternating(n - 1)[i - 2];
        }
      }
    }
  }

  /** The calls of one flash: LED on, `d` calls of delay, LED off, `d` calls
      of delay, and the call that counts the flash. */
  function CycleTrace(d: nat): seq<Effect>
  {
    Cycle(Quiets(d))
  }

  /** A flash whose delays are the calls `q`. */
  function Cycle(q: seq<Effect>): seq<Effect>
  {
    [LedOn] + q + [LedOff] + q + [Quiet]
  }

  /** The calls `c` made `n` times over. */
  function Repeat(n: nat, c: seq<Effect>): seq<Effect>
  {
    if n == 0 then [] else c + Repeat(n - 1, c)
  }

  lemma QuietsCons(n: nat)
    requires n > 0
    ensures [Quiet] + Quiets(n - 1) == Quiets(n)
  {
    var a := [Quiet] + Quiets(n - 1);
    assert forall i :: 0 <= i < n ==> a[i] == Quiet;
  }

  /** While the delay counter has more than `k` left, `k` calls of a delay
      state only count it down: the state is held. */
  lemma {:induction false} DelayCountdown(s: int, a: int, d: int, k: nat, parsed: Option<int>, maxDelay: int)
    requires s == 2 || s == 4
    requires k < d
    ensures Iterate(Flasher(parsed, maxDelay), FlashLocals(s, a, d), k) == Run(FlashLocals(s, a, d - k), Quiets(k))
    decreases k
  {
    if k > 0 {
      var f := Flasher(parsed, maxDelay);
      assert f(FlashLocals(s, a, d)) == Transition(FlashLocals(s, a, d - 1), Quiet);
      DelayCountdown(s, a, d - 1, k - 1, parsed, maxDelay);
      QuietsCons(k);
    }
  }

  /** A delay state loaded with `d` lasts exactly `d` calls, writes nothing,
      and hands over to the next state with the counter at zero. */
  lemma DelayPhase(s: int, a: int, d: nat, parsed: Option<int>, maxDelay: int)
    requires s == 2 || s == 4
    requires d > 0
    ensures Iterate(Flasher(parsed, maxDelay), FlashLocals(s, a, d), d) == Run(FlashLocals(s + 1, a, 0), Quiets(d))
    ensures forall k :: 0 <= k < d ==> Iterate(Flasher(parsed, maxDelay), FlashLocals(s, a, d), k).last.state == s
  {
    var f := Flasher(parsed, maxDelay);
    var l := FlashLocals(s, a, d);
    forall k | 0 <= k < d ensures Iterate(f, l, k).last.state == s {
      DelayCountdown(s, a, d, k, parsed, maxDelay);
    }
    DelayCountdown(s, a, d, d - 1, parsed, maxDelay);
    assert f(FlashLocals(s, a, 1)) == Transition(FlashLocals(s + 1, a, 0), Quiet);
    assert Iterate(f, FlashLocals(s, a, 1), 1) == Run(FlashLocals(s + 1, a, 0), [Quiet]);
    IterateCompose(f, l, d - 1, FlashLocals(s, a, 1), Quiets(d - 1), 1, FlashLocals(s + 1, a, 0), [Quiet]);
  }

  /** One flash from state 1: `2 * maxDelay + 3` calls that write the LED on
      and then off, after which the flash is counted off `arg`. */
  lemma FlashCycle(a: int, x: int, parsed: Option<int>, maxDelay: nat)
    requires maxDelay > 0
    ensures Iterate(Flasher(parsed, maxDelay), FlashLocals(1, a, x), 2 * maxDelay + 3)
         == Run(FlashLocals(if a - 1 == 0 then 6 else 1, a - 1, 0), CycleTrace(maxDelay))
  {
    var f := Flasher(parsed, maxDelay);
    var d := maxDelay;
    var q := Quiets(d);
    var l1 := FlashLocals(1, a, x);
    var l2 := FlashLocals(2, a, d);
    var l3 := FlashLocals(3, a, 0);
    var l4 := FlashLocals(4, a, d);
    var l5 := FlashLocals(5, a, 0);
    var l6 := FlashLocals(if a - 1 == 0 then 6 else 1, a - 1, 0);
    assert f(l1) == Transition(l2, LedOn);
    assert Iterate(f, l1, 1) == Run(l2, [LedOn]);
    DelayPhase(2, a, d, parsed, maxDelay);
    IterateCompose(f, l1, 1, l2, [LedOn], d, l3, q);
    assert f(l3) == Transition(l4, LedOff);
    assert Iterate(f, l3, 1) == Run(l4, [LedOff]);
    IterateCompose(f, l1, 1 + d, l3, [LedOn] + q, 1, l4, [LedOff]);
    DelayPhase(4, a, d, parsed, maxDelay);
    IterateCompose(f, l1, 2 + d, l4, [LedOn] + q + [LedOff], d, l5, q);
    assert f(l5) == Transition(l6, Quiet);
    assert Iterate(f, l5, 1) == Run(l6, [Quiet]);
    IterateCompose(f, l1, 2 + 2 * d, l5, [LedOn] + q + [LedOff] + q, 1, l6, [Quiet]);
  }

  /** `n` flashes from state 1 with `arg == n`: `n * (2 * maxDelay + 3)` calls,
      after which the command is in state 6 with `arg` and `delay` at zero. */
  lemma {:induction false} FlashCycles(n: nat, x: int, parsed: Option<int>, maxDelay: nat)
    requires n > 0 && maxDelay > 0
    ensures Iterate(Flasher(parsed, maxDelay), FlashLocals(1, n, x), n * (2 * maxDelay + 3))
         == Run(FlashLocals(6, 0, 0), Repeat(n, CycleTrace(maxDelay)))
    decreases n
  {
    if n == 1 {
      FlashCycle(n, x, parsed, maxDelay);
      assert Repeat(1, CycleTrace(maxDelay)) == CycleTrace(maxDelay) + [];
    } else {
      FlashCycles(n - 1, 0, parsed, maxDelay);
      FlashCyclesStep(n, x, parsed, maxDelay);
    }
  }

  /** One flash in front of the remaining `n - 1`. */
  lemma FlashCyclesStep(n: nat, x: int, parsed: Option<int>, maxDelay: nat)
    requires n > 1 && maxDelay > 0
    requires Iterate(Flasher(parsed, maxDelay), FlashLocals(1, n - 1, 0), (n - 1) * (2 * maxDelay + 3))
          == Run(FlashLocals(6, 0, 0), Repeat(n - 1, CycleTrace(maxDelay)))
    ensures Iterate(Flasher(parsed, maxDelay), FlashLocals(1, n, x), n * (2 * maxDelay + 3))
         == Run(FlashLocals(6, 0, 0), Repeat(n, CycleTrace(maxDelay)))
  {
    var c := 2 * maxDelay + 3;
    var cyc := CycleTrace(maxDelay);
    FlashCycle(n, x, parsed, maxDelay);
    IterateCompose(Flasher(parsed, maxDelay), FlashLocals(1, n, x), c, FlashLocals(1, n - 1, 0), cyc,
                   (n - 1) * c, FlashLocals(6, 0, 0), Repeat(n - 1, cyc));
    MulStep(n, c);
  }

  lemma MulStep(n: nat, c: nat)
    requires n > 0
    ensures c + (n - 1) * c == n * c
  {
  }

  /** A flash writes on and then off to the LED, whatever calls its delays
      are made of as long as they write no level. */
  lemma CycleLeds(q: seq<Effect>)
    requires LedWrites(q) == []
    ensures LedWrites(Cycle(q)) == [true, false]
  {
    var t1 := [LedOn] + q;
    LedWritesCons(LedOn, q);
    var t2 := t1 + [LedOff];
    LedWritesAppend(t1, [LedOff]);
    assert LedWrites([LedOff]) == [false];
    var t3 := t2 + q;
    LedWritesAppend(t2, q);
    LedWritesAppend(t3, [Quiet]);
    assert LedWrites([Quiet]) == [];
  }

  /** A flash writes no message when its delays write none. */
  lemma CycleWritesNothing(q: seq<Effect>)
    requires Written(q) == []
    ensures Written(Cycle(q)) == []
  {
    var t1 := [LedOn] + q;
    WrittenCons(LedOn, q);
    var t2 := t1 + [LedOff];
    WrittenAppend(t1, [LedOff]);
    assert Written([LedOff]) == [];
    var t3 := t2 + q;
    WrittenAppend(t2, q);
    WrittenAppend(t3, [Quiet]);
    assert Written([Quiet]) == [];
  }

  /** A flash does not end the command when its delays do not. */
  lemma CycleNoEnd(q: seq<Effect>)
    requires NoEnd(q)
    ensures NoEnd(Cycle(q))
  {
    var t := Cycle(q);
    forall i | 0 <= i < |t| ensures !t[i].end {
      if 0 < i <= |q| {
        assert t[i] == q[i - 1];
      } else if |q| + 1 < i < 2 * |q| + 2 {
        assert t[i] == q[i - |q| - 2];
      }
    }
  }

  /** The delay calls write nothing and do not end the command. */
  lemma QuietsEffects(d: nat)
    ensures LedWrites(Quiets(d)) == [] && Written(Quiets(d)) == [] && NoEnd(Quiets(d))
  {
    QuietsWriteNothing(d);
  }

  /** `n` repetitions of calls that write on and off write `Alternating(n)`. */
  lemma {:induction false} RepeatLeds(n: nat, c: seq<Effect>)
    requires LedWrites(c) == [true, false]
    ensures LedWrites(Repeat(n, c)) == Alternating(n)
  {
    if n > 0 {
      RepeatLeds(n - 1, c);
      RepeatLedsStep(n, c);
    }
  }

  /** The induction step of RepeatLeds: one more on and off in front. */
  lemma RepeatLedsStep(n: nat, c: seq<Effect>)
    requires n > 0
    requires LedWrites(c) == [true, false]
    requires LedWrites(Repeat(n - 1, c)) == Alternating(n - 1)
    ensures LedWrites(Repeat(n, c)) == Alternating(n)
  {
    LedWritesAppend(c, Repeat(n - 1, c));
  }

  /** Repeating calls that write no message writes no message. */
  lemma {:induction false} RepeatWritesNothing(n: nat, c: seq<Effect>)
    requires Written(c) == []
    ensures Written(Repeat(n, c)) == []
  {
    if n > 0 {
      RepeatWritesNothing(n - 1, c);
      WrittenNothingAppend(c, Repeat(n - 1, c));
    }
  }

  /** Repeating calls that do not end the command does not end it. */
  lemma {:induction false} RepeatNoEnd(n: nat, c: seq<Effect>)
    requires NoEnd(c)
    ensures NoEnd(Repeat(n, c))
  {
    if n > 0 {
      RepeatNoEnd(n - 1, c);
      NoEndAppend(c, Repeat(n - 1, c));
    }
  }

  /** The call count of a valid "flash N" activation. */
  function FlashCalls(n: nat, maxDelay: nat): nat
  {
    n * (2 * maxDelay + 3) + 2
  }

  /** The calls of a valid activation: the parse, `n` flashes, the return. */
  function ValidTrace(n: nat, d: nat): seq<Effect>
  {
    Framed(Repeat(n, CycleTrace(d)))
  }

  /** The parse call, the calls `mid`, and the return call. */
  function Framed(mid: seq<Effect>): seq<Effect>
  {
    [Quiet] + mid + [Ending]
  }

  /** Framing calls between the parse and the return adds no LED write and no
      message, and ends the command at the return. */
  lemma FramedEffects(mid: seq<Effect>)
    requires NoEnd(mid)
    ensures var tr := Framed(mid);
            Routes(tr) && EndsAtLast(tr) &&
            LedWrites(tr) == LedWrites(mid) && Written(tr) == Written(mid)
  {
    var tr := Framed(mid);
    LedWritesAppend([Quiet] + mid, [Ending]);
    LedWritesCons(Quiet, mid);
    WrittenAppend([Quiet] + mid, [Ending]);
    WrittenCons(Quiet, mid);
    assert LedWrites([Ending]) == [] && Written([Ending]) == [];
    forall i | 0 <= i < |tr| - 1 ensures !tr[i].end {
      if i > 0 {
        assert tr[i] == mid[i - 1];
      }
    }
  }

  /** The calls of a valid activation end the command at the return, write
      on, off, ... `n` times each, and write no message. */
  lemma ValidTraceEffects(n: nat, d: nat)
    ensures var tr := ValidTrace(n, d);
            Routes(tr) && EndsAtLast(tr) && LedWrites(tr) == Alternating(n) && Written(tr) == []
  {
    var cyc := CycleTrace(d);
    QuietsEffects(d);
    CycleLeds(Quiets(d));
    CycleWritesNothing(Quiets(d));
    CycleNoEnd(Quiets(d));
    RepeatLeds(n, cyc);
    RepeatWritesNothing(n, cyc);
    RepeatNoEnd(n, cyc);
    FramedEffects(Repeat(n, cyc));
  }

  /** A line that converts to N > 0 flashes the LED N times: the run takes
      `N * (2 * maxDelay + 3) + 2` calls (the parse, N flashes, the return),
      writes on, off, on, off, ... N times each, writes no message, and ends
      at its last call with every static back at zero. */
  lemma FlashValid(parsed: Option<int>, maxDelay: nat, x: int, y: int)
    requires parsed.Some? && parsed.value > 0
    requires maxDelay > 0
    ensures var r := Iterate(Flasher(parsed, maxDelay), FlashLocals(0, x, y),
                             FlashCalls(parsed.value, maxDelay));
            r.last == FlashLocals(0, 0, 0) &&
            Routes(r.trace) && EndsAtLast(r.trace) &&
            LedWrites(r.trace) == Alternating(parsed.value) &&
            Written(r.trace) == []
  {
    var n: nat := parsed.value;
    FlashValidRun(parsed, maxDelay, n, x, y);
    ValidTraceEffects(n, maxDelay);
  }

  /** With the firmware's `max_delay` of 10000000, "flash N" takes
      N * 20000003 + 2 calls and writes on, off, ... N times each. */
  lemma FirmwareFlash(parsed: Option<int>, x: int, y: int)
    requires parsed.Some? && parsed.value > 0
    ensures var r := Iterate(Flasher(parsed, FirmwareMaxDelay), FlashLocals(0, x, y),
                             parsed.value * 20000003 + 2);
            r.last == FlashLocals(0, 0, 0) && EndsAtLast(r.trace) &&
            LedWrites(r.trace) == Alternating(parsed.value) && Written(r.trace) == []
  {
    FlashValid(parsed, FirmwareMaxDelay, x, y);
    assert FlashCalls(parsed.value, FirmwareMaxDelay) == parsed.value * 20000003 + 2;
  }

  lemma FlashValidRun(parsed: Option<int>, maxDelay: nat, n: nat, x: int, y: int)
    requires parsed == Some(n) && n > 0
    requires maxDelay > 0
    ensures Iterate(Flasher(parsed, maxDelay), FlashLocals(0, x, y), FlashCalls(n, maxDelay))
         == Run(FlashLocals(0, 0, 0), ValidTrace(n, maxDelay))
  {
    var f := Flasher(parsed, maxDelay);
    var l0 := FlashLocals(0, x, y);
    var l1 := FlashLocals(1, n, y);
    var m := n * (2 * maxDelay + 3);
    var mid := Repeat(n, CycleTrace(maxDelay));
    assert f(l0) == Transition(l1, Quiet);
    assert Iterate(f, l0, 1) == Run(l1, [Quiet]);
    FlashCycles(n, y, parsed, maxDelay);
    IterateCompose(f, l0, 1, l1, [Quiet], m, FlashLocals(6, 0, 0), mid);
    assert f(FlashLocals(6, 0, 0)) == Transition(FlashLocals(0, 0, 0), Ending);
    assert Iterate(f, FlashLocals(6, 0, 0), 1) == Run(FlashLocals(0, 0, 0), [Ending]);
    IterateCompose(f, l0, 1 + m, FlashLocals(6, 0, 0), [Quiet] + mid, 1, FlashLocals(0, 0, 0), [Ending]);
    assert FlashCalls(n, maxDelay) == 1 + m + 1;
  }

  /** A line that converts nothing, or converts a number that is not
      positive, flashes nothing: two calls, the parse and the return. A
      failed conversion leaves `arg` as it was; a successful one stores it. */
  lemma FlashInvalid(parsed: Option<int>, maxDelay: nat, x: int, y: int)
    requires parsed.None? || parsed.value <= 0
    ensures var arg := if parsed.Some? then parsed.value else x;
            var r := Iterate(Flasher(parsed, maxDelay), FlashLocals(0, x, y), 2);
            r.last == FlashLocals(0, arg, y) && r.trace == [Quiet, Ending] &&
            Routes(r.trace) && EndsAtLast(r.trace) && LedWrites(r.trace) == [] && Written(r.trace) == []
  {
    var f := Flasher(parsed, maxDelay);
    var arg := if parsed.Some? then parsed.value else x;
    assert f(FlashLocals(0, x, y)) == Transition(FlashLocals(6, arg, y), Quiet);
    assert f(FlashLocals(6, arg, y)) == Transition(FlashLocals(0, arg, y), Ending);
    assert Iterate(f, FlashLocals(0, x, y), 2).trace == [Quiet, Ending];
    FramedEffects([]);
    assert Framed([]) == [Quiet, Ending];
  }

  /** The number of calls of an activation whose line converts to `parsed`. */
  function FlashTotal(parsed: Option<int>, maxDelay: nat): nat
  {
    if parsed.Some? && parsed.value > 0 then FlashCalls(parsed.value, maxDelay) else 2
  }

  /** Every activation ends at its last call, which is call `FlashTotal`. */
  lemma FlashEnds(parsed: Option<int>, maxDelay: nat, x: int, y: int)
    requires maxDelay > 0
    ensures EndsAtLast(Iterate(Flasher(parsed, maxDelay), FlashLocals(0, x, y), FlashTotal(parsed, maxDelay)).trace)
  {
    if parsed.Some? && parsed.value > 0 {
      FlashValid(parsed, maxDelay, x, y);
    } else {
      FlashInvalid(parsed, maxDelay, x, y);
    }
  }

  /** The shared fields after a whole activation, starting from `v0`. */
  lemma FlashOutcome(parsed: Option<int>, maxDelay: nat, x: int, y: int, v0: ShellView)
    requires maxDelay > 0
    ensures var r := Iterate(Flasher(parsed, maxDelay), FlashLocals(0, x, y), FlashTotal(parsed, maxDelay));
            var v := ApplyAll(v0, r.trace);
            v.routed && !v.active && v.output == v0.output && v.sent == v0.sent &&
            if parsed.Some? && parsed.value > 0 then
              v.ledLog == v0.ledLog + Alternating(parsed.value) && r.last == FlashLocals(0, 0, 0)
            else
              v.ledLog == v0.ledLog && v.led == v0.led &&
              r.last == FlashLocals(0, if parsed.Some? then parsed.value else x, y)
  {
    var r := Iterate(Flasher(parsed, maxDelay), FlashLocals(0, x, y), FlashTotal(parsed, maxDelay));
    if parsed.Some? && parsed.value > 0 {
      FlashValid(parsed, maxDelay, x, y);
    } else {
      FlashInvalid(parsed, maxDelay, x, y);
      ApplyAllTwo(v0, Quiet, Ending);
    }
    ApplyAllLogs(v0, r.trace);
    ApplyAllRouted(v0, r.trace);
    ApplyAllActive(v0, r.trace);
    ApplyAllOutput(v0, r.trace);
  }

  /** command_flash with its statics in place; `maxDelay` stands for the
      constant `max_delay`. */
  class FlashCommand {
    var state: int
    var arg: int
    var delay: int
    const maxDelay: nat

    function Locals(): FlashLocals
      reads this
    {
      FlashLocals(state, arg, delay)
    }

    /** The statics at power-up: all zero. */
    constructor (maxDelay: nat)
      requires maxDelay > 0
      ensures Locals() == FlashLocals(0, 0, 0) && this.maxDelay == maxDelay
    {
      state := 0;
      arg := 0;
      delay := 0;
      this.maxDelay := maxDelay;
    }

    /** One call of command_flash. */
    method Step(shell: ShellState)
      requires shell.Valid()
      modifies this, shell
      ensures shell.Valid() && shell.input == old(shell.input) && shell.busy == old(shell.busy)
      ensures Locals() == FlashStep(old(Locals()), ScanFlash(shell.input), maxDelay).next
      ensures shell.View() == Apply(old(shell.View()), FlashStep(old(Locals()), ScanFlash(shell.input), maxDelay).effect)
    {
      Advance(shell, ScanFlash(shell.input));
    }

    /** One call of command_flash, given what `sscanf` makes of the input
        line; only state 0 looks at it. */
    method Advance(shell: ShellState, parsed: Option<int>)
      requires shell.Valid()
      modifies this, shell
      ensures shell.Valid() && shell.input == old(shell.input) && shell.busy == old(shell.busy)
      ensures Locals() == FlashStep(old(Locals()), parsed, maxDelay).next
      ensures shell.View() == Apply(old(shell.View()), FlashStep(old(Locals()), parsed, maxDelay).effect)
    {
      QuietChangesNothing(shell.View());
      if state == 0 {
        if parsed.Some? {
          arg := parsed.value;
        }
        state := if parsed.Some? && arg > 0 then 1 else 6;
      } else if state == 1 {
        shell.WriteLed(true);
        delay := maxDelay;
        state := state + 1;
      } else if state == 2 {
        delay := delay - 1;
        state := if delay > 0 then 2 else 3;
      } else if state == 3 {
        shell.WriteLed(false);
        delay := maxDelay;
        state := state + 1;
      } else if state == 4 {
        delay := delay - 1;
        state := if delay > 0 then 4 else 5;
      } else if state == 5 {
        arg := arg - 1;
        state := if arg == 0 then 6 else 1;
      } else if state == 6 {
        state := 0;
        shell.Return();
      }
    }

    /** The shell calling command_flash until it clears command_fp. For
        "flash N" with N > 0 that takes `N * (2 * maxDelay + 3) + 2` calls and
        writes N ons and N offs, alternating; otherwise two calls and no LED
        write. */
    method Activation(shell: ShellState) returns (calls: nat)
      requires shell.Valid() && shell.commandActive && state == 0 && maxDelay > 0
      modifies this, shell
      ensures shell.Valid() && !shell.commandActive && shell.routedToOutput && state == 0
      ensures shell.input == old(shell.input) && shell.output == old(shell.output)
      ensures var p := ScanFlash(old(shell.input));
              if p.Some? && p.value > 0 then
                calls == FlashCalls(p.value, maxDelay) &&
                shell.ledLog == old(shell.ledLog) + Alternating(p.value) &&
                Locals() == FlashLocals(0, 0, 0)
              else
                calls == 2 && shell.ledLog == old(shell.ledLog) && shell.led == old(shell.led) &&
                arg == (if p.Some? then p.value else old(arg)) && delay == old(delay)
      ensures shell.sent == old(shell.sent)
    {
      // the input line does not change while the command runs, so every
      // call in state 0 converts it the same way
      var p := ScanFlash(shell.input);
      calls := RunWith(shell, p);
    }

    /** Calls the command until it ends, which an activation known to end
        after `total` calls does at call `total`. */
    method Drive(shell: ShellState, p: Option<int>, ghost total: nat) returns (calls: nat)
      requires shell.Valid() && shell.commandActive
      requires EndsAtLast(Iterate(Flasher(p, maxDelay), Locals(), total).trace)
      modifies this, shell
      ensures shell.Valid() && shell.input == old(shell.input) && calls == total
      ensures Locals() == Iterate(Flasher(p, maxDelay), old(Locals()), total).last
      ensures shell.View() == ApplyAll(old(shell.View()), Iterate(Flasher(p, maxDelay), old(Locals()), total).trace)
    {
      ghost var start := Locals();
      ghost var v0 := shell.View();
      ghost var f := Flasher(p, maxDelay);
      calls := 0;
      while shell.commandActive
        invariant calls <= total && shell.Valid()
        invariant shell.input == old(shell.input)
        invariant Locals() == Iterate(f, start, calls).last
        invariant shell.View() == ApplyAll(v0, Iterate(f, start, calls).trace)
        invariant shell.commandActive == (calls < total)
        decreases total - calls
      {
        Advance(shell, p);
        IterateTick(f, start, v0, calls, total);
        calls := calls + 1;
      }
    }

    /** The calls of one activation, given what `sscanf` makes of the line. */
    method RunWith(shell: ShellState, p: Option<int>) returns (calls: nat)
      requires shell.Valid() && shell.commandActive && state == 0 && maxDelay > 0
      modifies this, shell
      ensures shell.Valid() && !shell.commandActive && shell.routedToOutput && state == 0
      ensures shell.input == old(shell.input) && shell.output == old(shell.output)
      ensures if p.Some? && p.value > 0 then
                calls == FlashCalls(p.value, maxDelay) &&
                shell.ledLog == old(shell.ledLog) + Alternating(p.value) &&
                Locals() == FlashLocals(0, 0, 0)
              else
                calls == 2 && shell.ledLog == old(shell.ledLog) && shell.led == old(shell.led) &&
                arg == (if p.Some? then p.value else old(arg)) && delay == old(delay)
      ensures shell.sent == old(shell.sent)
    {
      ghost var start := Locals();
      ghost var v0 := shell.View();
      FlashEnds(p, maxDelay, start.arg, start.delay);
      calls := Drive(shell, p, FlashTotal(p, maxDelay));
      FlashOutcome(p, maxDelay, start.arg, start.delay, v0);
    }
  }
}
