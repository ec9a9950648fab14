/** The part of the shell's global state that command functions touch, and the
    vocabulary used to describe what one call of a command function does.

    In the firmware a command function is called once per shell tick while
    `shell_state.command_fp` points at it. It talks to the shell only through
    `shell_state.output` (the text buffer), `shell_fp` (set to
    `shell_state_output` to have the buffer sent), `shell_state.command_fp`
    (cleared to end the command), `shell_state.busy` (the transport's flag)
    and `shell_state.input` (the command line), plus the LED pin. */
module Shell {

  datatype Option<T> = None | Some(value: T)

  /** The contents of the output buffer. Messages are kept structured: the
      integers that sprintf would format, not the formatted text. */
  datatype Message =
    | NoMessage
      /** "\r\nCalled %i times" */
    | CalledTimes(count: int)
      /** "\r\nValues : %i %li" */
    | Values(count: int, load: int)

  /** What one call of a command function does to the shared fields:
      the message it writes to the output buffer, whether it points `shell_fp`
      at the output state, whether it clears `command_fp`, and the level it
      writes to the LED pin. */
  datatype Effect = Effect(write: Option<Message>, route: bool, end: bool, led: Option<bool>)

  /** A call that touches none of the shared fields. */
  const Quiet := Effect(None, false, false, None)

  /** A call that returns to the prompt: `shell_fp` set to the output state
      and `command_fp` cleared. */
  const Ending := Quiet.(route := true, end := true)

  /** One call of a command function: its statics afterwards and its effect. */
  datatype Transition<L> = Transition(next: L, effect: Effect)

  /** A number of consecutive calls: the statics after the last one and the
      effect of each call, in order. */
  datatype Run<L> = Run(last: L, trace: seq<Effect>)

  /** The values of the shared fields that commands write, with two ghost logs:
      every level written to the LED pin and every message written to the
      output buffer. */
  datatype ShellView = ShellView(output: Message, routed: bool, active: bool,
                                 led: bool, ledLog: seq<bool>, sent: seq<Message>)

  /** The shared fields after one call with effect `e`. `shell_fp` is only ever
      set to the output state and `command_fp` only ever cleared by a command. */
  function Apply(s: ShellView, e: Effect): ShellView
  {
    ShellView(if e.write.Some? then e.write.value else s.output,
              s.routed || e.route,
              s.active && !e.end,
              if e.led.Some? then e.led.value else s.led,
              s.ledLog + LedOf(e),
              s.sent + MessageOf(e))
  }

  /** A call that touches nothing leaves the shared fields as they were. */
  lemma QuietChangesNothing(s: ShellView)
    ensures Apply(s, Quiet) == s
  {
    assert s.ledLog + [] == s.ledLog;
    assert s.sent + [] == s.sent;
  }

  function LedOf(e: Effect): seq<bool>
  {
    if e.led.Some? then [e.led.value] else []
  }

  function MessageOf(e: Effect): seq<Message>
  {
    if e.write.Some? then [e.write.value] else []
  }

  /** The shared fields after a sequence of calls. */
  function ApplyAll(s: ShellView, tr: seq<Effect>): ShellView
  {
    if tr == [] then s else Apply(ApplyAll(s, tr[..|tr| - 1]), tr[|tr| - 1])
  }

  lemma ApplyAllTwo(s: ShellView, a: Effect, b: Effect)
    ensures ApplyAll(s, [a, b]) == Apply(Apply(s, a), b)
  {
    var t := [a, b];
    assert t[..1] == [a];
    assert ApplyAll(s, [a]) == Apply(s, a) by {
      assert [a][..0] == [];
    }
    assert ApplyAll(s, t) == Apply(ApplyAll(s, [a]), b);
  }

  lemma TwoCallLogs(a: Effect, b: Effect)
    ensures LedWrites([a, b]) == LedOf(a) + LedOf(b)
    ensures Written([a, b]) == MessageOf(a) + MessageOf(b)
  {
    var t := [a, b];
    assert t[..1] == [a];
    assert LedWrites([a]) == LedOf(a) && Written([a]) == MessageOf(a) by {
      assert [a][..0] == [];
    }
    assert LedWrites(t) == LedWrites([a]) + LedOf(b);
    assert Written(t) == Written([a]) + MessageOf(b);
  }

  /** The levels written to the LED pin by a sequence of calls, in order. */
  function LedWrites(tr: seq<Effect>): seq<bool>
  {
    if tr == [] then [] else LedWrites(tr[..|tr| - 1]) + LedOf(tr[|tr| - 1])
  }

  /** The messages written to the output buffer by a sequence of calls, in order. */
  function Written(tr: seq<Effect>): seq<Message>
  {
    if tr == [] then [] else Written(tr[..|tr| - 1]) + MessageOf(tr[|tr| - 1])
  }

  /** No call of the sequence clears `command_fp`. */
  predicate NoEnd(tr: seq<Effect>)
  {
    forall i :: 0 <= i < |tr| ==> !tr[i].end
  }

  /** The last call of the sequence, and only it, clears `command_fp`. */
  predicate EndsAtLast(tr: seq<Effect>)
  {
    |tr| > 0 && tr[|tr| - 1].end && NoEndBeforeLast(tr)
  }

  /** No call but possibly the last clears `command_fp`: the shell calls a
      command only while `command_fp` still points at it. */
  predicate NoEndBeforeLast(tr: seq<Effect>)
  {
    forall i :: 0 <= i < |tr| - 1 ==> !tr[i].end
  }

  /** Before a trace that ends at its last call, and only there, no call
      ends the command. */
  lemma EndsAtLastPrefix(a: seq<Effect>, b: seq<Effect>)
    requires EndsAtLast(a + b) && b != []
    ensures NoEnd(a)
  {
    forall i | 0 <= i < |a| ensures !a[i].end {
      assert a[i] == (a + b)[i];
    }
  }

  /** Calls after an ending call put that ending before the last. */
  lemma EndsAtLastExtended(a: seq<Effect>, b: seq<Effect>)
    requires EndsAtLast(a) && b != []
    ensures !NoEndBeforeLast(a + b)
  {
    assert (a + b)[|a| - 1] == a[|a| - 1];
  }

  /** A call that does not end the command can be put in front of a trace
      without changing where the trace ends. */
  lemma EndsAfterQuietStart(e: Effect, tr: seq<Effect>)
    requires !e.end
    ensures EndsAtLast([e] + tr) == EndsAtLast(tr)
    ensures NoEndBeforeLast([e] + tr) == NoEndBeforeLast(tr)
  {
    var t := [e] + tr;
    if NoEndBeforeLast(tr) {
      forall i | 0 <= i < |t| - 1 ensures !t[i].end {
        if i > 0 {
          assert t[i] == tr[i - 1];
        }
      }
    }
    if NoEndBeforeLast(t) {
      forall i | 0 <= i < |tr| - 1 ensures !tr[i].end {
        assert t[i + 1] == tr[i];
      }
    }
    if tr != [] {
      assert t[|t| - 1] == tr[|tr| - 1];
    }
  }

  /** Calls that do not end the command, followed by calls whose last and only
      last ends it, end at the last call. */
  lemma EndsAtLastAppend(a: seq<Effect>, b: seq<Effect>)
    requires NoEnd(a) && EndsAtLast(b)
    ensures EndsAtLast(a + b)
  {
    var t := a + b;
    assert t[|t| - 1] == b[|b| - 1];
    forall i | 0 <= i < |t| - 1 ensures !t[i].end {
      if i >= |a| {
        assert t[i] == b[i - |a|];
      }
    }
  }

  /** The logs and endings of a trace of three calls. */
  lemma ThreeCallTrace(a: Effect, b: Effect, c: Effect)
    ensures Written([a, b, c]) == MessageOf(a) + MessageOf(b) + MessageOf(c)
    ensures LedWrites([a, b, c]) == LedOf(a) + LedOf(b) + LedOf(c)
    ensures NoEnd([a, b, c]) == (!a.end && !b.end && !c.end)
    ensures EndsAtLast([a, b, c]) == (!a.end && !b.end && c.end)
  {
    assert [a, b, c][..2] == [a, b] && [a, b][..1] == [a] && [a][..0] == [];
    assert Written([a]) == MessageOf(a);
    assert Written([a, b]) == MessageOf(a) + MessageOf(b);
    assert LedWrites([a]) == LedOf(a);
    assert LedWrites([a, b]) == LedOf(a) + LedOf(b);
    assert [a, b, c][0] == a && [a, b, c][1] == b && [a, b, c][2] == c;
  }

  /** A call added after calls that did not end the command. */
  lemma SnocEnds(tr: seq<Effect>, e: Effect)
    requires NoEnd(tr)
    ensures NoEndBeforeLast(tr + [e])
    ensures NoEnd(tr + [e]) == !e.end
    ensures EndsAtLast(tr + [e]) == e.end
  {
    var t := tr + [e];
    assert t[|t| - 1] == e;
    forall i | 0 <= i < |t| - 1 ensures !t[i].end {
      assert t[i] == tr[i];
    }
  }

  /** A call that ends the command is the last one the shell makes. */
  lemma EndingCallIsLast(tr: seq<Effect>)
    requires NoEndBeforeLast(tr) && |tr| > 0 && tr[0].end
    ensures |tr| == 1
  {
  }

  /** Written of a one-call trace. */
  lemma WrittenCons(e: Effect, tr: seq<Effect>)
    ensures Written([e] + tr) == MessageOf(e) + Written(tr)
  {
    WrittenAppend([e], tr);
    assert [e][..0] == [];
  }

  /** LedWrites of a trace with one call in front. */
  lemma LedWritesCons(e: Effect, tr: seq<Effect>)
    ensures LedWrites([e] + tr) == LedOf(e) + LedWrites(tr)
  {
    LedWritesAppend([e], tr);
    assert [e][..0] == [];
  }

  /** Two sequences of calls that write no message write none together. */
  lemma WrittenNothingAppend(a: seq<Effect>, b: seq<Effect>)
    requires Written(a) == [] && Written(b) == []
    ensures Written(a + b) == []
  {
    WrittenAppend(a, b);
  }

  /** Two sequences of calls neither of which ends the command. */
  lemma NoEndAppend(a: seq<Effect>, b: seq<Effect>)
    requires NoEnd(a) && NoEnd(b)
    ensures NoEnd(a + b)
  {
    var t := a + b;
    forall i | 0 <= i < |t| ensures !t[i].end {
      if i >= |a| {
        assert t[i] == b[i - |a|];
      }
    }
  }

  /** `n` calls that touch nothing. */
  function Quiets(n: nat): (r: seq<Effect>)
    ensures |r| == n
    ensures forall i :: 0 <= i < n ==> r[i] == Quiet
  {
    if n == 0 then [] else Quiets(n - 1) + [Quiet]
  }

  lemma {:induction false} LedWritesAppend(a: seq<Effect>, b: seq<Effect>)
    ensures LedWrites(a + b) == LedWrites(a) + LedWrites(b)
    decreases |b|
  {
    if b == [] {
      assert a + b == a;
    } else {
      var b' := b[..|b| - 1];
      assert (a + b)[..|a + b| - 1] == a + b';
      assert (a + b)[|a + b| - 1] == b[|b| - 1];
      LedWritesAppend(a, b');
    }
  }

  lemma {:induction false} WrittenAppend(a: seq<Effect>, b: seq<Effect>)
    ensures Written(a + b) == Written(a) + Written(b)
    decreases |b|
  {
    if b == [] {
      assert a + b == a;
    } else {
      var b' := b[..|b| - 1];
      assert (a + b)[..|a + b| - 1] == a + b';
      assert (a + b)[|a + b| - 1] == b[|b| - 1];
      WrittenAppend(a, b');
    }
  }

  lemma {:induction false} QuietsWriteNothing(n: nat)
    ensures LedWrites(Quiets(n)) == [] && Written(Quiets(n)) == [] && NoEnd(Quiets(n))
  {
    if n > 0 {
      assert Quiets(n)[..n - 1] == Quiets(n - 1);
      QuietsWriteNothing(n - 1);
    }
  }

  /** A sequence of calls adds to the logs exactly the levels and messages it writes. */
  lemma {:induction false} ApplyAllLogs(s: ShellView, tr: seq<Effect>)
    ensures ApplyAll(s, tr).ledLog == s.ledLog + LedWrites(tr)
    ensures ApplyAll(s, tr).sent == s.sent + Written(tr)
    decreases |tr|
  {
    if tr != [] {
      ApplyAllLogs(s, tr[..|tr| - 1]);
    }
  }

  /** The command stays active through a sequence of calls exactly when none ends it. */
  lemma {:induction false} ApplyAllActive(s: ShellView, tr: seq<Effect>)
    ensures ApplyAll(s, tr).active == (s.active && NoEnd(tr))
    decreases |tr|
  {
    if tr != [] {
      var tr' := tr[..|tr| - 1];
      ApplyAllActive(s, tr');
      if !NoEnd(tr') {
        var i :| 0 <= i < |tr'| && tr'[i].end;
        assert tr[i].end;
      }
      assert NoEnd(tr) == (NoEnd(tr') && !tr[|tr| - 1].end);
    }
  }

  /** A sequence of calls that writes no message leaves the output buffer as it was. */
  lemma {:induction false} ApplyAllOutput(s: ShellView, tr: seq<Effect>)
    requires Written(tr) == []
    ensures ApplyAll(s, tr).output == s.output
    decreases |tr|
  {
    if tr != [] {
      var tr' := tr[..|tr| - 1];
      assert Written(tr) == Written(tr') + MessageOf(tr[|tr| - 1]);
      assert |Written(tr')| + |MessageOf(tr[|tr| - 1])| == 0;
      ApplyAllOutput(s, tr');
    }
  }

  /** After a sequence of calls `shell_fp` points at the output state if it did
      before or some call pointed it there. */
  lemma {:induction false} ApplyAllRouted(s: ShellView, tr: seq<Effect>)
    ensures ApplyAll(s, tr).routed == (s.routed || Routes(tr))
    decreases |tr|
  {
    if tr != [] {
      ApplyAllRouted(s, tr[..|tr| - 1]);
    }
  }

  /** Some call of the sequence points `shell_fp` at the output state. */
  predicate Routes(tr: seq<Effect>)
  {
    tr != [] && (Routes(tr[..|tr| - 1]) || tr[|tr| - 1].route)
  }

  /** `k` consecutive calls of a command whose calls read no input. */
  function Iterate<L>(step: L -> Transition<L>, l: L, k: nat): (r: Run<L>)
    ensures |r.trace| == k
  {
    if k == 0 then Run(l, [])
    else
      var t := step(l);
      var rest := Iterate(step, t.next, k - 1);
      Run(rest.last, [t.effect] + rest.trace)
  }

  /** Consecutive calls of a command that reads one input per call. */
  function Feed<L, I>(step: (L, I) -> Transition<L>, l: L, ins: seq<I>): (r: Run<L>)
    ensures |r.trace| == |ins|
  {
    if ins == [] then Run(l, [])
    else
      var t := step(l, ins[0]);
      var rest := Feed(step, t.next, ins[1..]);
      Run(rest.last, [t.effect] + rest.trace)
  }

  /** `j + k` calls are `j` calls followed by `k` more from where they left off. */
  lemma {:induction false} IterateSplit<L>(step: L -> Transition<L>, l: L, j: nat, k: nat)
    ensures var a := Iterate(step, l, j);
            var b := Iterate(step, a.last, k);
            Iterate(step, l, j + k) == Run(b.last, a.trace + b.trace)
  {
    if j > 0 {
      var t := step(l);
      IterateSplit(step, t.next, j - 1, k);
      var a' := Iterate(step, t.next, j - 1);
      var b := Iterate(step, a'.last, k);
      assert [t.effect] + (a'.trace + b.trace) == ([t.effect] + a'.trace) + b.trace;
    } else {
      assert [] + Iterate(step, l, k).trace == Iterate(step, l, k).trace;
    }
  }

  /** One more call extends the trace by that call's effect. */
  lemma IterateNext<L>(step: L -> Transition<L>, l: L, k: nat)
    ensures var a := Iterate(step, l, k);
            Iterate(step, l, k + 1) == Run(step(a.last).next, a.trace + [step(a.last).effect])
  {
    IterateSplit(step, l, k, 1);
  }

  /** One more call, fed `x`, extends the trace by that call's effect. */
  lemma FeedNext<L, I>(step: (L, I) -> Transition<L>, l: L, ins: seq<I>, x: I)
    ensures var a := Feed(step, l, ins);
            Feed(step, l, ins + [x]) == Run(step(a.last, x).next, a.trace + [step(a.last, x).effect])
  {
    FeedSplit(step, l, ins, [x]);
    assert [x][1..] == [];
  }

  /** Runs compose: where `j` calls leave off, `k` more carry on. */
  lemma IterateCompose<L>(step: L -> Transition<L>, l: L, j: nat, m: L, a: seq<Effect>, k: nat, n: L, b: seq<Effect>)
    requires Iterate(step, l, j) == Run(m, a)
    requires Iterate(step, m, k) == Run(n, b)
    ensures Iterate(step, l, j + k) == Run(n, a + b)
  {
    IterateSplit(step, l, j, k);
  }

  /** One more call of a run that ends exactly at call `total`: the statics
      and the shared fields move on by that call, and the command is still
      active afterwards exactly when fewer than `total` calls have been made. */
  lemma IterateTick<L>(step: L -> Transition<L>, start: L, v0: ShellView, calls: nat, total: nat)
    requires EndsAtLast(Iterate(step, start, total).trace) && calls < total && v0.active
    ensures var before := Iterate(step, start, calls);
            var t := step(before.last);
            var after := Iterate(step, start, calls + 1);
            after.last == t.next
            && ApplyAll(v0, after.trace) == Apply(ApplyAll(v0, before.trace), t.effect)
            && ApplyAll(v0, after.trace).active == (calls + 1 < total)
  {
    var before := Iterate(step, start, calls);
    var t := step(before.last);
    IterateNext(step, start, calls);
    ApplyAllSnoc(v0, before.trace, t.effect);
    IteratePrefixActive(step, start, total, calls + 1);
    ApplyAllActive(v0, Iterate(step, start, calls + 1).trace);
  }

  /** In a run whose last call, and only it, ends the command, every shorter
      run leaves the command active. */
  lemma IteratePrefixActive<L>(step: L -> Transition<L>, l: L, n: nat, k: nat)
    requires EndsAtLast(Iterate(step, l, n).trace) && k <= n
    ensures NoEnd(Iterate(step, l, k).trace) == (k < n)
  {
    IterateSplit(step, l, k, n - k);
    var a := Iterate(step, l, k).trace;
    var full := Iterate(step, l, n).trace;
    assert full[..k] == a;
    if k < n {
      forall i | 0 <= i < k ensures !a[i].end {
        assert a[i] == full[i];
      }
    } else {
      assert a == full;
      assert a[n - 1].end;
    }
  }

  /** Calls fed `a + b` are calls fed `a` followed by calls fed `b`. */
  lemma {:induction false} FeedSplit<L, I>(step: (L, I) -> Transition<L>, l: L, a: seq<I>, b: seq<I>)
    ensures var x := Feed(step, l, a);
            var y := Feed(step, x.last, b);
            Feed(step, l, a + b) == Run(y.last, x.trace + y.trace)
    decreases |a|
  {
    if a != [] {
      var t := step(l, a[0]);
      assert (a + b)[0] == a[0] && (a + b)[1..] == a[1..] + b;
      FeedSplit(step, t.next, a[1..], b);
      var x' := Feed(step, t.next, a[1..]);
      var y := Feed(step, x'.last, b);
      assert [t.effect] + (x'.trace + y.trace) == ([t.effect] + x'.trace) + y.trace;
    } else {
      assert a + b == b;
      assert [] + Feed(step, l, b).trace == Feed(step, l, b).trace;
    }
  }

  /** The shared shell fields, updated in place by the command functions. */
  class ShellState {
    /** shell_state.output */
    var output: Message
    /** shell_fp == shell_state_output */
    var routedToOutput: bool
    /** shell_state.command_fp != 0 */
    var commandActive: bool
    /** shell_state.busy, set by the transport while a write is in flight */
    var busy: bool
    /** shell_state.input, the line that selected the command */
    var input: string
    /** The level of the LED pin */
    var led: bool
    /** Every level written to the LED pin, oldest first */
    ghost var ledLog: seq<bool>
    /** Every message written to the output buffer, oldest first */
    ghost var sent: seq<Message>

    ghost function View(): ShellView
      reads this
    {
      ShellView(output, routedToOutput, commandActive, led, ledLog, sent)
    }

    /** The pin holds the last level written to it. */
    ghost predicate Valid()
      reads this
    {
      |ledLog| > 0 ==> led == ledLog[|ledLog| - 1]
    }

    /** A shell that has just activated a command selected by `line`. */
    constructor (line: string, level: bool)
      ensures Valid() && input == line && !busy && led == level
      ensures View() == ShellView(NoMessage, false, true, level, [], [])
    {
      output := NoMessage;
      routedToOutput := false;
      commandActive := true;
      busy := false;
      input := line;
      led := level;
      ledLog := [];
      sent := [];
    }

    /** The dispatcher activating the next command, selected by `line`. */
    method Activate(line: string)
      modifies this
      ensures input == line && busy == old(busy)
      ensures View() == old(View()).(routed := false, active := true)
    {
      input := line;
      routedToOutput := false;
      commandActive := true;
    }

    /** sprintf into shell_state.output. */
    method Write(m: Message)
      modifies this
      ensures input == old(input) && busy == old(busy)
      ensures View() == Apply(old(View()), Quiet.(write := Some(m)))
    {
      output := m;
      sent := sent + [m];
    }

    /** The transport setting or clearing its busy flag between ticks. */
    method SetBusy(b: bool)
      modifies this
      ensures busy == b && input == old(input)
      ensures Valid() == old(Valid()) && View() == old(View())
    {
      busy := b;
    }

    /** `shell_fp = shell_state_output`: the next tick shows the output. */
    method Route()
      modifies this
      ensures Valid() == old(Valid()) && input == old(input) && busy == old(busy)
      ensures View() == Apply(old(View()), Quiet.(route := true))
    {
      routedToOutput := true;
    }

    /** The RETURN macro's part in the shell: route to the output state and
        clear `command_fp`, so the prompt comes back after this call. */
    method Return()
      modifies this
      ensures Valid() == old(Valid()) && input == old(input) && busy == old(busy)
      ensures View() == Apply(old(View()), Ending)
    {
      routedToOutput := true;
      commandActive := false;
    }

    /** The LED macro: HAL_GPIO_WritePin on the LED pin. */
    method WriteLed(level: bool)
      requires Valid()
      modifies this
      ensures Valid() && input == old(input) && busy == old(busy)
      ensures View() == Apply(old(View()), Quiet.(led := Some(level)))
    {
      led := level;
      ledLog := ledLog + [level];
    }

    /** HAL_GPIO_TogglePin on the LED pin: a write of the opposite level. */
    method ToggleLed()
      requires Valid()
      modifies this
      ensures Valid() && input == old(input) && busy == old(busy)
      ensures View() == Apply(old(View()), Quiet.(led := Some(!old(led))))
    {
      led := !led;
      ledLog := ledLog + [led];
    }
  }

  /** Applying the effects of one call after another is applying the whole trace. */
  lemma ApplyAllSnoc(s: ShellView, tr: seq<Effect>, e: Effect)
    ensures ApplyAll(s, tr + [e]) == Apply(ApplyAll(s, tr), e)
  {
    assert (tr + [e])[..|tr|] == tr;
  }
}
