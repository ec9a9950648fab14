/** `command_load` (shell_pfs.c:123-159): a demo command that prints a counter
    500 times, waiting for the transport to be idle before each print and
    burning CPU time between prints. Its statics are the resume point `state`,
    the counter `cnt` and the accumulator `accu`. */
module LoadCommand {
  import opened Shell

  /** Prints per activation: the command ends when `cnt` reaches this. */
  const Prints := 500
  /** Iterations of the time-wasting loop. */
  const Spins := 10000
  /** The divisor applied to `accu` when it is printed. */
  const Scale := 10000

  /** The statics of command_load. */
  datatype LoadLocals = LoadLocals(state: int, cnt: int, accu: int)

  /** C's `/` on a positive divisor: it truncates toward zero. */
  function CDiv(a: int, b: int): (q: int)
    requires b > 0
    ensures a >= 0 ==> q * b <= a < q * b + b
    ensures a < 0 ==> q * b - b < a <= q * b
  {
    if a >= 0 then a / b else -((-a) / b)
  }

  /** 0 + 1 + ... + (n - 1): what one pass of the time-wasting loop adds to
      `accu` for each unit of `cnt`. */
  function SumBelow(n: nat): nat
  {
    if n == 0 then 0 else SumBelow(n - 1) + (n - 1)
  }

  lemma {:induction false} SumBelowClosedForm(n: nat)
    ensures 2 * SumBelow(n) == n * (n - 1)
  {
    if n > 0 {
      SumBelowClosedForm(n - 1);
      assert n * (n - 1) == (n - 1) * (n - 2) + 2 * (n - 1);
    }
  }

  /** What one pass of the time-wasting loop adds to `accu` per unit of `cnt`. */
  const SpinGain := 49995000

  /** The loop's k = 0 .. 9999 sum to SpinGain. */
  lemma SpinsAdd()
    ensures SumBelow(Spins) == SpinGain
  {
    SumBelowClosedForm(Spins);
  }

  /** One call of command_load with the transport's busy flag at `busy`.
      State 0 waits for the flag to clear; state 1 prints the counter (and the
      scaled accumulator), counts, and has the buffer sent; state 2 ends the
      command after the 500th print, resetting the counter, and otherwise
      wastes time. */
  function LoadStep(l: LoadLocals, busy: bool): (r: Transition<LoadLocals>)
    ensures r.effect.led.None?
    ensures r.effect.write.Some? <==> l.state == 1
    ensures r.effect.end <==> l.state == 2 && l.cnt == Prints
    ensures r.effect.end ==> r.next.state == 0 && r.next.cnt == 0
  {
    if l.state == 0 then
      Transition(if busy then l else l.(state := 1), Quiet)
    else if l.state == 1 then
      Transition(LoadLocals(2, l.cnt + 1, l.accu),
                 Quiet.(write := Some(Values(l.cnt, CDiv(l.accu, Scale))), route := true))
    else if l.state == 2 then
      if l.cnt == Prints then
        Transition(LoadLocals(0, 0, l.accu), Quiet.(route := true, end := true))
      else
        Transition(LoadLocals(0, l.cnt, l.accu + l.cnt * SpinGain), Quiet)
    else
      Transition(l, Quiet)
  }

  /** command_load never writes the LED pin. */
  lemma LoadStepLeavesLed(l: LoadLocals, busy: bool)
    ensures LoadStep(l, busy).effect.led == None
  {
  }

  /** The statics the command can be in between calls: waiting or about to
      print with fewer than 500 prints done, or just after a print. */
  predicate LoadInv(l: LoadLocals)
  {
    ((l.state == 0 || l.state == 1) && 0 <= l.cnt < Prints)
    || (l.state == 2 && 1 <= l.cnt <= Prints)
  }

  /** One call keeps LoadInv unless it ends the command, and then the
      statics are back at the start. */
  lemma LoadStepKeepsInv(l: LoadLocals, busy: bool)
    requires LoadInv(l)
    ensures var t := LoadStep(l, busy);
            if t.effect.end then t.next.state == 0 && t.next.cnt == 0 && l.cnt == Prints
            else LoadInv(t.next)
  {
  }

  /** While the flag is set a waiting command does nothing at all; only a
      clear flag moves it on, and it writes the buffer only in the state that
      a clear flag leads to. */
  lemma LoadPollsBusy(l: LoadLocals, busy: bool)
    ensures l.state == 0 && busy ==> LoadStep(l, busy) == Transition(l, Quiet)
    ensures LoadStep(l, busy).next.state == 1 ==> l.state == 0 && !busy
    ensures LoadStep(l, busy).effect.write.Some? ==> l.state == 1
  {
  }

  /** Every write in the trace comes on the call right after one that saw the
      busy flag clear. */
  predicate WritesAfterIdle(tr: seq<Effect>, bs: seq<bool>)
    requires |tr| == |bs|
  {
    forall i :: 0 <= i < |bs| && tr[i].write.Some? ==> 0 < i && !bs[i - 1]
  }

  /** In any sequence of calls that does not start about to print, every
      write to the output buffer comes on the call right after one that saw
      the busy flag clear. */
  lemma {:induction false} LoadWritesOnlyAfterIdle(l: LoadLocals, bs: seq<bool>)
    requires l.state != 1
    ensures WritesAfterIdle(Feed(LoadStep, l, bs).trace, bs)
    decreases |bs|
  {
    var tr := Feed(LoadStep, l, bs).trace;
    if bs != [] {
      var t := LoadStep(l, bs[0]);
      var rest := Feed(LoadStep, t.next, bs[1..]);
      assert tr == [t.effect] + rest.trace;
      LoadPollsBusy(l, bs[0]);
      if t.next.state != 1 {
        LoadWritesOnlyAfterIdle(t.next, bs[1..]);
        forall i | 0 <= i < |bs| && tr[i].write.Some? ensures 0 < i && !bs[i - 1] {
          assert i != 0;
          var j := i - 1;
          assert tr[i] == rest.trace[j];
          assert 0 <= j < |bs[1..]| && rest.trace[j].write.Some?;
          assert 0 < j && !bs[1..][j - 1];
          assert bs[1..][j - 1] == bs[i - 1];
        }
      } else if |bs| > 1 {
        var u := LoadStep(t.next, bs[1]);
        var rest2 := Feed(LoadStep, u.next, bs[2..]);
        assert bs[1..][0] == bs[1] && bs[1..][1..] == bs[2..];
        assert rest.trace == [u.effect] + rest2.trace;
        assert u.next.state == 2;
        LoadWritesOnlyAfterIdle(u.next, bs[2..]);
        forall i | 0 <= i < |bs| && tr[i].write.Some? ensures 0 < i && !bs[i - 1] {
          if i >= 2 {
            var j := i - 2;
            assert tr[i] == rest2.trace[j];
            assert 0 <= j < |bs[2..]| && rest2.trace[j].write.Some?;
            assert 0 < j && !bs[2..][j - 1];
            assert bs[2..][j - 1] == bs[i - 1];
          } else {
            assert i == 1;
          }
        }
      }
    }
  }

  /** The counter values printed by a sequence of messages, if all of them are
      `Values` messages counting up from `c`. */
  predicate CountsFrom(ms: seq<Message>, c: int)
  {
    forall i :: 0 <= i < |ms| ==> ms[i].Values? && ms[i].count == c + i
  }

  /** Within one activation (no call but the last ends the command), the
      command prints consecutive counter values, starting where its counter
      stood; if the last call ends the command, the 500th value was just
      printed and the counter and state are back at zero. */
  lemma {:induction false} LoadCountsUp(l: LoadLocals, bs: seq<bool>)
    requires LoadInv(l)
    requires NoEndBeforeLast(Feed(LoadStep, l, bs).trace)
    ensures var r := Feed(LoadStep, l, bs);
            var n := |Written(r.trace)|;
            CountsFrom(Written(r.trace), l.cnt)
            && if EndsAtLast(r.trace) then l.cnt + n == Prints && r.last.state == 0 && r.last.cnt == 0
               else LoadInv(r.last) && r.last.cnt == l.cnt + n
    decreases |bs|
  {
    if bs != [] {
      var t := LoadStep(l, bs[0]);
      var rest := Feed(LoadStep, t.next, bs[1..]);
      var tr := [t.effect] + rest.trace;
      assert Feed(LoadStep, l, bs) == Run(rest.last, tr);
      WrittenCons(t.effect, rest.trace);
      LoadStepKeepsInv(l, bs[0]);
      if t.effect.end {
        EndingCallIsLast(tr);
        assert rest.trace == [];
      } else {
        EndsAfterQuietStart(t.effect, rest.trace);
        LoadCountsUp(t.next, bs[1..]);
        if l.state == 1 {
          CountsFromCons(Values(l.cnt, CDiv(l.accu, Scale)), Written(rest.trace));
        }
      }
    }
  }

  /** A print of `m.count` in front of the values counting up from the next one. */
  lemma CountsFromCons(m: Message, w: seq<Message>)
    requires m.Values? && CountsFrom(w, m.count + 1)
    ensures CountsFrom([m] + w, m.count)
  {
    var ms := [m] + w;
    forall i | 0 <= i < |ms| ensures ms[i].Values? && ms[i].count == m.count + i {
      if i > 0 {
        assert ms[i] == w[i - 1];
      }
    }
  }

  /** `n` calls with the busy flag clear. */
  function Idle(n: nat): (r: seq<bool>)
    ensures |r| == n && forall i :: 0 <= i < n ==> !r[i]
  {
    seq(n, i => false)
  }

  /** The print of counter value `c` with the accumulator at `a`. */
  function Printing(c: int, a: int): Effect
  {
    Quiet.(write := Some(Values(c, CDiv(a, Scale))), route := true)
  }

  /** Three calls with the flag clear, from waiting with the counter at
      `c` below 499: a poll that sees the flag clear, the print of `c`, then
      a call that wastes time. */
  lemma LoadIdleCycle(c: int, a: int)
    requires 0 <= c < Prints - 1
    ensures Feed(LoadStep, LoadLocals(0, c, a), [false, false, false])
            == Run(LoadLocals(0, c + 1, a + (c + 1) * SpinGain), [Quiet, Printing(c, a), Quiet])
  {
    var ff := [false, false, false];
    assert ff[1..] == [false, false] && ff[1..][1..] == [false] && ff[1..][1..][1..] == [];
  }

  /** The last three calls of an activation: the poll, the print of 499,
      and the call that returns to the prompt with the counter reset. */
  lemma LoadIdleLastCycle(a: int)
    ensures Feed(LoadStep, LoadLocals(0, Prints - 1, a), [false, false, false])
            == Run(LoadLocals(0, 0, a), [Quiet, Printing(Prints - 1, a), Ending])
  {
    var ff := [false, false, false];
    assert ff[1..] == [false, false] && ff[1..][1..] == [false] && ff[1..][1..][1..] == [];
  }

  lemma IdleCons(k: nat)
    ensures Idle(3 * (k + 1)) == [false, false, false] + Idle(3 * k)
  {
  }

  /** With the transport never busy, every three calls print one value; the
      call after the 500th print ends the command. */
  lemma {:induction false} LoadIdleRun(c: int, a: int)
    requires 0 <= c < Prints
    ensures var r := Feed(LoadStep, LoadLocals(0, c, a), Idle(3 * (Prints - c)));
            EndsAtLast(r.trace) && |Written(r.trace)| == Prints - c
            && r.last.state == 0 && r.last.cnt == 0
    decreases Prints - c
  {
    if c + 1 == Prints {
      IdleRunLast(a);
    } else {
      var next := LoadLocals(0, c + 1, a + (c + 1) * SpinGain);
      LoadIdleRun(c + 1, next.accu);
      IdleRunStep(c, a, Feed(LoadStep, next, Idle(3 * (Prints - c - 1))));
    }
  }

  /** The last activation's worth of idle calls: one print, then the end. */
  lemma IdleRunLast(a: int)
    ensures var r := Feed(LoadStep, LoadLocals(0, Prints - 1, a), Idle(3));
            EndsAtLast(r.trace) && |Written(r.trace)| == 1
            && r.last.state == 0 && r.last.cnt == 0
  {
    assert Idle(3) == [false, false, false];
    LoadIdleLastCycle(a);
    ThreeCallTrace(Quiet, Printing(Prints - 1, a), Ending);
  }

  /** Three idle calls that print `c` in front of the rest of the activation. */
  lemma IdleRunStep(c: int, a: int, rest: Run<LoadLocals>)
    requires 0 <= c < Prints - 1
    requires rest == Feed(LoadStep, LoadLocals(0, c + 1, a + (c + 1) * SpinGain), Idle(3 * (Prints - c - 1)))
    requires EndsAtLast(rest.trace) && |Written(rest.trace)| == Prints - c - 1
    ensures var r := Feed(LoadStep, LoadLocals(0, c, a), Idle(3 * (Prints - c)));
            EndsAtLast(r.trace) && |Written(r.trace)| == Prints - c
            && r.last == rest.last
  {
    var l := LoadLocals(0, c, a);
    var cyc := [Quiet, Printing(c, a), Quiet];
    IdleCons(Prints - c - 1);
    FeedSplit(LoadStep, l, [false, false, false], Idle(3 * (Prints - c - 1)));
    LoadIdleCycle(c, a);
    assert Feed(LoadStep, l, Idle(3 * (Prints - c))) == Run(rest.last, cyc + rest.trace);
    ThreeCallTrace(Quiet, Printing(c, a), Quiet);
    EndsAtLastAppend(cyc, rest.trace);
    WrittenAppend(cyc, rest.trace);
  }

  /** A whole activation with the transport never busy: 1500 calls, the
      values 0, 1, ..., 499 printed in order, the command ended by the last
      call and by no other, and the statics back at their start. */
  lemma LoadIdleActivation(a: int)
    ensures var r := Feed(LoadStep, LoadLocals(0, 0, a), Idle(3 * Prints));
            EndsAtLast(r.trace) && |r.trace| == 1500
            && |Written(r.trace)| == Prints && CountsFrom(Written(r.trace), 0)
            && r.last.state == 0 && r.last.cnt == 0
  {
    LoadIdleRun(0, a);
    LoadCountsUp(LoadLocals(0, 0, a), Idle(3 * Prints));
  }

  /** What one activation has printed after any number of calls: the values
      0, 1, ... in order; at most 500 while it runs, and once the command has
      ended, exactly 500 of them, with the statics back at their start. */
  lemma LoadActivationPrints(start: LoadLocals, bs: seq<bool>)
    requires start.state == 0 && start.cnt == 0
    requires NoEndBeforeLast(Feed(LoadStep, start, bs).trace)
    ensures var r := Feed(LoadStep, start, bs);
            CountsFrom(Written(r.trace), 0)
            && (NoEnd(r.trace) ==> |Written(r.trace)| <= Prints)
            && (!NoEnd(r.trace) ==> |Written(r.trace)| == Prints && r.last.state == 0 && r.last.cnt == 0)
  {
    var r := Feed(LoadStep, start, bs);
    LoadCountsUp(start, bs);
    if !NoEnd(r.trace) {
      var i :| 0 <= i < |r.trace| && r.trace[i].end;
      assert i == |r.trace| - 1;
      assert EndsAtLast(r.trace);
    }
  }

  /** The messages sent by one activation, from the shared fields `v0`: the
      old ones kept, then the values 0, 1, ... in order, at most 500 while the
      command runs and exactly 500 once it has ended. */
  lemma LoadOutcome(start: LoadLocals, bs: seq<bool>, v0: ShellView)
    requires start.state == 0 && start.cnt == 0 && v0.active
    requires NoEndBeforeLast(Feed(LoadStep, start, bs).trace)
    ensures var r := Feed(LoadStep, start, bs);
            var v := ApplyAll(v0, r.trace);
            |v.sent| >= |v0.sent| && v.sent[..|v0.sent|] == v0.sent
            && CountsFrom(v.sent[|v0.sent|..], 0)
            && (v.active ==> |v.sent| <= |v0.sent| + Prints)
            && (!v.active ==> |v.sent| == |v0.sent| + Prints && r.last.state == 0 && r.last.cnt == 0)
  {
    var r := Feed(LoadStep, start, bs);
    var w := Written(r.trace);
    ApplyAllLogs(v0, r.trace);
    var v := ApplyAll(v0, r.trace);
    assert v.sent[|v0.sent|..] == w;
    assert v.sent[..|v0.sent|] == v0.sent;
    LoadActivationPrints(start, bs);
    ApplyAllActive(v0, r.trace);
  }

  /** A driver that stops at the first call ending the command, or when its
      flags run out, stops after exactly 1500 calls, with the command ended,
      when the first 1500 flags are clear. */
  lemma LoadIdleStops(start: LoadLocals, busyAt: seq<bool>, calls: nat)
    requires start.state == 0 && start.cnt == 0
    requires |busyAt| >= 3 * Prints && forall i :: 0 <= i < 3 * Prints ==> !busyAt[i]
    requires calls <= |busyAt|
    requires NoEndBeforeLast(Feed(LoadStep, start, busyAt[..calls]).trace)
    requires NoEnd(Feed(LoadStep, start, busyAt[..calls]).trace) ==> calls == |busyAt|
    ensures calls == 3 * Prints && !NoEnd(Feed(LoadStep, start, busyAt[..calls]).trace)
  {
    var idle := busyAt[..3 * Prints];
    assert idle == Idle(3 * Prints);
    var full := Feed(LoadStep, start, idle);
    LoadIdleActivation(start.accu);
    assert start == LoadLocals(0, 0, start.accu);
    var x := Feed(LoadStep, start, busyAt[..calls]);
    if calls <= 3 * Prints {
      assert busyAt[..calls] + idle[calls..] == idle;
      FeedSplit(LoadStep, start, busyAt[..calls], idle[calls..]);
      if calls < 3 * Prints {
        EndsAtLastPrefix(x.trace, Feed(LoadStep, x.last, idle[calls..]).trace);
        assert false;
      }
      assert busyAt[..calls] == idle;
    } else {
      assert idle + busyAt[3 * Prints..calls] == busyAt[..calls];
      FeedSplit(LoadStep, start, idle, busyAt[3 * Prints..calls]);
      EndsAtLastExtended(full.trace, Feed(LoadStep, full.last, busyAt[3 * Prints..calls]).trace);
      assert false;
    }
  }

  /** One more tick of an activation fed the busy flags `busyAt`: how the
      statics, the shared fields and the trace's endings move on. */
  lemma LoadTick(start: LoadLocals, busyAt: seq<bool>, calls: nat, v0: ShellView)
    requires calls < |busyAt|
    requires NoEnd(Feed(LoadStep, start, busyAt[..calls]).trace)
    ensures var before := Feed(LoadStep, start, busyAt[..calls]);
            var t := LoadStep(before.last, busyAt[calls]);
            var after := Feed(LoadStep, start, busyAt[..calls + 1]);
            after.last == t.next
            && ApplyAll(v0, after.trace) == Apply(ApplyAll(v0, before.trace), t.effect)
            && NoEndBeforeLast(after.trace)
            && NoEnd(after.trace) == !t.effect.end
            && t.effect.led == None
  {
    var before := Feed(LoadStep, start, busyAt[..calls]);
    var t := LoadStep(before.last, busyAt[calls]);
    FeedNext(LoadStep, start, busyAt[..calls], busyAt[calls]);
    assert busyAt[..calls] + [busyAt[calls]] == busyAt[..calls + 1];
    ApplyAllSnoc(v0, before.trace, t.effect);
    SnocEnds(before.trace, t.effect);
    LoadStepLeavesLed(before.last, busyAt[calls]);
  }

  /** command_load's statics, updated by each call. */
  class LoadCommand {
    var state: int
    var cnt: int
    /** `static volatile long long accu` */
    var accu: int

    function Locals(): LoadLocals
      reads this
    {
      LoadLocals(state, cnt, accu)
    }

    /** The statics at power-up: all zero. */
    constructor ()
      ensures Locals() == LoadLocals(0, 0, 0)
    {
      state, cnt, accu := 0, 0, 0;
    }

    /** One call of command_load, reading the transport's busy flag. */
    method Step(shell: ShellState)
      requires shell.Valid()
      modifies this, shell
      ensures shell.Valid() && shell.input == old(shell.input) && shell.busy == old(shell.busy)
      ensures Locals() == LoadStep(old(Locals()), old(shell.busy)).next
      ensures shell.View() == Apply(old(shell.View()), LoadStep(old(Locals()), old(shell.busy)).effect)
    {
      QuietChangesNothing(shell.View());
      if state == 0 {
        if !shell.busy {
          state := 1;
        }
      } else if state == 1 {
        shell.Write(Values(cnt, CDiv(accu, Scale)));
        cnt := cnt + 1;
        shell.Route();
        state := 2;
      } else if state == 2 {
        state := 0;
        if cnt == Prints {
          cnt := 0;
          shell.Return();
        } else {
          WasteTime();
        }
      }
    }

    /** The time-wasting loop: `accu += k * cnt` for k from 0 to 9999. */
    method WasteTime()
      modifies this`accu
      ensures accu == old(accu) + cnt * SpinGain
    {
      SpinsAdd();
      var k := 0;
      while k < Spins
        invariant 0 <= k <= Spins
        invariant accu == old(accu) + cnt * SumBelow(k)
      {
        assert cnt * SumBelow(k + 1) == cnt * SumBelow(k) + k * cnt;
        accu := accu + k * cnt;
        k := k + 1;
      }
    }

    /** Calls command_load once per tick with the busy flags `busyAt`, until
        the command clears command_fp or the flags run out: the statics and
        the shared fields follow `Feed(LoadStep, ...)` over the flags used. */
    method Drive(shell: ShellState, busyAt: seq<bool>) returns (calls: nat)
      requires shell.Valid() && shell.commandActive
      modifies this, shell
      ensures shell.Valid() && calls <= |busyAt|
      ensures shell.input == old(shell.input)
      ensures Locals() == Feed(LoadStep, old(Locals()), busyAt[..calls]).last
      ensures shell.View() == ApplyAll(old(shell.View()), Feed(LoadStep, old(Locals()), busyAt[..calls]).trace)
      ensures NoEndBeforeLast(Feed(LoadStep, old(Locals()), busyAt[..calls]).trace)
      ensures shell.commandActive == NoEnd(Feed(LoadStep, old(Locals()), busyAt[..calls]).trace)
      ensures shell.commandActive ==> calls == |busyAt|
      ensures shell.led == old(shell.led) && shell.ledLog == old(shell.ledLog)
    {
      ghost var start := Locals();
      ghost var v0 := shell.View();
      calls := 0;
      while shell.commandActive && calls < |busyAt|
        invariant calls <= |busyAt| && shell.Valid()
        invariant shell.input == old(shell.input)
        invariant Locals() == Feed(LoadStep, start, busyAt[..calls]).last
        invariant shell.View() == ApplyAll(v0, Feed(LoadStep, start, busyAt[..calls]).trace)
        invariant NoEndBeforeLast(Feed(LoadStep, start, busyAt[..calls]).trace)
        invariant shell.commandActive == NoEnd(Feed(LoadStep, start, busyAt[..calls]).trace)
        invariant shell.led == v0.led && shell.ledLog == v0.ledLog
        decreases |busyAt| - calls
      {
        shell.SetBusy(busyAt[calls]);
        Step(shell);
        LoadTick(start, busyAt, calls, v0);
        calls := calls + 1;
      }
    }

    /** The shell calling command_load once per tick, with the transport's
        busy flag at `busyAt[i]` on tick `i`, until the command clears
        command_fp or the ticks run out. The statics and the shared fields are
        those of `Feed(LoadStep, ...)` over the flags used. The values printed
        count up from 0: at most 500 while the command runs, and exactly 500,
        with its statics back at their start, once it has ended. With the
        transport idle, the command ends after exactly 1500 calls. */
    method Activation(shell: ShellState, busyAt: seq<bool>) returns (calls: nat)
      requires shell.Valid() && shell.commandActive && state == 0 && cnt == 0
      modifies this, shell
      ensures shell.Valid() && calls <= |busyAt|
      ensures shell.input == old(shell.input)
      ensures Locals() == Feed(LoadStep, old(Locals()), busyAt[..calls]).last
      ensures shell.View() == ApplyAll(old(shell.View()), Feed(LoadStep, old(Locals()), busyAt[..calls]).trace)
      ensures shell.commandActive ==> calls == |busyAt|
      ensures shell.commandActive ==> |shell.sent| <= |old(shell.sent)| + Prints
      ensures |busyAt| >= 3 * Prints && (forall i :: 0 <= i < 3 * Prints ==> !busyAt[i]) ==>
                calls == 3 * Prints && !shell.commandActive
      ensures shell.led == old(shell.led) && shell.ledLog == old(shell.ledLog)
      ensures |shell.sent| >= |old(shell.sent)| && shell.sent[..|old(shell.sent)|] == old(shell.sent)
      ensures CountsFrom(shell.sent[|old(shell.sent)|..], 0)
      ensures !shell.commandActive ==> |shell.sent| == |old(shell.sent)| + Prints && state == 0 && cnt == 0
    {
      ghost var start := Locals();
      ghost var v0 := shell.View();
      calls := Drive(shell, busyAt);
      LoadOutcome(start, busyAt[..calls], v0);
      if |busyAt| >= 3 * Prints && forall i :: 0 <= i < 3 * Prints ==> !busyAt[i] {
        LoadIdleStops(start, busyAt, calls);
      }
    }
  }
}
