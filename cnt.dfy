/** `command_cnt` (shell_pfs.c:92-105, the version built with the
    state-machine macros): a command that reports how many times it has run.
    Its statics are the resume point `state` and the counter `cnt`. */
module CntCommand {
  import opened Shell

  /** The statics of command_cnt. */
  datatype CntLocals = CntLocals(state: int, cnt: int)

  /** One call of command_cnt. State 0 prints the counter and has the buffer
      sent; state 1 counts the activation and returns to the prompt (the RETURN
      macro: state = 0, shell_fp = output, command_fp = 0). */
  function CntStep(l: CntLocals): (r: Transition<CntLocals>)
    ensures r.effect.led.None?
    ensures r.effect.write.Some? <==> l.state == 0
    ensures r.effect.end <==> l.state == 1
    ensures r.effect.end ==> r.next == CntLocals(0, l.cnt + 1)
  {
    if l.state == 0 then
      Transition(l.(state := 1), Quiet.(write := Some(CalledTimes(l.cnt)), route := true))
    else if l.state == 1 then
      Transition(CntLocals(0, l.cnt + 1), Ending)
    else
      Transition(l, Quiet)
  }

  /** The reports of `k` activations, the first one saying `c`. */
  function Reports(c: int, k: nat): seq<Message>
  {
    seq(k, i => CalledTimes(c + i))
  }

  /** An activation takes two calls: the first writes "Called c times" and has
      it sent, the second ends the command; the counter is then one higher and
      the state machine back at its start. */
  lemma CntActivation(c: int)
    ensures var r := Iterate(CntStep, CntLocals(0, c), 2);
            r.last == CntLocals(0, c + 1)
            && Written(r.trace) == [CalledTimes(c)]
            && LedWrites(r.trace) == []
            && EndsAtLast(r.trace)
            && r.trace[0].route && r.trace[1].route
  {
    var r := Iterate(CntStep, CntLocals(0, c), 2);
    assert r.trace == [r.trace[0], r.trace[1]];
    TwoCallLogs(r.trace[0], r.trace[1]);
  }

  /** The effect of the first call of an activation: report `c` and have it sent. */
  function Report(c: int): Effect
  {
    Quiet.(write := Some(CalledTimes(c)), route := true)
  }

  /** The calls of `k` activations, the first one reporting `c`. */
  function CntTrace(c: int, k: nat): seq<Effect>
    decreases k
  {
    if k == 0 then [] else [Report(c), Ending] + CntTrace(c + 1, k - 1)
  }

  /** `2 * k` calls make `k` activations. */
  lemma {:induction false} CntRun(c: int, k: nat)
    ensures Iterate(CntStep, CntLocals(0, c), 2 * k) == Run(CntLocals(0, c + k), CntTrace(c, k))
    decreases k
  {
    if k > 0 {
      var l := CntLocals(0, c);
      assert Iterate(CntStep, l, 2) == Run(CntLocals(0, c + 1), [Report(c), Ending]);
      CntRun(c + 1, k - 1);
      IterateCompose(CntStep, l, 2, CntLocals(0, c + 1), [Report(c), Ending],
                     2 * (k - 1), CntLocals(0, c + k), CntTrace(c + 1, k - 1));
      assert 2 + 2 * (k - 1) == 2 * k;
    }
  }

  /** `k` activations write the reports c, c+1, ..., c+k-1. */
  lemma {:induction false} CntTraceWrites(c: int, k: nat)
    ensures Written(CntTrace(c, k)) == Reports(c, k)
    decreases k
  {
    if k > 0 {
      var rest := CntTrace(c + 1, k - 1);
      CntTraceWrites(c + 1, k - 1);
      WritesStep(c, k, rest);
    }
  }

  /** The reports of one activation followed by those of the next `k - 1`. */
  lemma WritesStep(c: int, k: nat, rest: seq<Effect>)
    requires k > 0 && Written(rest) == Reports(c + 1, k - 1)
    ensures Written([Report(c), Ending] + rest) == Reports(c, k)
  {
    CntPairLogs(c);
    WrittenAppend([Report(c), Ending], rest);
    ReportsCons(c, k);
  }

  /** `k` activations write no LED level. */
  lemma {:induction false} CntTraceLeds(c: int, k: nat)
    ensures LedWrites(CntTrace(c, k)) == []
    decreases k
  {
    if k > 0 {
      var rest := CntTrace(c + 1, k - 1);
      CntTraceLeds(c + 1, k - 1);
      LedsStep(c, rest);
    }
  }

  /** One activation in front of calls that write no LED level writes none either. */
  lemma LedsStep(c: int, rest: seq<Effect>)
    requires LedWrites(rest) == []
    ensures LedWrites([Report(c), Ending] + rest) == []
  {
    CntPairLogs(c);
    LedWritesAppend([Report(c), Ending], rest);
  }

  /** One activation writes its report and no LED level. */
  lemma CntPairLogs(c: int)
    ensures Written([Report(c), Ending]) == [CalledTimes(c)]
    ensures LedWrites([Report(c), Ending]) == []
  {
    TwoCallLogs(Report(c), Ending);
  }

  /** In `k` activations the odd-numbered calls, and only they, end the command. */
  lemma {:induction false} CntTraceEnds(c: int, k: nat)
    ensures |CntTrace(c, k)| == 2 * k
    ensures forall i :: 0 <= i < 2 * k ==> (CntTrace(c, k)[i].end <==> i % 2 == 1)
    decreases k
  {
    if k > 0 {
      var rest := CntTrace(c + 1, k - 1);
      var tr := CntTrace(c, k);
      CntTraceEnds(c + 1, k - 1);
      assert tr == [Report(c), Ending] + rest;
      forall i | 0 <= i < 2 * k
        ensures tr[i].end <==> i % 2 == 1
      {
        if i >= 2 {
          assert tr[i] == rest[i - 2];
          assert (i - 2) % 2 == i % 2;
        }
      }
    }
  }

  /** `k` activations in a row report c, c+1, ..., c+k-1, in that order; each
      ends on its second call and on no other. */
  lemma CntActivations(c: int, k: nat)
    ensures var r := Iterate(CntStep, CntLocals(0, c), 2 * k);
            r.last == CntLocals(0, c + k)
            && Written(r.trace) == Reports(c, k)
            && LedWrites(r.trace) == []
            && forall i :: 0 <= i < 2 * k ==> (r.trace[i].end <==> i % 2 == 1)
  {
    CntRun(c, k);
    CntTraceWrites(c, k);
    CntTraceLeds(c, k);
    CntTraceEnds(c, k);
  }

  lemma ReportsCons(c: int, k: nat)
    requires k > 0
    ensures Reports(c, k) == [CalledTimes(c)] + Reports(c + 1, k - 1)
  {
    var a := Reports(c, k);
    var b := [CalledTimes(c)] + Reports(c + 1, k - 1);
    assert |a| == |b|;
    forall i | 0 <= i < k ensures a[i] == b[i] {
      if i > 0 {
        assert b[i] == Reports(c + 1, k - 1)[i - 1];
      }
    }
  }

  /** command_cnt's statics, updated by each call. */
  class CntCommand {
    var state: int
    var cnt: int

    function Locals(): CntLocals
      reads this
    {
      CntLocals(state, cnt)
    }

    /** The statics at power-up: both zero. */
    constructor ()
      ensures Locals() == CntLocals(0, 0)
    {
      state := 0;
      cnt := 0;
    }

    /** One call of command_cnt. */
    method Step(shell: ShellState)
      requires shell.Valid()
      modifies this, shell
      ensures shell.Valid() && shell.input == old(shell.input) && shell.busy == old(shell.busy)
      ensures Locals() == CntStep(old(Locals())).next
      ensures shell.View() == Apply(old(shell.View()), CntStep(old(Locals())).effect)
    {
      QuietChangesNothing(shell.View());
      if state == 0 {
        shell.Write(CalledTimes(cnt));
        shell.Route();
        state := 1;
      } else if state == 1 {
        cnt := cnt + 1;
        state := 0;
        shell.Return();
      }
    }

    /** The shell calling command_cnt until it clears command_fp: two calls,
        one report of the count so far, and the count one higher after. */
    method Activation(shell: ShellState) returns (calls: nat)
      requires shell.Valid() && shell.commandActive && state == 0
      modifies this, shell
      ensures shell.Valid() && !shell.commandActive && shell.routedToOutput
      ensures shell.input == old(shell.input) && shell.busy == old(shell.busy)
      ensures calls == 2
      ensures Locals() == CntLocals(0, old(cnt) + 1)
      ensures shell.sent == old(shell.sent) + [CalledTimes(old(cnt))]
      ensures shell.output == CalledTimes(old(cnt))
      ensures shell.led == old(shell.led) && shell.ledLog == old(shell.ledLog)
    {
      ghost var start := Locals();
      ghost var v0 := shell.View();
      CntActivation(start.cnt);
      calls := 0;
      while shell.commandActive
        invariant calls <= 2 && shell.Valid()
        invariant shell.input == old(shell.input) && shell.busy == old(shell.busy)
        invariant Locals() == Iterate(CntStep, start, calls).last
        invariant shell.View() == ApplyAll(v0, Iterate(CntStep, start, calls).trace)
        invariant shell.commandActive <==> calls < 2
        decreases 2 - calls
      {
        Step(shell);
        IterateNext(CntStep, start, calls);
        ApplyAllSnoc(v0, Iterate(CntStep, start, calls).trace, CntStep(Iterate(CntStep, start, calls).last).effect);
        calls := calls + 1;
      }
      var r := Iterate(CntStep, start, 2);
      ApplyAllLogs(v0, r.trace);
    }
  }
}
