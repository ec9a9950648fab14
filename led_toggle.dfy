/** `command_led_toggle`: a command so short it needs no state machine. One
    call inverts the LED pin, routes the shell to its output state and clears
    `command_fp`, so the shell is back at the prompt after that single call. */
module LedToggleCommand {
  import opened Shell

  /** The effect of one call when the pin reads `level`. */
  function ToggleEffect(level: bool): Effect
  {
    Quiet.(led := Some(!level), route := true, end := true)
  }

  /** One call inverts the pin, logs the new level, writes no message, and
      returns to the prompt. */
  lemma ToggleOnce(s: ShellView)
    ensures var r := Apply(s, ToggleEffect(s.led));
            r.led == !s.led && r.ledLog == s.ledLog + [!s.led] &&
            r.routed && !r.active &&
            r.output == s.output && r.sent == s.sent
  {
  }

  /** Toggling twice puts the pin back where it was, after writing the
      opposite level and then the original one. */
  lemma ToggleTwice(s: ShellView)
    ensures var once := Apply(s, ToggleEffect(s.led));
            var twice := Apply(once, ToggleEffect(once.led));
            twice.led == s.led && twice.ledLog == s.ledLog + [!s.led, s.led] &&
            twice.sent == s.sent
  {
    var once := Apply(s, ToggleEffect(s.led));
    ToggleOnce(s);
    ToggleOnce(once);
    assert once.ledLog + [s.led] == s.ledLog + [!s.led, s.led];
  }

  /** One call of command_led_toggle: ends after this call, with the LED
      inverted and nothing else of the shell changed. */
  method CommandLedToggle(shell: ShellState)
    requires shell.Valid()
    modifies shell
    ensures shell.Valid() && shell.input == old(shell.input) && shell.busy == old(shell.busy)
    ensures shell.View() == Apply(old(shell.View()), ToggleEffect(old(shell.led)))
    ensures shell.led == !old(shell.led) && shell.ledLog == old(shell.ledLog) + [shell.led]
    ensures shell.routedToOutput && !shell.commandActive
    ensures shell.output == old(shell.output) && shell.sent == old(shell.sent)
  {
    shell.ToggleLed();
    shell.Return();
  }
}
