/** One managed component: the fields of a UMCProcess record, the critical sections that
    change them, and the restart arithmetic (internal/supervisor/supervisor.go).
    Times are in nanoseconds, as in Go's time package. */
module UMCProcess {
  import opened Basics
  import opened Wrappers

  const SECOND: nat := 1_000_000_000
  const HEALTHY_PERIOD: nat := 300 * SECOND
  const MAX_BACKOFF_SECONDS := 60

  /** RestartPolicy is a string in the source; a text that is none of the three constants never restarts. */
  datatype Policy = Always | OnFailure | Never | Unknown(text: string)

  /** What Command.Wait reported. */
  datatype Exit = Clean | ExitError(code: int) | OtherError

  function ExitCode(exit: Exit): int {
    if exit.ExitError? then exit.code else 0
  }

  predicate ShouldRestart(policy: Policy, exit: Exit) {
    match policy
    case Always => true
    case OnFailure => ExitCode(exit) != 0
    case Never => false
    case Unknown(_) => false
  }

  /** The shared fields of a record. `command` says which of the processes the record has
      spawned, counted from 0, its Command field holds. */
  datatype Fields = Fields(name: string, port: int, command: nat, running: bool, policy: Policy,
                           restartCount: nat, lastRestartAt: Option<nat>, backoffSeconds: int)

  /** One pass through the restart bookkeeping: when LastRestartAt was stamped, the delay
      chosen, and whether the backoff was reset. */
  datatype Decision = Decision(at: nat, delay: int, reset: bool)

  function Started(name: string, port: int): Fields {
    Fields(name, port, 0, true, Always, 0, None, 1)
  }

  function MarkStopped(f: Fields): Fields {
    f.(running := false)
  }

  function Install(f: Fields, command: nat): Fields {
    f.(command := command, running := true)
  }

  predicate ResetsBackoff(f: Fields, sinceRead: nat) {
    f.lastRestartAt.Some? && sinceRead - f.lastRestartAt.value > HEALTHY_PERIOD
  }

  function NextBackoff(seconds: int): int {
    if seconds > MAX_BACKOFF_SECONDS then seconds
    else if seconds * 2 > MAX_BACKOFF_SECONDS then MAX_BACKOFF_SECONDS
    else seconds * 2
  }

  function CappedDelay(seconds: int): int {
    if seconds > MAX_BACKOFF_SECONDS then MAX_BACKOFF_SECONDS else seconds
  }

  function DecisionOf(f: Fields, sinceRead: nat, stamp: nat): Decision {
    if ResetsBackoff(f, sinceRead)
    then Decision(stamp, SECOND, true)
    else Decision(stamp, CappedDelay(f.backoffSeconds) * SECOND, false)
  }

  function Decide(f: Fields, sinceRead: nat, stamp: nat): Fields {
    f.(restartCount := f.restartCount + 1,
       lastRestartAt := Some(stamp),
       backoffSeconds := if ResetsBackoff(f, sinceRead) then 1 else NextBackoff(f.backoffSeconds))
  }

  /** The record as the source keeps it: an object whose fields are updated in place, each
      method one critical section of the record's lock. */
  class Record {
    const name: string
    const port: int
    var command: nat
    var running: bool
    var policy: Policy
    var restartCount: nat
    var lastRestartAt: Option<nat>
    var backoffSeconds: int

    ghost function View(): Fields
      reads this
    {
      Fields(name, port, command, running, policy, restartCount, lastRestartAt, backoffSeconds)
    }

    constructor (name: string, port: int)
      ensures View() == Started(name, port)
    {
      this.name, this.port := name, port;
      command, running, policy := 0, true, Always;
      restartCount, lastRestartAt, backoffSeconds := 0, None, 1;
    }

    /** The monitor, once Wait has returned. */
    method NoteExit() returns (restartPolicy: Policy)
      modifies this
      ensures View() == MarkStopped(old(View())) && restartPolicy == policy
    {
      running := false;
      restartPolicy := policy;
    }

    /** StopUMC, once its Wait has returned. */
    method Stopped()
      modifies this
      ensures View() == MarkStopped(old(View()))
    {
      running := false;
    }

    /** The monitor's restart bookkeeping; `sinceRead` and `stamp` are the two clock readings. */
    method DecideRestart(sinceRead: nat, stamp: nat) returns (d: Decision)
      modifies this
      ensures View() == Decide(old(View()), sinceRead, stamp)
      ensures d == DecisionOf(old(View()), sinceRead, stamp)
    {
      restartCount := restartCount + 1;
      var backoff := backoffSeconds * SECOND;
      if backoff > 60 * SECOND {
        backoff := 60 * SECOND;
      } else {
        backoffSeconds := backoffSeconds * 2;
        if backoffSeconds > 60 {
          backoffSeconds := 60;
        }
      }
      var reset := false;
      if lastRestartAt.Some? && sinceRead - lastRestartAt.value > 300 * SECOND {
        backoffSeconds := 1;
        backoff := SECOND;
        reset := true;
      }
      lastRestartAt := Some(stamp);
      d := Decision(stamp, backoff, reset);
    }

    /** The monitor, once a replacement process has started. */
    method InstallCommand(replacement: nat)
      modifies this
      ensures View() == Install(old(View()), replacement)
    {
      command := replacement;
      running := true;
    }

    /** SetRestartPolicy, which does not take the record's lock. */
    method SetPolicy(restartPolicy: Policy)
      modifies this
      ensures View() == old(View()).(policy := restartPolicy)
    {
      policy := restartPolicy;
    }
  }

  // ---------------------------------------------------------------- restart histories

  /** Decisions since the record was created or its backoff last reset. */
  function SinceReset(h: seq<Decision>): nat {
    if h == [] || h[|h| - 1].reset then 0 else 1 + SinceReset(h[..|h| - 1])
  }

  /** What the decisions of one record look like, whatever happens in between: delays follow
      the closed form, a decision comes no earlier than the end of the previous delay, and a
      reset needs a gap longer than the healthy period. */
  ghost predicate ValidHistory(h: seq<Decision>) {
    h != [] ==>
      var n := |h| - 1;
      && ValidHistory(h[..n])
      && h[n].delay == (if h[n].reset then 1 else Min(MAX_BACKOFF_SECONDS, Pow2(SinceReset(h[..n])))) * SECOND
      && (n > 0 ==> h[n].at >= h[n - 1].at + h[n - 1].delay)
      && (h[n].reset ==> n > 0 && h[n].at - h[n - 1].at > HEALTHY_PERIOD)
  }

  /** A record's fields agree with the decisions taken on it. */
  ghost predicate Explains(h: seq<Decision>, f: Fields) {
    && ValidHistory(h)
    && f.restartCount == |h|
    && f.lastRestartAt == (if h == [] then None else Some(h[|h| - 1].at))
    && f.backoffSeconds == Min(MAX_BACKOFF_SECONDS, Pow2(SinceReset(h)))
  }

  lemma Pow2Values(n: nat)
    ensures n >= 6 ==> Pow2(n) >= 64
    ensures Pow2(0) == 1 && Pow2(1) == 2 && Pow2(2) == 4 && Pow2(3) == 8 && Pow2(4) == 16 && Pow2(5) == 32
  {
    assert Pow2(3) == 8;
    assert Pow2(5) == 32;
    if n > 6 {
      Pow2Values(n - 1);
    }
  }

  /** The doubling with a cap at 60 is the closed form min(60, 2^j), and the branch for a
      stored backoff above 60 is never taken. */
  lemma DecideFollowsClosedForm(h: seq<Decision>, f: Fields, sinceRead: nat, stamp: nat)
    requires Explains(h, f) && sinceRead <= stamp
    requires h != [] ==> h[|h| - 1].at + h[|h| - 1].delay <= sinceRead
    ensures f.backoffSeconds <= MAX_BACKOFF_SECONDS
    ensures Explains(h + [DecisionOf(f, sinceRead, stamp)], Decide(f, sinceRead, stamp))
  {
    var d := DecisionOf(f, sinceRead, stamp);
    var h' := h + [d];
    assert h'[..|h'| - 1] == h;
    Pow2Values(SinceReset(h));
    assert Pow2(SinceReset(h) + 1) == 2 * Pow2(SinceReset(h));
  }

  /** The fields of any explained record, and each of its delays, in closed form; a reset
      starts more than 240 s after the previous delay ended. */
  lemma {:induction false} BackoffClosedForm(h: seq<Decision>, k: nat)
    requires ValidHistory(h) && k < |h|
    ensures h[k].delay == if h[k].reset then SECOND else Min(60, Pow2(SinceReset(h[..k + 1]) - 1)) * SECOND
    ensures SECOND <= h[k].delay <= 60 * SECOND
    ensures h[k].reset ==> k > 0 && h[k].at - (h[k - 1].at + h[k - 1].delay) > 240 * SECOND
  {
    var n := |h| - 1;
    if k < n {
      BackoffClosedForm(h[..n], k);
      assert h[..n][..k + 1] == h[..k + 1];
    } else {
      assert h[..k + 1] == h;
      if k > 0 {
        BackoffClosedForm(h[..n], k - 1);
      }
    }
  }

  /** Seconds that the delays still to come may fall short of 45 each, by the number of
      decisions since the last reset. */
  function Shortfall(j: nat): nat {
    if j == 0 then 251 else if j == 1 then 207 else if j == 2 then 163 else if j == 3 then 120
    else if j == 4 then 79 else if j == 5 then 42 else if j == 6 then 13 else 0
  }

  /** The delay, in seconds, of the last of `j` decisions since a reset; a reset's own for none. */
  function DelaySeconds(j: nat): int {
    if j == 0 then 1 else Min(60, Pow2(j - 1))
  }

  /** What a decision adds to the elapsed time pays for the change of the shortfall. */
  lemma GapPays(gap: int, j: nat, reset: bool)
    requires if reset then gap > HEALTHY_PERIOD else gap >= DelaySeconds(j) * SECOND
    ensures gap >= (45 - Shortfall(j) + Shortfall(if reset then 0 else j + 1)) * SECOND
  {
    Pow2Values(if j == 0 then 0 else j - 1);
    assert !reset ==> DelaySeconds(j) >= 45 - Shortfall(j) + Shortfall(j + 1);
  }

  lemma OneRestart(h: seq<Decision>)
    requires ValidHistory(h) && |h| >= 2
    ensures var n := |h| - 1;
            h[n].at - h[n - 1].at >= (45 - Shortfall(SinceReset(h[..n])) + Shortfall(SinceReset(h))) * SECOND
  {
    var n := |h| - 1;
    var before := h[..n];
    LastDelay(before);
    GapPays(h[n].at - h[n - 1].at, SinceReset(before), h[n].reset);
  }

  lemma LastDelay(h: seq<Decision>)
    requires ValidHistory(h) && h != []
    ensures h[|h| - 1].delay == DelaySeconds(SinceReset(h)) * SECOND
  {
    BackoffClosedForm(h, |h| - 1);
    assert h[..|h|] == h;
  }

  /** The amortised rate of restarts: n further decisions take at least 45 n - 251 seconds,
      resets included, because a reset pays for the short delays that follow it. */
  lemma {:induction false} RestartRate(h: seq<Decision>, a: nat, b: nat)
    requires ValidHistory(h) && a <= b < |h|
    ensures h[b].at - h[a].at
         >= (45 * (b - a) - Shortfall(SinceReset(h[..a + 1])) + Shortfall(SinceReset(h[..b + 1]))) * SECOND
    decreases |h|, b
  {
    var n := |h| - 1;
    if b < n {
      RestartRate(h[..n], a, b);
      assert h[..n][..a + 1] == h[..a + 1] && h[..n][..b + 1] == h[..b + 1];
    } else if a < b {
      RestartRate(h[..n], a, b - 1);
      assert h[..n][..a + 1] == h[..a + 1] && h[..n][..b] == h[..b] && h[..b + 1] == h;
      OneRestart(h);
    }
  }

  lemma RestartRateBound(h: seq<Decision>, a: nat, n: nat)
    requires ValidHistory(h) && a + n < |h|
    ensures h[a + n].at - h[a].at >= (45 * n - 251) * SECOND
    ensures a == 0 ==> h[n].at - h[0].at >= (45 * n - 207) * SECOND
  {
    RestartRate(h, a, a + n);
    if a == 0 {
      assert h[..1] == [h[0]];
      BackoffClosedForm(h, 0);
      assert SinceReset(h[..1]) == 1 by { assert h[..1][..0] == []; }
    }
  }
}
