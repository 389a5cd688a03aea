/** The bounded window of recent lower-cased chat commands, used to tell the
    generator that a viewer repeated a command. */
module Repetition {

  /** The window keeps at most this many commands. */
  const Capacity := 5

  /** `commands.filter(cmd => cmd === x).length`. */
  function Occurrences(commands: seq<string>, x: string): nat
    decreases |commands|
  {
    if commands == [] then 0
    else (if commands[0] == x then 1 else 0) + Occurrences(commands[1..], x)
  }

  /** The filter count is the multiplicity of `x` in the window. */
  lemma {:induction false} OccurrencesIsMultiplicity(commands: seq<string>, x: string)
    ensures Occurrences(commands, x) == multiset(commands)[x]
    decreases |commands|
  {
    if commands != [] {
      OccurrencesIsMultiplicity(commands[1..], x);
      assert commands == [commands[0]] + commands[1..];
      assert multiset(commands) == multiset{commands[0]} + multiset(commands[1..]);
    }
  }

  /** `push(x)`, then `shift()` when the window has grown past its capacity. */
  function Recorded(commands: seq<string>, x: string): seq<string> {
    var pushed := commands + [x];
    if |pushed| > Capacity then pushed[1..] else pushed
  }

  /** Recording keeps the window bounded, puts the new command last, and drops
      only the oldest entry, and only when the window was full; the survivors
      keep their order. */
  lemma RecordedShape(commands: seq<string>, x: string)
    requires |commands| <= Capacity
    ensures |Recorded(commands, x)| <= Capacity
    ensures Recorded(commands, x)[|Recorded(commands, x)| - 1] == x
    ensures |commands| < Capacity ==> Recorded(commands, x) == commands + [x]
    ensures |commands| == Capacity ==> Recorded(commands, x) == commands[1..] + [x]
  {
  }

  /** The window after recording the commands of `history` in order, from empty. */
  function Replay(history: seq<string>): seq<string>
    decreases |history|
  {
    if history == [] then [] else Recorded(Replay(history[..|history| - 1]), history[|history| - 1])
  }

  function Min(a: int, b: int): int {
    if a < b then a else b
  }

  /** The window is always the last (up to five) commands of the history, in
      their original order. */
  lemma {:induction false} ReplayIsRecentSuffix(history: seq<string>)
    ensures Replay(history) == history[|history| - Min(|history|, Capacity)..]
    decreases |history|
  {
    if history != [] {
      var n := |history|;
      var front := history[..n - 1];
      ReplayIsRecentSuffix(front);
      assert front[|front| - Min(|front|, Capacity)..] + [history[n - 1]]
          == history[n - Min(|front|, Capacity) - 1..];
    }
  }

  /** `x` repeated `n` times. */
  function Repeat(x: string, n: nat): (r: seq<string>)
    ensures |r| == n
    ensures forall i :: 0 <= i < n ==> r[i] == x
  {
    seq(n, i => x)
  }

  /** After `n` identical commands in a row the next one is reported with
      count `min(n, 5)`: the k-th is reported as k-1 up to the sixth, and
      every later one as 5, since the window holds only five. */
  lemma RepeatedCommandCount(x: string, n: nat)
    ensures Occurrences(Replay(Repeat(x, n)), x) == Min(n, Capacity)
  {
    ReplayIsRecentSuffix(Repeat(x, n));
    var w := Replay(Repeat(x, n));
    assert w == Repeat(x, Min(n, Capacity));
    OccurrencesIsMultiplicity(w, x);
    assert multiset(w) == multiset{} [x := |w|] by {
      assert forall i :: 0 <= i < |w| ==> w[i] == x;
      MultisetOfConstant(w, x);
    }
  }

  lemma {:induction false} MultisetOfConstant(w: seq<string>, x: string)
    requires forall i :: 0 <= i < |w| ==> w[i] == x
    ensures multiset(w) == multiset{} [x := |w|]
    decreases |w|
  {
    if w != [] {
      MultisetOfConstant(w[1..], x);
      assert w == [w[0]] + w[1..];
    }
  }

  /** The window of recent commands, updated in place. */
  class RepetitionWindow {
    var commands: seq<string>

    ghost predicate Valid()
      reads this
    {
      |commands| <= Capacity
    }

    constructor ()
      ensures Valid() && commands == []
    {
      commands := [];
    }

    /** Counts the earlier occurrences of `command` in the window, then records it. */
    method RecordAndCount(command: string) returns (count: nat)
      requires Valid()
      modifies this
      ensures Valid()
      ensures count == Occurrences(old(commands), command)
      ensures commands == Recorded(old(commands), command)
    {
      count := Occurrences(commands, command);
      commands := commands + [command];
      if |commands| > Capacity {
        commands := commands[1..];
      }
    }
  }
}
