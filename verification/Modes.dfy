/**
 The mode of each port's process: set when the process starts (src/server_f.c), replaced by the
 signal handler with the codes that src/synthesize.c issues through src/send.c.
 */
module Modes {
  import opened Bytes
  import opened EdContext
  import opened Receiver
  import opened Backends
  import Synthesize

  /** What synthesize makes a code of: the function, the level that was asked for, and the index it chose. */
  datatype Command = Command(fn: Synthesize.Function, level: int, index: int)

  predicate Issued(c: Command) {
    1 <= c.level <= 2 && 1 <= c.index <= 15
  }

  /** The function part is 64 or 128; level and index follow in the bits below. */
  function Code(c: Command): int {
    (if c.fn.Encryption? then 64 else 128) + c.level * 16 + c.index
  }

  /** The bits above the level name the function. */
  predicate NamesFunction(mode: int, fn: Synthesize.Function) {
    mode / 64 == match fn case Encryption => 1 case Hashing => 2
  }

  /** The port that synthesize sends the code to. */
  function Port(c: Command): int {
    5544 + 2 - c.level
  }

  /** The level of a port's clients. */
  function LevelOf(port: int): int {
    if port == 5544 then 2 else 1
  }

  /** The process behind one port. */
  class Process {
    const port: int
    var mode: int

    /** createserver sets the initial mode. */
    constructor (port: int)
      ensures this.port == port && mode == StartMode(port)
    {
      this.port := port;
      mode := if port == 5544 then 0x62 else 0x52;
    }

    /** signal_handler. */
    method Signal(code: int)
      modifies this`mode
      ensures mode == code
    {
      mode := code;
    }
  }

  function StartMode(port: int): int {
    if port == 5544 then 0x62 else 0x52
  }

  /** The codes of a run go to the processes by their ports. */
  method Run(high: Process, low: Process, run: seq<Command>)
    requires high.port == 5544 && low.port == 5545 && high.mode == StartMode(5544) && low.mode == StartMode(5545)
    requires forall i :: 0 <= i < |run| ==> Issued(run[i])
    modifies high, low
    ensures high.mode == ModeAfter(5544, run) && low.mode == ModeAfter(5545, run)
  {
    var i := 0;
    while i < |run|
      invariant 0 <= i <= |run|
      invariant high.mode == ModeAfter(5544, run[..i]) && low.mode == ModeAfter(5545, run[..i])
    {
      assert run[..i + 1][..i] == run[..i] && run[..i + 1][i] == run[i];
      if Port(run[i]) == high.port {
        high.Signal(Code(run[i]));
      } else if Port(run[i]) == low.port {
        low.Signal(Code(run[i]));
      }
      i := i + 1;
    }
    assert run[..i] == run;
  }

  /** The mode of a port after the commands of a run. */
  function ModeAfter(port: int, run: seq<Command>): int
    decreases |run|
  {
    if run == [] then StartMode(port)
    else
      var last := run[|run| - 1];
      if Port(last) == port then Code(last) else ModeAfter(port, run[..|run| - 1])
  }

  /** i is the last command of the run for the port. */
  ghost predicate LastFor(port: int, run: seq<Command>, i: nat) {
    i < |run| && Port(run[i]) == port && forall j :: i < j < |run| ==> Port(run[j]) != port
  }

  ghost predicate Silent(port: int, run: seq<Command>) {
    forall i :: 0 <= i < |run| ==> Port(run[i]) != port
  }

  /** The mode of a port is the code of the last command for it, or the one it started with. */
  lemma {:induction false} ModeIsLast(port: int, run: seq<Command>)
    ensures forall i: nat :: LastFor(port, run, i) ==> ModeAfter(port, run) == Code(run[i])
    ensures if Silent(port, run) then ModeAfter(port, run) == StartMode(port)
      else exists i: nat :: LastFor(port, run, i)
    decreases |run|
  {
    if run != [] {
      var n := |run| - 1;
      var rest := run[..n];
      ModeIsLast(port, rest);
      assert forall j :: 0 <= j < n ==> rest[j] == run[j];
      if Port(run[n]) == port {
        assert LastFor(port, run, n);
      } else {
        forall i: nat
          ensures LastFor(port, run, i) <==> LastFor(port, rest, i)
        {
        }
      }
    }
  }

  /**
   In every run the mode of a port decodes to the port's own level, and to the index and function of
   the last command for the port; it is never 0, which would select the OpenSSL path.
   */
  lemma ModeDecodes(port: int, run: seq<Command>)
    requires (port == 5544 || port == 5545) && forall i :: 0 <= i < |run| ==> Issued(run[i])
    ensures ModeAfter(port, run) != 0 && SBits(ModeAfter(port, run)) == LevelOf(port)
    ensures forall i: nat :: LastFor(port, run, i) ==>
      IBits(ModeAfter(port, run)) == run[i].index && NamesFunction(ModeAfter(port, run), run[i].fn)
    ensures Silent(port, run) ==>
      IBits(ModeAfter(port, run)) == 2 && NamesFunction(ModeAfter(port, run), Synthesize.Encryption)
  {
    ModeIsLast(port, run);
    forall i: nat | LastFor(port, run, i)
      ensures var mode := Code(run[i]);
        && mode != 0 && SBits(mode) == LevelOf(port)
        && IBits(mode) == run[i].index && NamesFunction(mode, run[i].fn)
    {
      CodeDecodes(run[i]);
    }
  }

  lemma CodeDecodes(c: Command)
    requires Issued(c)
    ensures Code(c) != 0 && SBits(Code(c)) == c.level && IBits(Code(c)) == c.index
    ensures NamesFunction(Code(c), c.fn)
  {
    assert Code(c) == 16 * ((if c.fn.Encryption? then 4 else 8) + c.level) + c.index;
  }

  /** Every command of the run names an implementation that exists. */
  ghost predicate AllExist(run: seq<Command>) {
    forall i :: 0 <= i < |run| ==> Issued(run[i]) && run[i].index <= 4
  }

  lemma {:induction false} ModeNamesBackend(port: int, run: seq<Command>)
    requires (port == 5544 || port == 5545) && AllExist(run)
    ensures NamesBackend(ModeAfter(port, run), LevelOf(port))
    decreases |run|
  {
    if run != [] {
      ModeNamesBackend(port, run[..|run| - 1]);
      CodeDecodes(run[|run| - 1]);
    }
  }

  /**
   A file sent to a port while commands arrive: `before` of them by the time the context is set
   up, and at(i) of them by the time record i is deciphered.  Whatever their number and order,
   the file arrives and its tag is accepted.
   */
  method TransferDuringRun(port: int, run: seq<Command>, before: nat, at: nat -> nat, key: seq<byte>, iv: seq<byte>,
      file: seq<byte>)
      returns (received: seq<byte>, outcome: Outcome)
    requires (port == 5544 || port == 5545) && AllExist(run) && before <= |run| && forall i: nat :: at(i) <= |run|
    requires |key| == 32 && |iv| == 16 && |file| <= MAX_LENGTH
    ensures received == file && outcome == Finished(true)
  {
    var modes := (i: nat) => if at(i) <= |run| then ModeAfter(port, run[..at(i)]) else StartMode(port);
    ModeNamesBackend(port, run[..before]);
    forall i: nat
      ensures NamesBackend(modes(i), LevelOf(port))
    {
      ModeNamesBackend(port, run[..at(i)]);
    }
    received, outcome := TransferAtLevel(LevelOf(port), ModeAfter(port, run[..before]), modes, key, iv, file);
  }

  // ----- the code of the entry that synthesize chooses

  /** The command for an entry: the level is that of the query. */
  function CommandFor(q: Synthesize.Query, e: Synthesize.Entry): Command {
    Command(q.fn, q.level, e.imp)
  }

  /**
   The code of the chosen entry goes to the port of the entry's own level, makes that port's mode
   decode to the entry's level and index, and leaves the other port alone.
   */
  lemma ChoiceDecodes(q: Synthesize.Query, d: seq<Synthesize.Entry>, id: nat, run: seq<Command>, other: int)
    requires Synthesize.Spread(q, d) && Synthesize.Nearest(q, d, id)
    requires 1 <= q.level <= 2 && 1 <= d[id].imp <= 15
    requires forall i :: 0 <= i < |run| ==> Issued(run[i])
    ensures var c := CommandFor(q, d[id]);
      var mode := ModeAfter(Port(c), run + [c]);
      && LevelOf(Port(c)) == d[id].level
      && SBits(mode) == d[id].level && IBits(mode) == d[id].imp && NamesFunction(mode, d[id].fn)
      && (other != Port(c) ==> ModeAfter(other, run + [c]) == ModeAfter(other, run))
  {
    var c := CommandFor(q, d[id]);
    CodeDecodes(c);
    assert (run + [c])[..|run|] == run;
  }

  /** synthesize, followed by the delivery of its code. */
  method ChooseAndSend(q: Synthesize.Query, d: seq<Synthesize.Entry>, high: Process, low: Process) returns (id: nat)
    requires Synthesize.Spread(q, d) && 0 <= q.tp <= 2 && 0 <= q.en <= 2 && 1 <= q.level <= 2
    requires forall i :: 0 <= i < |d| && Synthesize.Candidate(q, d[i]) ==> 1 <= d[i].imp <= 15
    requires high.port == 5544 && low.port == 5545
    modifies high, low
    ensures Synthesize.Nearest(q, d, id)
    ensures var chosen, kept := if q.level == 2 then high else low, if q.level == 2 then low else high;
      && d[id].fn == q.fn && d[id].level == q.level
      && SBits(chosen.mode) == q.level && IBits(chosen.mode) == d[id].imp && NamesFunction(chosen.mode, q.fn)
      && kept.mode == old(kept.mode)
  {
    id := Synthesize.Synthesize(q, d);
    Synthesize.ChosenIsNearest(q, d, id);
    var c := CommandFor(q, d[id]);
    CodeDecodes(c);
    if Port(c) == high.port {
      high.Signal(Code(c));
    } else {
      low.Signal(Code(c));
    }
  }
}
