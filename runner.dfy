/**
  The command runner inside `exec`: once the terminal is ready, the command is
  written with ` & wait` appended, every line the shell prints is appended to
  `stdout`, and the first line carrying a job-completion marker settles the
  promise with the cleaned output. A timer, delivered here as an explicit
  event, kills the job and rejects instead. The promise is a `Settlement`
  value; settling an already settled promise changes nothing, as in
  JavaScript.
 */
module Runner {
  import opened Wrappers
  import opened JsString
  import opened Port
  import opened Output
  import opened Login

  /** The rejection reason when the timer fires. */
  const TIMED_OUT: string := "Command timed out!"

  /** What `String(undefined)` prints, used when the job line has no second token. */
  const UNDEFINED: string := "undefined"

  /** The state of the promise `exec` returns; a rejection reason is a plain string. */
  datatype Settlement = Pending | Resolved(output: string) | Rejected(reason: string)

  /** Resolving or rejecting a promise only takes effect while it is pending. */
  function Settle(p: Settlement, s: Settlement): (r: Settlement)
    ensures !p.Pending? ==> r == p
    ensures p.Pending? ==> r == s
  {
    if p.Pending? then s else p
  }

  /** The command line written to the shell: the command followed by ` & wait` and a carriage return. */
  function CommandLine(command: string): (r: string)
    ensures |r| == |command| + 9
    ensures r[..|command|] == command
    ensures r[|command|..] == " & wait \r"
  {
    command + " " + SUFFIX
  }

  /** How the data handler reads a line: the completion marker is looked for first. */
  datatype Marker = DoneMarker | ErrorMarker | NoMarker

  function Classify(line: string): (m: Marker)
    ensures m == DoneMarker <==> Contains(line, DONE)
    ensures m == ErrorMarker <==> !Contains(line, DONE) && Contains(line, ERROR)
    ensures m == NoMarker <==> !Contains(line, DONE) && !Contains(line, ERROR)
  {
    if Contains(line, DONE) then DoneMarker
    else if Contains(line, ERROR) then ErrorMarker
    else NoMarker
  }

  /**
    What the data handler settles with on `line`, `buffer` being `stdout` with
    `line` already pushed. `parseExitCode(line) === 0` holds only for the
    number 0, so only a completion line without `Done(<digits>)` resolves.
    A line settles exactly when it carries one of the markers, and then always
    with the cleaned buffer.
   */
  function Verdict(line: string, buffer: seq<string>): (v: Settlement)
    ensures v != Pending <==> Contains(line, DONE) || Contains(line, ERROR)
    ensures v != Pending ==> v == Resolved(Cleaned(buffer)) || v == Rejected(Cleaned(buffer))
  {
    match Classify(line)
    case DoneMarker =>
      if ParseExitCode(line) == Zero then Resolved(Cleaned(buffer)) else Rejected(Cleaned(buffer))
    case ErrorMarker => Rejected(Cleaned(buffer))
    case NoMarker => Pending
  }

  /**
    The job id line `[1] <pid>` split on single spaces; the second piece, or
    `undefined`. Either way the result holds no space.
   */
  function Pid(jobLine: string): (r: string)
    ensures ' ' !in r
  {
    var parts := Split(jobLine, ' ');
    if |parts| >= 2 then parts[1] else UNDEFINED
  }

  /** The kill command the timer writes: `kill -9 `, the pid, a carriage return. */
  function KillCommand(pid: string): (r: string)
    ensures |r| == |pid| + 9
    ensures r[..8] == "kill -9 " && r[8..|r| - 1] == pid && r[|r| - 1] == '\r'
  {
    "kill -9 " + pid + "\r"
  }

  /** No line carries either marker. */
  predicate Unmarked(lines: seq<string>)
  {
    forall k :: 0 <= k < |lines| ==> !Contains(lines[k], DONE) && !Contains(lines[k], ERROR)
  }

  /** The state shared by the data handler and the timer callback of one `exec` call. */
  class CommandRunner {
    const port: SerialPort
    /** The lines received so far, minus the two removed by each cleaning. */
    var stdout: seq<string>
    /** The timer is set and not yet cleared or fired. */
    var timerArmed: bool
    /** The timer callback threw before closing the port or rejecting. */
    var timerCrashed: bool
    var promise: Settlement
    /** Every line the data handler has been given, in order. */
    ghost var received: seq<string>

    /**
      While the promise is pending nothing was spliced and no line carried a
      marker; the port is closed exactly when the promise has settled; an
      armed timer means a pending promise.
     */
    ghost predicate Valid()
      reads this, port
    {
      (timerArmed ==> promise.Pending? && !timerCrashed)
      && (promise.Pending? <==> port.closeCount == 0)
      && (promise.Pending? ==> stdout == received && Unmarked(received))
    }

    /** Writing the command and setting the timer, on a port the handshake left open. */
    constructor (port: SerialPort, command: string)
      requires port.closeCount == 0
      modifies port
      ensures this.port == port && Valid()
      ensures stdout == [] && received == [] && timerArmed && !timerCrashed && promise == Pending
      ensures port.written == old(port.written) + [CommandLine(command)]
      ensures port.closeCount == 0
    {
      this.port := port;
      stdout := [];
      received := [];
      timerArmed := true;
      timerCrashed := false;
      promise := Pending;
      new;
      port.Write(CommandLine(command));
    }

    /** `cleanOutput(stdout)`: splices the first two lines off `stdout` itself, then cleans the rest. */
    method CleanOutput() returns (result: string)
      modifies this
      ensures stdout == Spliced(old(stdout)) && result == Cleaned(old(stdout))
      ensures promise == old(promise) && timerArmed == old(timerArmed)
      ensures timerCrashed == old(timerCrashed) && received == old(received)
    {
      stdout := Spliced(stdout);
      result := Trim(StripFirstDone(Join(stdout, "\n")));
    }

    /** The `data` handler: push the line, then settle on a completion or error marker. */
    method OnLine(line: string)
      requires Valid()
      modifies this, port
      ensures Valid()
      ensures received == old(received) + [line]
      ensures timerCrashed == old(timerCrashed) && port.written == old(port.written)
      ensures Classify(line) == NoMarker ==>
                stdout == old(stdout) + [line] && promise == old(promise)
                && timerArmed == old(timerArmed) && port.closeCount == old(port.closeCount)
      ensures Classify(line) != NoMarker ==>
                stdout == Spliced(old(stdout) + [line])
                && promise == Settle(old(promise), Verdict(line, old(stdout) + [line]))
                && !timerArmed && port.closeCount == old(port.closeCount) + 1
    {
      stdout := stdout + [line];
      received := received + [line];
      if Contains(line, DONE) {
        port.Close();
        if ParseExitCode(line) == Zero {
          timerArmed := false;
          var out := CleanOutput();
          promise := Settle(promise, Resolved(out));
        } else {
          timerArmed := false;
          var out := CleanOutput();
          promise := Settle(promise, Rejected(out));
        }
      } else if Contains(line, ERROR) {
        timerArmed := false;
        port.Close();
        var out := CleanOutput();
        promise := Settle(promise, Rejected(out));
      }
    }

    /**
      The timer callback. With the job line buffered it kills the job, presses
      enter, closes the port and rejects; with fewer than two lines `stdout[1]`
      is undefined and the callback throws before doing any of that.
     */
    method OnTimeout()
      requires Valid() && timerArmed
      modifies this, port
      ensures Valid() && !timerArmed
      ensures stdout == old(stdout) && received == old(received)
      ensures |old(stdout)| >= 2 ==>
                port.written == old(port.written) + [KillCommand(Pid(old(stdout)[1])), ENTER]
                && port.closeCount == old(port.closeCount) + 1
                && promise == Rejected(TIMED_OUT) && !timerCrashed
      ensures |old(stdout)| < 2 ==>
                timerCrashed && promise == Pending
                && port.written == old(port.written) && port.closeCount == old(port.closeCount)
    {
      timerArmed := false;
      if |stdout| < 2 {
        timerCrashed := true;
        return;
      }
      var pid := Pid(stdout[1]);
      port.Write(KillCommand(pid));
      port.Write(ENTER);
      port.Close();
      promise := Settle(promise, Rejected(TIMED_OUT));
    }
  }

  /** A completion line resolves exactly when it has no `Done(<digits>)`; any parenthesised code rejects. */
  lemma {:induction false} DoneResolvesIffNoCode(line: string, buffer: seq<string>)
    requires Contains(line, DONE)
    ensures Verdict(line, buffer).Resolved? <==> forall i, d :: !MatchesAt(line, i, d)
    ensures Verdict(line, buffer).Rejected? <==> exists i, d :: MatchesAt(line, i, d)
  {
  }

  /** An error line without the completion marker rejects, whatever exit status it reports. */
  lemma {:induction false} ErrorRejects(line: string, buffer: seq<string>)
    requires !Contains(line, DONE) && Contains(line, ERROR)
    ensures Verdict(line, buffer) == Rejected(Cleaned(buffer))
  {
  }

  /** The line `[1]+  Done(0)               ls` holds the `Done` marker. */
  lemma {:induction false} DoneZeroLineMarked(line: string)
    requires line == "[1]+  Done(0)               ls"
    ensures Contains(line, DONE)
  {
    assert line == DONE + "(0)               ls";
    assert line[0..|DONE|] == DONE;
    assert OccursAt(line, DONE, 0);
  }

  /** `Done(0)` reports success, yet the promise is rejected: `"0" === 0` is false. */
  lemma {:induction false} DoneZeroRejects(line: string, buffer: seq<string>)
    requires line == "[1]+  Done(0)               ls"
    ensures Verdict(line, buffer) == Rejected(Cleaned(buffer))
  {
    DoneZeroLineMarked(line);
    ParseDoneZero(line);
  }

  /**
    The first completion line settles with the output after the echo and job
    lines, the completion line cut from its marker to its end, all trimmed.
   */
  lemma {:induction false} CompletionOutput(lines: seq<string>, line: string, i: nat)
    requires |lines| >= 2 && Unmarked(lines)
    requires FirstOccurrence(line, DONE, i)
    ensures Verdict(line, lines + [line]) != Pending
    ensures Verdict(line, lines + [line]).Resolved? ==>
              Verdict(line, lines + [line]).output == Trim(Join(lines[2..] + [line[..i] + line[LineEnd(line, i)..]], "\n"))
    ensures Verdict(line, lines + [line]).Rejected? ==>
              Verdict(line, lines + [line]).reason == Trim(Join(lines[2..] + [line[..i] + line[LineEnd(line, i)..]], "\n"))
  {
    assert OccursAt(line, DONE, i);
    assert Classify(line) == DoneMarker;
    assert forall k :: 2 <= k < |lines| ==> !Contains(lines[k], DONE);
    CleanedStripsMarkerLine(lines, line, i);
  }

  /** An error line is settled on with the output after the echo and job lines, the error line kept. */
  lemma {:induction false} ErrorOutput(lines: seq<string>, line: string)
    requires |lines| >= 2 && Unmarked(lines)
    requires !Contains(line, DONE) && Contains(line, ERROR)
    ensures Verdict(line, lines + [line]) == Rejected(Trim(Join(lines[2..] + [line], "\n")))
  {
    var buffer := lines + [line];
    assert Spliced(buffer) == lines[2..] + [line];
    assert forall k :: 2 <= k < |buffer| ==> !Contains(buffer[k], DONE);
    CleanedWithoutMarker(buffer);
  }

  /** The pid is the text between the first and the second space of the job line. */
  lemma {:induction false} PidIsSecondToken(head: string, pid: string, tail: string)
    requires ' ' !in head && ' ' !in pid
    requires tail == [] || tail[0] == ' '
    ensures Pid(head + " " + pid + tail) == pid
  {
    SplitAfterFirst(head, ' ', pid + tail);
    assert head + " " + pid + tail == head + [' '] + (pid + tail);
    SplitHead(pid, tail, ' ');
  }

  /** A job line without a space has no second token: the kill command names `undefined`. */
  lemma {:induction false} PidWithoutSpace(jobLine: string)
    requires ' ' !in jobLine
    ensures Pid(jobLine) == UNDEFINED
  {
    SplitWithoutSeparator(jobLine, ' ');
  }

  /** The job-start line `[1] 5678` yields the process ID `5678`. */
  lemma {:induction false} JobLinePid(jobLine: string)
    requires jobLine == "[1] 5678"
    ensures Pid(jobLine) == "5678"
  {
    assert jobLine == "[1]" + " " + "5678" + "";
    PidIsSecondToken("[1]", "5678", "");
  }

  /** Neither the echoed `sleep 5` command nor the job line `[1] 5678` carries a marker. */
  lemma {:induction false} SleepLinesUnmarked(echo: string, jobLine: string)
    requires echo == "sleep 5 & wait" && jobLine == "[1] 5678"
    ensures Classify(echo) == NoMarker && Classify(jobLine) == NoMarker
  {
    AbsentByChar(echo, DONE, 0);
    AbsentByChar(echo, ERROR, 0);
    AbsentByChar(jobLine, DONE, 3);
    AbsentByChar(jobLine, ERROR, 3);
  }

  /**
    `sleep 5` outlives the timer: after the echo and the job line arrive, the
    timer writes `kill -9 5678` and enter, closes the port once and rejects.
   */
  method TimeoutKillsJob(echo: string, jobLine: string) returns (written: seq<string>, closes: nat, outcome: Settlement)
    requires echo == "sleep 5 & wait" && jobLine == "[1] 5678"
    ensures written == [CommandLine("sleep 5"), "kill -9 5678\r", "\r"]
    ensures closes == 1 && outcome == Rejected(TIMED_OUT)
  {
    var port := new SerialPort();
    var runner := new CommandRunner(port, "sleep 5");
    SleepLinesUnmarked(echo, jobLine);
    runner.OnLine(echo);
    runner.OnLine(jobLine);
    JobLinePid(jobLine);
    runner.OnTimeout();
    assert KillCommand("5678") == "kill -9 5678\r";
    assert port.written == [CommandLine("sleep 5")] + [KillCommand("5678"), ENTER];
    written, closes, outcome := port.written, port.closeCount, runner.promise;
  }

  /** Two spaces after the job number make the pid the empty string. */
  lemma {:induction false} DoubleSpacePid(jobLine: string)
    requires jobLine == "[1]  5678"
    ensures Pid(jobLine) == ""
  {
    PidIsSecondToken("[1]", "", " 5678");
    assert jobLine == "[1]" + " " + "" + " 5678";
  }

  /**
    `exec` up to the point where it waits: open a port, run the handshake on
    the reads `input`, and on success write the command and set the timer. A
    failed handshake rejects `exec` with the handshake's reason and leaves the
    port open.
   */
  method Exec(command: string, input: seq<Option<string>>)
    returns (port: SerialPort, runner: CommandRunner?, failure: Option<string>)
    ensures fresh(port)
    ensures InitHandshake(input).ready ==>
              failure == None && runner != null && fresh(runner) && runner.port == port
              && runner.Valid() && runner.stdout == [] && runner.timerArmed && runner.promise == Pending
              && port.written == InitHandshake(input).writes + [CommandLine(command)]
              && port.closeCount == 0
    ensures !InitHandshake(input).ready ==>
              failure == Some(INIT_TIMEOUT) && runner == null
              && port.written == InitHandshake(input).writes && port.closeCount == 0
  {
    port := new SerialPort();
    var init := InitTerminal(port, input);
    if init.Failed? {
      runner := null;
      failure := Some(init.reason);
      return;
    }
    runner := new CommandRunner(port, command);
    failure := None;
  }
}
