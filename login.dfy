/**
  The login handshake `initTerminal`: press enter once, then poll the port up
  to ten times. A prompt asking for a login is answered with `root`, a root
  shell prompt ends the handshake, anything else is answered with enter, and a
  read that fails (no data buffered) is skipped. The one-second pause between
  attempts is not modelled; what the attempts read is given as a sequence.
 */
module Login {
  import opened Wrappers
  import opened JsString
  import opened Port

  /** The number of polling attempts. */
  const ATTEMPTS: nat := 10

  /** The rejection reason when no root prompt was seen. */
  const INIT_TIMEOUT: string := "Timed out while waiting for terminal to initialise!"

  /** Written first, and in answer to any unrecognised data. */
  const ENTER: string := "\r"

  /** Written in answer to a login prompt: the root user, no password. */
  const ROOT_LOGIN: string := "root\r"

  datatype InitOutcome = Ready | Failed(reason: string)

  /** What one attempt does with what it read. */
  datatype Step = Send(text: string) | Stop | Skip

  /** The decision of one attempt; `None` is a read that threw or returned null. */
  function AttemptStep(read: Option<string>): (r: Step)
    ensures r.Skip? <==> read.None?
    ensures r.Stop? <==> read.Some? && !Contains(read.value, "login") && Contains(read.value, "root@")
    ensures r == Send(ROOT_LOGIN) <==> read.Some? && Contains(read.value, "login")
    ensures r.Send? ==> r.text in {ROOT_LOGIN, ENTER}
  {
    match read
    case None => Skip
    case Some(data) =>
      if Contains(data, "login") then Send(ROOT_LOGIN)
      else if Contains(data, "root@") then Stop
      else Send(ENTER)
  }

  /** The read seen by attempt `i`; attempts beyond the given input find nothing. */
  function ReadAt(input: seq<Option<string>>, i: nat): Option<string>
  {
    if i < |input| then input[i] else None
  }

  /** Attempt `i` sees a root shell prompt that is not also a login prompt. */
  predicate PromptAt(input: seq<Option<string>>, i: nat)
  {
    ReadAt(input, i).Some? && !Contains(ReadAt(input, i).value, "login")
    && Contains(ReadAt(input, i).value, "root@")
  }

  /** The writes of the polling loop, and whether it ended ready. */
  datatype Handshake = Handshake(writes: seq<string>, ready: bool)

  /**
    The polling loop from attempt `attempt` on: at most one write per
    remaining attempt, each of them `root\r` or enter.
   */
  function HandshakeFrom(input: seq<Option<string>>, attempt: nat): (h: Handshake)
    requires attempt <= ATTEMPTS
    ensures |h.writes| <= ATTEMPTS - attempt
    ensures forall k :: 0 <= k < |h.writes| ==> h.writes[k] in {ROOT_LOGIN, ENTER}
    decreases ATTEMPTS - attempt
  {
    if attempt == ATTEMPTS then Handshake([], false)
    else
      match AttemptStep(ReadAt(input, attempt))
      case Stop => Handshake([], true)
      case Skip => HandshakeFrom(input, attempt + 1)
      case Send(text) =>
        var h := HandshakeFrom(input, attempt + 1);
        Handshake([text] + h.writes, h.ready)
  }

  /** The whole handshake: the first enter, then at most ten more writes, each `root\r` or enter. */
  function InitHandshake(input: seq<Option<string>>): (h: Handshake)
    ensures 1 <= |h.writes| <= ATTEMPTS + 1
    ensures h.writes[0] == ENTER
    ensures forall k :: 0 <= k < |h.writes| ==> h.writes[k] in {ROOT_LOGIN, ENTER}
  {
    var h := HandshakeFrom(input, 0);
    Handshake([ENTER] + h.writes, h.ready)
  }

  /** What one attempt writes. */
  function Sent(step: Step): seq<string>
  {
    if step.Send? then [step.text] else []
  }

  /** One attempt of the loop in `initTerminal`, given what its read returned. */
  method Poll(port: SerialPort, read: Option<string>) returns (stop: bool)
    modifies port
    ensures stop <==> AttemptStep(read).Stop?
    ensures port.written == old(port.written) + Sent(AttemptStep(read))
    ensures port.closeCount == old(port.closeCount)
  {
    stop := false;
    match read {
      case None =>
      case Some(data) =>
        if Contains(data, "login") {
          port.Write(ROOT_LOGIN);
        } else if Contains(data, "root@") {
          stop := true;
        } else {
          port.Write(ENTER);
        }
    }
  }

  /** `initTerminal` on a port whose successive reads return `input`. */
  method InitTerminal(port: SerialPort, input: seq<Option<string>>) returns (r: InitOutcome)
    modifies port
    ensures port.written == old(port.written) + InitHandshake(input).writes
    ensures port.closeCount == old(port.closeCount)
    ensures r == (if InitHandshake(input).ready then Ready else Failed(INIT_TIMEOUT))
  {
    port.Write(ENTER);
    ghost var written0 := old(port.written);
    ghost var total := HandshakeFrom(input, 0);
    assert InitHandshake(input).writes == [ENTER] + total.writes;
    AppendAssoc(written0, [ENTER], total.writes);
    var ready := false;
    var attempts := 0;
    while attempts < ATTEMPTS
      invariant attempts <= ATTEMPTS
      invariant !ready
      invariant port.written + HandshakeFrom(input, attempts).writes == written0 + InitHandshake(input).writes
      invariant HandshakeFrom(input, attempts).ready == InitHandshake(input).ready
      invariant port.closeCount == old(port.closeCount)
    {
      ghost var before := port.written;
      var stop := Poll(port, ReadAt(input, attempts));
      if stop {
        ready := true;
        break;
      }
      AttemptAdvances(input, attempts, before);
      attempts := attempts + 1;
    }
    if ready {
      r := Ready;
    } else {
      r := Failed(INIT_TIMEOUT);
    }
  }

  /** An attempt that does not stop writes what it sends and leaves the rest of the loop to the next attempt. */
  lemma {:induction false} AttemptAdvances(input: seq<Option<string>>, a: nat, before: seq<string>)
    requires a < ATTEMPTS && !AttemptStep(ReadAt(input, a)).Stop?
    ensures (before + Sent(AttemptStep(ReadAt(input, a)))) + HandshakeFrom(input, a + 1).writes
            == before + HandshakeFrom(input, a).writes
    ensures HandshakeFrom(input, a + 1).ready == HandshakeFrom(input, a).ready
  {
    var sent := Sent(AttemptStep(ReadAt(input, a)));
    var rest := HandshakeFrom(input, a + 1);
    assert HandshakeFrom(input, a).writes == sent + rest.writes;
    AppendAssoc(before, sent, rest.writes);
  }

  /** From attempt `a` on, the loop ends ready exactly when some later attempt sees the root prompt. */
  lemma {:induction false} ReadyFromIffPrompt(input: seq<Option<string>>, a: nat)
    requires a <= ATTEMPTS
    ensures HandshakeFrom(input, a).ready <==> exists j :: a <= j < ATTEMPTS && PromptAt(input, j)
    decreases ATTEMPTS - a
  {
    if a < ATTEMPTS {
      ReadyFromIffPrompt(input, a + 1);
      if PromptAt(input, a) {
        assert HandshakeFrom(input, a).ready;
      } else {
        assert !PromptAt(input, a);
        assert HandshakeFrom(input, a).ready == HandshakeFrom(input, a + 1).ready;
        assert (exists j :: a <= j < ATTEMPTS && PromptAt(input, j))
           <==> (exists j :: a + 1 <= j < ATTEMPTS && PromptAt(input, j));
      }
    }
  }

  /** `initTerminal` rejects with the timeout message exactly when none of the ten attempts saw the root prompt. */
  lemma {:induction false} ReadyIffPromptSeen(input: seq<Option<string>>)
    ensures InitHandshake(input).ready <==> exists j :: 0 <= j < ATTEMPTS && PromptAt(input, j)
  {
    ReadyFromIffPrompt(input, 0);
  }

  /** Attempts after the first root prompt are never made: what they would read does not matter. */
  lemma {:induction false} ReadsAfterPromptIgnored(input: seq<Option<string>>, more: seq<Option<string>>, a: nat, j: nat)
    requires a <= j < ATTEMPTS && j < |input|
    requires PromptAt(input, j)
    ensures HandshakeFrom(input, a) == HandshakeFrom(input[..j + 1] + more, a)
    decreases j - a
  {
    var other := input[..j + 1] + more;
    assert ReadAt(other, a) == ReadAt(input, a);
    if a < j {
      ReadsAfterPromptIgnored(input, more, a + 1, j);
    }
  }

  /** A login prompt is answered with `root\r`. */
  lemma {:induction false} LoginPromptData(data: string)
    requires data == "device login: "
    ensures Contains(data, "login") && AttemptStep(Some(data)) == Send(ROOT_LOGIN)
  {
    assert data[7..12] == "login";
    assert OccursAt(data, "login", 7);
  }

  /** A root shell prompt without the word "login" ends the handshake. */
  lemma {:induction false} RootPromptData(data: string)
    requires data == "root@device:~# "
    ensures AttemptStep(Some(data)) == Stop
  {
    AbsentByChar(data, "login", 0);
    assert OccursAt(data, "root@", 0);
  }

  /** A login prompt, then the root prompt: the handshake logs in as root and is ready. */
  lemma {:induction false} LoginThenPrompt(login: string, prompt: string)
    requires login == "device login: " && prompt == "root@device:~# "
    ensures InitHandshake([Some(login), Some(prompt)]) == Handshake([ENTER, ROOT_LOGIN], true)
  {
    LoginPromptData(login);
    RootPromptData(prompt);
    var input := [Some(login), Some(prompt)];
    assert ReadAt(input, 0) == Some(login) && ReadAt(input, 1) == Some(prompt);
    assert HandshakeFrom(input, 1) == Handshake([], true);
  }

  /** A device that never answers: only the first enter is written, and the handshake fails. */
  lemma {:induction false} SilentDevice()
    ensures InitHandshake([]) == Handshake([ENTER], false)
  {
    SilentFrom(0);
  }

  /** With nothing to read, no attempt from `a` on writes anything or finds the prompt. */
  lemma {:induction false} SilentFrom(a: nat)
    requires a <= ATTEMPTS
    ensures HandshakeFrom([], a) == Handshake([], false)
    decreases ATTEMPTS - a
  {
    if a < ATTEMPTS {
      SilentFrom(a + 1);
    }
  }

  /** Empty data is answered with enter, like any data without a prompt. */
  lemma {:induction false} EmptyDataGetsEnter()
    ensures AttemptStep(Some("")) == Send(ENTER)
  {
    assert !OccursAt("", "login", 0);
    assert !Contains("", "login") && !Contains("", "root@");
  }
}
