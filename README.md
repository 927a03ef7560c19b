# Serial terminal command runner, modelled in Dafny

This project models `lib/index.ts`, a module that runs one shell command on a
device over a serial console. It has three parts.

- **Login handshake (`initTerminal`).** Press enter, then poll the port up to ten times:
  - a login prompt is answered with `root`;
  - a root shell prompt (`root@`) means the terminal is ready;
  - any other data is answered with enter;
  - a read that fails is skipped.
- **Command runner (`exec`).** Write the command followed by ` & wait \r`, then collect every line the shell prints:
  - the first line carrying the completion marker `[1]+  Done` or the error marker `[1]+  Exit` closes the port and settles the promise with the cleaned output;
  - a timer may instead kill the job and reject with `Command timed out!`.
- **Output handling.**
  - `parseExitCode` takes the digits of the first `Done(<digits>)`, or the number 0 when there are none.
  - `cleanOutput` works in four steps: it removes the echoed command and the job-id line from the buffer in place, joins the rest with newlines, deletes the completion marker up to the end of its line, and trims.

The modules follow that structure:

| module | file | contents |
|---|---|---|
| `Wrappers` | `wrappers.dfy` | `Option` |
| `JsString` | `js_string.dfy` | the JavaScript string operations the module relies on: `includes`, `split(' ')`, `join`, `trim` with ECMAScript's whitespace set, and the line terminators that stop `.` in a regular expression |
| `Port` | `port.dfy` | what the program can observe of the serial port: the log of writes and the number of `close()` calls |
| `Output` | `output.dfy` | `parseExitCode` (the pattern `Done\((\d+)\)` written out by hand) and `cleanOutput` as a specification function `Cleaned`, with the lemmas that pin down what the cleaned output is |
| `Login` | `login.dfy` | `initTerminal` as a method with a loop, proved against the recursive function `HandshakeFrom`; one attempt of the loop is the method `Poll`, specified by the function `AttemptStep` |
| `Runner` | `runner.dfy` | class `CommandRunner`, which holds the state shared by the `data` handler and the timer callback, and `Exec` |

Time and I/O become explicit inputs:
- `initTerminal` is given the results of its reads as a sequence, where `None` is a read that threw or returned `null`;
- each line from the line splitter is a call to `OnLine`;
- the timer firing is a call to `OnTimeout`, which may come at any point while the timer is armed.

`parseExitCode` returns either a string or the number 0, and the model keeps that distinction as `ExitCode = Captured(digits) | Zero`. The `data` handler compares the result with `=== 0`, so only a completion line without `Done(<digits>)` resolves. A line with `Done(0)` carries the string `"0"` and rejects (`Runner.DoneZeroRejects`).

Other behaviour follows the code as written:

- **The timer with fewer than two lines buffered.**
  - `stdout[1]` is `undefined`, which passes the `!== null` guard, and `.split` then throws.
  - The port is not closed, nothing is written, and the promise stays pending.
  - The runner records this in `timerCrashed`.
  - A marker line arriving later can still settle the promise.
- **The `data` handler is never removed.**
  - A marker line after the promise has settled closes the port once more.
  - It also removes two more lines from `stdout`, because `cleanOutput` changes its argument.
  - The settled value does not change.
  - So "closed exactly once" holds only up to the first settlement. The invariant `CommandRunner.Valid` states the exact relation: the close count is zero exactly while the promise is pending.
- **When the handshake fails,** `exec` rejects with the handshake's message and leaves the port open.
- **The job id given to `kill -9`** is the second piece of `stdout[1].split(' ')`:
  - two spaces after `[1]` make it the empty string;
  - a line without a space makes it `undefined`.
- **Running `cleanOutput` again on its own output is not idempotent.** It would remove two more lines first. Only the final `trim` is idempotent (`JsString.TrimIdempotent`).

## Model

| member | source | states |
|---|---|---|
| JsString.Contains | lib/index.ts:44 | `includes` holds exactly when the searched text occurs at some position |
| JsString.IndexFrom | lib/index.ts:96 | a position found from `from` on is at or after `from`, and the searched text occurs there |
| JsString.IndexOf | lib/index.ts:96 | a position found is one where the searched text occurs |
| JsString.IndexOfFindsFirst | lib/index.ts:96 | the search finds the first occurrence, or reports that none exists |
| JsString.Join | lib/index.ts:29 | joining no lines gives the empty string; otherwise the result starts with the first line |
| JsString.JoinAvoids | lib/index.ts:29 | joining lines free of a marker with a newline (which the marker does not contain) creates no marker |
| JsString.Split | lib/index.ts:85 | `split(' ')` yields at least one piece and no piece contains a space |
| JsString.JoinSplit | lib/index.ts:85 | joining the pieces of `split` with the separator gives back the original string |
| JsString.SplitAfterFirst | lib/index.ts:85 | the text before the first separator is the first piece; the rest splits on its own |
| JsString.TrimStart | lib/index.ts:32 | removing leading whitespace leaves a suffix whose first character is not whitespace, and only whitespace was removed |
| JsString.TrimEnd | lib/index.ts:32 | removing trailing whitespace leaves a prefix whose last character is not whitespace, and only whitespace was removed |
| JsString.Trim | lib/index.ts:32 | `trim` never lengthens, and its result starts and ends with a non-whitespace character |
| JsString.TrimIsSlice | lib/index.ts:32 | `trim` returns a contiguous slice of its input, and everything before and after that slice is whitespace |
| JsString.TrimIsCore | lib/index.ts:32 | `trim` returns exactly the part between a leading and a trailing run of whitespace |
| JsString.TrimIdempotent | lib/index.ts:32 | trimming twice is trimming once |
| Output.MatchUnique | lib/index.ts:12 | at a given position `Done\((\d+)\)` captures at most one digit string |
| Output.CaptureAt | lib/index.ts:12 | a capture at a position is a match of the pattern there |
| Output.CaptureFindsMatch | lib/index.ts:12 | every match of the pattern at a position is found by the capture there |
| Output.FindMatch | lib/index.ts:13 | the search returns the leftmost position where the pattern matches, or none when it matches nowhere |
| Output.ParseExitCode | lib/index.ts:10-20 | a captured code is a non-empty digit string taken from the leftmost match; the number 0 comes back exactly when nothing matches |
| Output.ParseExitCodeFirstMatch | lib/index.ts:13-15 | conversely, the leftmost match with digits `d` makes `parseExitCode` return the string `d` |
| Output.ParseWithoutOpening | lib/index.ts:14-17 | a line without `Done(` yields the number 0 |
| Output.ParseDoneZero | lib/index.ts:11-15 | `[1]+  Done(0) …` yields the string `"0"`, not the number 0 |
| Output.ParseDoneWithoutCode | lib/index.ts:16-17 | a plain `[1]+  Done …` line yields the number 0 |
| Output.Spliced | lib/index.ts:25 | `splice(0, 2)` drops the first two lines, or all of them when there are fewer |
| Output.LineEnd | lib/index.ts:30 | `.*` without the `s` flag runs to the first line terminator or the end of the text |
| Output.LineEndIs | lib/index.ts:30 | the end of the line is the only position with no terminator before it and a terminator or the end of the text at it |
| Output.LineEndPastMarker | lib/index.ts:30 | the marker holds no line terminator, so the text `.*` consumes reaches at least the marker's end |
| Output.StripFirstDone | lib/index.ts:30-31 | `replace` leaves text without the marker unchanged, and otherwise removes at least the marker |
| Output.StripWithoutMarker | lib/index.ts:30-31 | without the marker, `replace` leaves the text unchanged |
| Output.StripAtFirstMarker | lib/index.ts:30-31 | with a first marker at `i`, `replace` removes exactly the text from `i` to the end of that line |
| Output.Cleaned | lib/index.ts:22-33 | the cleaned output never starts or ends with whitespace and is no longer than the remaining lines joined |
| Output.CleanedShort | lib/index.ts:22-33 | a buffer of at most two lines cleans to the empty string, even when the echoed command contains the marker |
| Output.CleanedWithoutMarker | lib/index.ts:22-33 | when no line after the first two carries the marker, cleaning drops two lines, joins and trims, and removes nothing else |
| Output.CleanedStripsMarkerLine | lib/index.ts:22-33 | when the marker first appears in the last line, the output is the lines after the first two with the last line cut at the marker, trimmed |
| Output.CleanedListing | lib/index.ts:22-33 | the listing buffer ending in `[1]+  Done … ls -la & wait` cleans to `file1.txt\nfile2.txt` |
| Output.CleanedTwoLines | lib/index.ts:22-33 | two unmarked lines after the echo and the job line clean to those two lines, trimmed |
| Output.CleanedKeepsExitLine | lib/index.ts:22-33 | a buffer ending in the `[1]+  Exit` line keeps that line in the output |
| Login.AttemptStep | lib/index.ts:42-53 | a failed read is skipped. Data containing `login` is answered with `root\r`. Data with `root@` but without `login` stops the loop. Every other answer is `\r` |
| Login.HandshakeFrom | lib/index.ts:41-55 | from a given attempt on, each remaining attempt writes at most once, and only `root\r` or `\r` |
| Login.InitHandshake | lib/index.ts:37-55 | the handshake writes `\r` first, then at most ten more writes, each `root\r` or `\r` |
| Login.Poll | lib/index.ts:42-53 | one attempt writes what `AttemptStep` sends, does not close the port, and stops exactly when `AttemptStep` says so |
| Login.InitTerminal | lib/index.ts:35-61 | the port receives exactly the handshake's writes and is not closed; the result is ready exactly when the handshake saw the root prompt, otherwise the timeout message |
| Login.ReadyFromIffPrompt | lib/index.ts:41-55 | the polling loop ends ready exactly when a remaining attempt reads a root prompt that is not a login prompt |
| Login.ReadyIffPromptSeen | lib/index.ts:41-60 | `initTerminal` rejects with the timeout message exactly when none of the ten attempts saw the root prompt |
| Login.ReadsAfterPromptIgnored | lib/index.ts:46-49 | after the root prompt the loop stops: later reads do not affect the writes or the outcome |
| Login.LoginPromptData | lib/index.ts:44-45 | a login prompt is answered with `root\r` |
| Login.RootPromptData | lib/index.ts:46-49 | a root shell prompt ends the loop |
| Login.LoginThenPrompt | lib/index.ts:37-60 | a login prompt followed by a root prompt gives the writes `\r`, `root\r` and the outcome ready |
| Login.SilentDevice | lib/index.ts:37-60 | with every read failing, only the first `\r` is written and the handshake fails |
| Login.EmptyDataGetsEnter | lib/index.ts:50-51 | empty data is answered with `\r` |
| Port.SerialPort.Write | lib/index.ts:37 | a write appends to the write log and does not close the port |
| Port.SerialPort.Close | lib/index.ts:89 | a close increments the close count and writes nothing |
| Runner.CommandRunner.constructor | lib/index.ts:72-83 | the command line is written once, the buffer is empty, the timer is armed and the promise is pending |
| Runner.CommandRunner.CleanOutput | lib/index.ts:22-33 | `stdout` itself loses its first two lines, and the result is the cleaned buffer |
| Runner.CommandRunner.OnLine | lib/index.ts:93-111 | the line is appended first. A line with neither marker changes nothing else. A marker line clears the timer, closes the port once, removes two lines and settles the promise by the line's verdict if it is still pending. The invariant is kept |
| Runner.CommandRunner.OnTimeout | lib/index.ts:83-92 | with two lines buffered: writes the kill command for the pid and then `\r`, closes once, rejects with `Command timed out!`. With fewer: the callback throws and changes nothing else |
| Runner.Exec | lib/index.ts:64-81 | a successful handshake is followed by exactly the command line and a pending runner; a failed one rejects with its message, writes no command and leaves the port open |
| Runner.Settle | lib/index.ts:100-110 | a settled promise keeps its value; a pending one takes the new settlement |
| Runner.CommandLine | lib/index.ts:79 | the command line is the command followed by ` & wait \r` |
| Runner.Classify | lib/index.ts:96-107 | a line is a completion line exactly when it contains `[1]+  Done`; an error line exactly when it contains `[1]+  Exit` and not the completion marker |
| Runner.Verdict | lib/index.ts:96-111 | a line settles the promise exactly when it carries one of the two markers, and it settles with the cleaned buffer |
| Runner.DoneResolvesIffNoCode | lib/index.ts:96-106 | a completion line resolves exactly when it contains no `Done(<digits>)`, and rejects exactly when it does |
| Runner.ErrorRejects | lib/index.ts:107-111 | an error line without the completion marker rejects with the cleaned buffer, whatever its exit status |
| Runner.DoneZeroLineMarked | lib/index.ts:96 | `[1]+  Done(0) …` carries the completion marker |
| Runner.DoneZeroRejects | lib/index.ts:100-105 | `Done(0)` rejects, because the captured `"0"` is not `=== 0` |
| Runner.CompletionOutput | lib/index.ts:96-106 | the first completion line settles with the lines after the echo and job lines, the completion line cut from its marker to its end, trimmed |
| Runner.ErrorOutput | lib/index.ts:107-111 | the first error line settles with the lines after the echo and job lines, the error line kept, trimmed |
| Runner.Pid | lib/index.ts:85 | the pid never contains a space |
| Runner.KillCommand | lib/index.ts:86 | the kill command is `kill -9 `, the pid, then a carriage return |
| Runner.PidIsSecondToken | lib/index.ts:85 | the pid is the text between the first and the second space of the job line |
| Runner.PidWithoutSpace | lib/index.ts:85-86 | a job line without a space makes the kill command name `undefined` |
| Runner.JobLinePid | lib/index.ts:85 | `[1] 5678` gives the pid `5678` |
| Runner.TimeoutKillsJob | lib/index.ts:79-92 | a runner for `sleep 5` that receives `sleep 5 & wait` and `[1] 5678`, then times out, has written the command line, `kill -9 5678\r` and `\r`, closed the port once, and rejected with `Command timed out!` |
| Runner.DoubleSpacePid | lib/index.ts:85 | `[1]  5678` gives the empty pid |

## Left out

- Opening the serial port, its path and baud rate, and the `open` handler's `flush()` (lib/index.ts:66-70) are hardware I/O. The port is reduced to its write log and close count.
- `serialport.read()` returns a buffer that `toString()` decodes. The model is given decoded strings, and `None` stands for a read that threw or returned `null`. Decoding is not modelled.
- The readline parser that splits the byte stream at `\n` (lib/index.ts:78) is replaced by the sequence of `OnLine` calls.
- The one-second pause between attempts and the timer's clock (the `timeout` argument) are not modelled. The timer firing is an explicit event, and the order of events is the caller's choice. The JavaScript event loop and the promise machinery are reduced to the `Settlement` value.
- `console.log(stdout[0])` in the timer callback (lib/index.ts:90) is diagnostic output only.
- What the Node.js runtime does with the unhandled rejection of a timer callback that threw is outside the model. Depending on its settings it may end the process. The model only records that the callback stopped.
- A `write` that throws inside the handshake's `try` block is not modelled. Writes always succeed.
- Regular expressions are written out for the two fixed patterns only.
- Strings are sequences of Unicode code points, not UTF-16 code units. This only matters for characters outside the Basic Multilingual Plane, which neither pattern nor `trim` treats specially.
