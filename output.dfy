/**
  Post-processing of what the remote shell printed: the exit code on the
  job-control completion line (`parseExitCode`) and the cleaned command output
  (`cleanOutput`), with the two regular expressions of lib/index.ts written out.
 */
module Output {
  import opened Wrappers
  import opened JsString

  /** Job-control banner printed when the backgrounded job exits normally. */
  const DONE: string := "[1]+  Done"
  /** Job-control banner printed when the backgrounded job exits abnormally. */
  const ERROR: string := "[1]+  Exit"
  /** Appended to every command: background it and wait, so job control reports its end. */
  const SUFFIX: string := "& wait \r"

  predicate IsDigit(c: char) {
    '0' <= c <= '9'
  }

  predicate AllDigits(d: string) {
    forall k :: 0 <= k < |d| ==> IsDigit(d[k])
  }

  /** The pattern `Done\((\d+)\)` matches `s` at index `i` and captures `digits`. */
  predicate MatchesAt(s: string, i: nat, digits: string) {
    |digits| >= 1 && AllDigits(digits) && OccursAt(s, "Done(" + digits + ")", i)
  }

  /** The leftmost match of `Done\((\d+)\)` in `s` is at `i` and captures `digits`. */
  ghost predicate FirstMatch(s: string, i: nat, digits: string) {
    MatchesAt(s, i, digits) && forall j, d :: 0 <= j < i ==> !MatchesAt(s, j, d)
  }

  /** A match at a given index captures one digit string only (`\d+` must stop at `)`). */
  lemma {:induction false} MatchUnique(s: string, i: nat, d: string, e: string)
    requires MatchesAt(s, i, d) && MatchesAt(s, i, e)
    ensures d == e
  {
    var w, v := "Done(" + d + ")", "Done(" + e + ")";
    assert s[i..i + |w|] == w && s[i..i + |v|] == v;
    assert forall k :: 0 <= k < |d| ==> s[i + 5 + k] == d[k];
    assert forall k :: 0 <= k < |e| ==> s[i + 5 + k] == e[k];
    assert s[i + 5 + |d|] == w[5 + |d|] == ')';
    assert s[i + 5 + |e|] == v[5 + |e|] == ')';
    assert forall k :: i + 5 <= k < i + 5 + |d| ==> IsDigit(s[k]);
    assert forall k :: i + 5 <= k < i + 5 + |e| ==> IsDigit(s[k]);
    assert d == s[i + 5..i + 5 + |d|];
  }

  /** Length of the run of digits in `s` starting at `p`: how far a greedy `\d+` reaches. */
  function DigitRun(s: string, p: nat): (n: nat)
    requires p <= |s|
    ensures p + n <= |s|
    ensures forall k :: p <= k < p + n ==> IsDigit(s[k])
    ensures p + n == |s| || !IsDigit(s[p + n])
    decreases |s| - p
  {
    if p < |s| && IsDigit(s[p]) then 1 + DigitRun(s, p + 1) else 0
  }

  /** What `Done\((\d+)\)` captures when tried at index `i` alone. */
  function CaptureAt(s: string, i: nat): (r: Option<string>)
    ensures r.Some? ==> MatchesAt(s, i, r.value)
  {
    if i + 5 <= |s| && s[i..i + 5] == "Done(" then
      var n := DigitRun(s, i + 5);
      if n >= 1 && i + 5 + n < |s| && s[i + 5 + n] == ')' then
        var d := s[i + 5..i + 5 + n];
        assert s[i..i + 5 + n + 1] == "Done(" + d + ")";
        Some(d)
      else None
    else None
  }

  /** Trying the pattern at one index finds every match there. */
  lemma {:induction false} CaptureFindsMatch(s: string, i: nat, d: string)
    requires MatchesAt(s, i, d)
    ensures CaptureAt(s, i) == Some(d)
  {
    var w := "Done(" + d + ")";
    assert s[i..i + |w|] == w;
    assert s[i..i + 5] == w[..5] == "Done(";
    assert forall k :: i + 5 <= k < i + 5 + |d| ==> s[k] == d[k - i - 5];
    assert s[i + 5 + |d|] == w[5 + |d|] == ')';
    var n := DigitRun(s, i + 5);
    assert i + 5 + n < |s| ==> !IsDigit(s[i + 5 + n]);
    assert n == |d|;
    assert s[i + 5..i + 5 + n] == d;
  }

  /** The leftmost index at or after `from` where `Done\((\d+)\)` matches. */
  function FindMatch(s: string, from: nat): (r: Option<nat>)
    ensures r.Some? ==> from <= r.value && CaptureAt(s, r.value).Some?
    ensures r.Some? ==> forall j, d :: from <= j < r.value ==> !MatchesAt(s, j, d)
    ensures r.None? ==> forall j, d :: from <= j ==> !MatchesAt(s, j, d)
    decreases |s| - from
  {
    if from >= |s| then None
    else
      var r := if CaptureAt(s, from).Some? then Some(from) else FindMatch(s, from + 1);
      assert forall d :: MatchesAt(s, from, d) ==> CaptureAt(s, from).Some? by {
        forall d | MatchesAt(s, from, d) ensures CaptureAt(s, from).Some? {
          CaptureFindsMatch(s, from, d);
        }
      }
      r
  }

  /**
    The value `parseExitCode` returns: the captured digits as a string, or the
    number 0 when nothing matched. The two kinds never compare equal under `===`.
   */
  datatype ExitCode = Captured(digits: string) | Zero

  /** `parseExitCode`: the digits of the leftmost `Done(<digits>)` in the line, else 0. */
  function ParseExitCode(line: string): (r: ExitCode)
    ensures r.Captured? ==> exists i :: FirstMatch(line, i, r.digits)
    ensures r.Captured? ==> |r.digits| >= 1 && AllDigits(r.digits)
    ensures r.Zero? <==> forall i, d :: !MatchesAt(line, i, d)
  {
    match FindMatch(line, 0)
    case Some(i) =>
      assert FirstMatch(line, i, CaptureAt(line, i).value);
      Captured(CaptureAt(line, i).value)
    case None => Zero
  }

  /** Whenever the leftmost match is known, `parseExitCode` returns its digits. */
  lemma {:induction false} ParseExitCodeFirstMatch(line: string, i: nat, d: string)
    requires FirstMatch(line, i, d)
    ensures ParseExitCode(line) == Captured(d)
  {
    var r := ParseExitCode(line);
    var i' :| FirstMatch(line, i', r.digits);
    assert i' == i;
    MatchUnique(line, i, d, r.digits);
  }

  /** `splice(0, 2)`: the echoed command and the job-start line go; fewer than two lines all go. */
  function Spliced(lines: seq<string>): (r: seq<string>)
    ensures |lines| <= 2 ==> r == []
    ensures |lines| > 2 ==> |r| == |lines| - 2
    ensures forall k :: 0 <= k < |r| ==> r[k] == lines[k + 2]
  {
    if |lines| < 2 then [] else lines[2..]
  }

  /** Where `.*` stops when started at `i`: the first line terminator at or after `i`, or the end. */
  function LineEnd(s: string, i: nat): (j: nat)
    requires i <= |s|
    ensures i <= j <= |s|
    ensures forall k :: i <= k < j ==> !IsLineTerminator(s[k])
    ensures j == |s| || IsLineTerminator(s[j])
    decreases |s| - i
  {
    if i == |s| || IsLineTerminator(s[i]) then i else LineEnd(s, i + 1)
  }

  /** The marker holds no line terminator, so `.*` after it never stops inside it. */
  lemma {:induction false} MarkerWithoutTerminator()
    ensures forall k :: 0 <= k < |DONE| ==> !IsLineTerminator(DONE[k])
  {
  }

  /** `LineEnd` is the only place `.*` can stop: no terminator before it, one (or the end) at it. */
  lemma {:induction false} LineEndIs(s: string, i: nat, j: nat)
    requires i <= j <= |s|
    requires forall k :: i <= k < j ==> !IsLineTerminator(s[k])
    requires j == |s| || IsLineTerminator(s[j])
    ensures LineEnd(s, i) == j
  {
  }

  /** A line that holds the marker at `i` runs at least to the marker's end. */
  lemma {:induction false} LineEndPastMarker(s: string, i: nat)
    requires OccursAt(s, DONE, i)
    ensures i + |DONE| <= LineEnd(s, i)
  {
    MarkerWithoutTerminator();
    assert forall k :: i <= k < i + |DONE| ==> s[k] == DONE[k - i];
  }

  /**
    `s.replace(/\[1\]\+  Done.*\/, "")`: the first marker up to the end of its
    line is removed; text without a marker is left alone, and otherwise at least
    the marker itself goes.
   */
  function StripFirstDone(s: string): (r: string)
    ensures !Contains(s, DONE) ==> r == s
    ensures Contains(s, DONE) ==> |r| + |DONE| <= |s|
  {
    IndexOfFindsFirst(s, DONE);
    match IndexOf(s, DONE)
    case None => s
    case Some(i) =>
      LineEndPastMarker(s, i);
      s[..i] + s[LineEnd(s, i)..]
  }

  /** Without a marker the replacement leaves the text alone. */
  lemma {:induction false} StripWithoutMarker(s: string)
    requires !Contains(s, DONE)
    ensures StripFirstDone(s) == s
  {
    IndexOfFindsFirst(s, DONE);
  }

  /**
    With its first marker at `i` and the first line terminator from there at `j`,
    the replacement removes exactly `s[i..j]`: later markers and later lines stay.
   */
  lemma {:induction false} StripAtFirstMarker(s: string, i: nat, j: nat)
    requires FirstOccurrence(s, DONE, i)
    requires i <= j <= |s|
    requires forall k :: i <= k < j ==> !IsLineTerminator(s[k])
    requires j == |s| || IsLineTerminator(s[j])
    ensures StripFirstDone(s) == s[..i] + s[j..]
  {
    IndexOfFirstOccurrence(s, DONE, i);
    LineEndIs(s, i, j);
  }

  /**
    `cleanOutput` on a buffer: splice off two lines, join with newlines, strip
    the marker, trim. The result never starts or ends with whitespace and is no
    longer than the joined remaining lines.
   */
  function Cleaned(lines: seq<string>): (r: string)
    ensures r == [] || (!IsJsWhitespace(r[0]) && !IsJsWhitespace(r[|r| - 1]))
    ensures |r| <= |Join(Spliced(lines), "\n")|
  {
    Trim(StripFirstDone(Join(Spliced(lines), "\n")))
  }

  /**
    A buffer of at most two lines cleans to the empty string: the echoed
    command and the job line are spliced away even when the echoed command
    itself contains the marker.
   */
  lemma {:induction false} CleanedShort(lines: seq<string>)
    requires |lines| <= 2
    ensures Cleaned(lines) == ""
  {
    assert Spliced(lines) == [];
    assert Join(Spliced(lines), "\n") == "";
    StripWithoutMarker("");
    TrimAllWhitespace("");
  }

  /** With no marker after the first two lines, cleaning only drops two lines, joins and trims. */
  lemma {:induction false} CleanedWithoutMarker(lines: seq<string>)
    requires forall k :: 2 <= k < |lines| ==> !Contains(lines[k], DONE)
    ensures Cleaned(lines) == Trim(Join(Spliced(lines), "\n"))
  {
    var rest := Spliced(lines);
    assert forall k :: 0 <= k < |rest| ==> !Contains(rest[k], DONE);
    JoinAvoids(rest, '\n', DONE);
  }

  /** A marker-free text, a newline, then a line: the first marker is the line's, shifted. */
  lemma {:induction false} FirstMarkerAfterNewline(j: string, last: string, i: nat)
    requires !Contains(j, DONE)
    requires FirstOccurrence(last, DONE, i)
    ensures FirstOccurrence(j + "\n" + last, DONE, |j| + 1 + i)
  {
    var s := j + "\n" + last;
    OccursAfterConcat(j, '\n', last, DONE, i);
    forall q | 0 <= q < |j| + 1 + i
      ensures !OccursAt(s, DONE, q)
    {
      if OccursAt(s, DONE, q) {
        OccursInConcat(j, '\n', last, DONE, q);
      }
    }
  }

  /** Cutting `last[i..e]` out of `j + "\n" + last` leaves `j` and the newline in front. */
  lemma {:induction false} CutInLastLine(j: string, last: string, i: nat, e: nat)
    requires i <= e <= |last|
    ensures (j + "\n" + last)[..|j| + 1 + i] + (j + "\n" + last)[|j| + 1 + e..]
            == j + "\n" + (last[..i] + last[e..])
  {
    var s := j + "\n" + last;
    assert s[..|j| + 1 + i] == j + "\n" + last[..i];
    assert s[|j| + 1 + e..] == last[e..];
  }

  /** The line of `last` that starts at `i` ends at the same place inside `j + "\n" + last`. */
  lemma {:induction false} LineEndInLastLine(j: string, last: string, i: nat)
    requires i <= |last|
    ensures var s, p, q := j + "\n" + last, |j| + 1 + i, |j| + 1 + LineEnd(last, i);
            q <= |s| && (forall k :: p <= k < q ==> !IsLineTerminator(s[k])) &&
            (q == |s| || IsLineTerminator(s[q]))
  {
    var s, e := j + "\n" + last, LineEnd(last, i);
    forall k | |j| + 1 + i <= k < |j| + 1 + e
      ensures !IsLineTerminator(s[k])
    {
      assert s[k] == last[k - |j| - 1];
    }
    assert |j| + 1 + e < |s| ==> s[|j| + 1 + e] == last[e];
  }

  /** Stripping a first marker that lies in the last line of `j + "\n" + last` cuts within that line. */
  lemma {:induction false} StripMarkerOfLastLine(j: string, last: string, i: nat)
    requires i <= |last|
    requires FirstOccurrence(j + "\n" + last, DONE, |j| + 1 + i)
    ensures StripFirstDone(j + "\n" + last) ==
            (j + "\n" + last)[..|j| + 1 + i] + (j + "\n" + last)[|j| + 1 + LineEnd(last, i)..]
  {
    LineEndInLastLine(j, last, i);
    StripAtFirstMarker(j + "\n" + last, |j| + 1 + i, |j| + 1 + LineEnd(last, i));
  }

  /** Joined text whose last line holds the first marker: stripping cuts that line only. */
  lemma {:induction false} StripJoinedMarkerLine(body: seq<string>, last: string, i: nat)
    requires forall k :: 0 <= k < |body| ==> !Contains(body[k], DONE)
    requires FirstOccurrence(last, DONE, i)
    ensures StripFirstDone(Join(body + [last], "\n")) ==
            Join(body + [last[..i] + last[LineEnd(last, i)..]], "\n")
  {
    var kept := last[..i] + last[LineEnd(last, i)..];
    if body == [] {
      assert body + [last] == [last] && body + [kept] == [kept];
      StripAtFirstMarker(last, i, LineEnd(last, i));
    } else {
      JoinSnoc(body, last, "\n");
      JoinSnoc(body, kept, "\n");
      JoinAvoids(body, '\n', DONE);
      StripMarkerAfterNewline(Join(body, "\n"), last, i);
    }
  }

  /** The same for a marker-free text `j`, a newline and the marker line. */
  lemma {:induction false} StripMarkerAfterNewline(j: string, last: string, i: nat)
    requires !Contains(j, DONE)
    requires FirstOccurrence(last, DONE, i)
    ensures StripFirstDone(j + "\n" + last) == j + "\n" + (last[..i] + last[LineEnd(last, i)..])
  {
    FirstMarkerAfterNewline(j, last, i);
    StripMarkerOfLastLine(j, last, i);
    CutInLastLine(j, last, i, LineEnd(last, i));
  }

  /**
    A buffer whose last line holds the first marker, at `i`: cleaning keeps every
    line after the first two and, of the last line, what precedes the marker and
    what follows the end of its line.
   */
  lemma {:induction false} CleanedStripsMarkerLine(lines: seq<string>, last: string, i: nat)
    requires |lines| >= 2
    requires forall k :: 2 <= k < |lines| ==> !Contains(lines[k], DONE)
    requires FirstOccurrence(last, DONE, i)
    ensures Cleaned(lines + [last]) ==
            Trim(Join(lines[2..] + [last[..i] + last[LineEnd(last, i)..]], "\n"))
  {
    assert Spliced(lines + [last]) == lines[2..] + [last];
    StripJoinedMarkerLine(lines[2..], last, i);
  }

  /** No match can start where there is no `D`, or no `(` four characters later. */
  lemma {:induction false} NoMatchAt(s: string, j: nat)
    requires j + 4 >= |s| || s[j] != 'D' || s[j + 4] != '('
    ensures forall d :: !MatchesAt(s, j, d)
  {
    forall d
      ensures !MatchesAt(s, j, d)
    {
      var w := "Done(" + d + ")";
      if j + |w| <= |s| {
        assert s[j..j + |w|][0] == s[j] && s[j..j + |w|][4] == s[j + 4];
        assert w[0] == 'D' && w[4] == '(';
      }
    }
  }

  /** A line without the text `Done(` has no match at all, so its exit code is 0. */
  lemma {:induction false} ParseWithoutOpening(line: string)
    requires !Contains(line, "Done(")
    ensures ParseExitCode(line) == Zero
  {
    forall j: nat, d
      ensures !MatchesAt(line, j, d)
    {
      var w := "Done(" + d + ")";
      if j + |w| <= |line| {
        assert line[j..j + |w|][..5] == line[j..j + 5];
        assert w[..5] == "Done(";
        assert MatchesAt(line, j, d) ==> OccursAt(line, "Done(", j);
      }
    }
  }

  /** `Done(0)` captures the digit string "0", which is not the number 0. */
  lemma {:induction false} ParseDoneZero(line: string)
    requires line == "[1]+  Done(0)               ls"
    ensures ParseExitCode(line) == Captured("0")
  {
    assert line == "[1]+  " + "Done(" + "0" + ")" + "               ls";
    forall j, d | 0 <= j < 6
      ensures !MatchesAt(line, j, d)
    {
      NoMatchAt(line, j);
    }
    ParseExitCodeFirstMatch(line, 6, "0");
  }

  /** A plain `Done` without a parenthesised code yields the number 0. */
  lemma {:induction false} ParseDoneWithoutCode(line: string)
    requires line == "[1]+  Done               ls -la & wait"
    ensures ParseExitCode(line) == Zero
  {
    AbsentByChar(line, "Done(", 4);
    ParseWithoutOpening(line);
  }

  /** A marker followed by text without line terminators: the marker is first and the line runs to the end. */
  lemma {:induction false} MarkerLineFacts(tail: string)
    requires forall k :: 0 <= k < |tail| ==> !IsLineTerminator(tail[k])
    ensures FirstOccurrence(DONE + tail, DONE, 0) && LineEnd(DONE + tail, 0) == |DONE + tail|
  {
    var last := DONE + tail;
    assert last[0..|DONE|] == DONE;
    MarkerWithoutTerminator();
    assert forall k :: |DONE| <= k < |last| ==> last[k] == tail[k - |DONE|];
  }

  /** The listing's marker line carries no line terminator after the marker. */
  lemma {:induction false} ListingTail(tail: string)
    requires tail == "               ls -la & wait"
    ensures forall k :: 0 <= k < |tail| ==> !IsLineTerminator(tail[k])
  {
  }

  /** Joining the two names and the empty remainder of the marker line, then trimming, leaves the two names. */
  lemma {:induction false} TrimListing(parts: seq<string>)
    requires parts == ["file1.txt", "file2.txt", ""]
    ensures Trim(Join(parts, "\n")) == "file1.txt\nfile2.txt"
  {
    var text := "file1.txt\nfile2.txt\n";
    assert Join(parts[2..], "\n") == "";
    assert Join(parts[1..], "\n") == "file2.txt" + "\n" + "";
    assert Join(parts, "\n") == "file1.txt" + "\n" + ("file2.txt" + "\n" + "");
    assert "file1.txt" + "\n" + ("file2.txt" + "\n" + "") == text;
    TrimIsCore(text, 0, 19);
    assert text[0..19] == "file1.txt\nfile2.txt";
  }

  /** The buffer of a listing: echo, job line, two names, marker line; only the two names remain. */
  lemma {:induction false} CleanedListing(lines: seq<string>, tail: string)
    requires lines == ["ls -la & wait", "[1] 1234", "file1.txt", "file2.txt"]
    requires tail == "               ls -la & wait"
    ensures Cleaned(lines + [DONE + tail]) == "file1.txt\nfile2.txt"
  {
    AbsentByChar(lines[2], DONE, 0);
    AbsentByChar(lines[3], DONE, 0);
    ListingTail(tail);
    MarkerLineFacts(tail);
    CleanedStripsMarkerLine(lines, DONE + tail, 0);
    var last := DONE + tail;
    assert last[..0] + last[|last|..] == "";
    TrimListing(lines[2..] + [""]);
  }

  /** With two output lines and no marker in either, cleaning gives the trimmed two lines. */
  lemma {:induction false} CleanedTwoLines(echo: string, pid: string, a: string, b: string)
    requires !Contains(a, DONE) && !Contains(b, DONE)
    ensures Cleaned([echo, pid, a, b]) == Trim(a + "\n" + b)
  {
    var lines := [echo, pid, a, b];
    CleanedWithoutMarker(lines);
    assert Spliced(lines) == [a, b];
    assert Join([a, b], "\n") == a + "\n" + b;
  }

  /** Neither the error text nor the `[1]+  Exit` line holds the `Done` marker. */
  lemma {:induction false} ExitExampleUnmarked(err: string, exit: string)
    requires err == "cat: /x: No such file"
    requires exit == "[1]+  Exit 1                  cat /x & wait"
    ensures !Contains(err, DONE) && !Contains(exit, DONE)
  {
    AbsentByChar(err, DONE, 0);
    AbsentByChar(exit, DONE, 6);
  }

  /** The joined error text and exit line start and end with visible characters, so trimming keeps them whole. */
  lemma {:induction false} ExitExampleTrimmed(err: string, exit: string)
    requires err == "cat: /x: No such file"
    requires exit == "[1]+  Exit 1                  cat /x & wait"
    ensures Trim(err + "\n" + exit) == err + "\n" + exit
  {
    var text := err + "\n" + exit;
    assert text[0] == err[0] && text[|text| - 1] == exit[|exit| - 1];
    TrimIsCore(text, 0, |text|);
    assert text[0..|text|] == text;
  }

  /** On a buffer ended by the error marker, the `[1]+  Exit` line is kept in the output. */
  lemma {:induction false} CleanedKeepsExitLine(echo: string, pid: string, err: string, exit: string)
    requires err == "cat: /x: No such file"
    requires exit == "[1]+  Exit 1                  cat /x & wait"
    ensures Cleaned([echo, pid, err, exit]) == err + "\n" + exit
  {
    ExitExampleUnmarked(err, exit);
    CleanedTwoLines(echo, pid, err, exit);
    ExitExampleTrimmed(err, exit);
  }
}
