/**
  The JavaScript string operations the terminal code relies on, written out:
  `includes` and `indexOf`, `split` on one character, `join`, `trim`, and the
  line terminators at which a regular expression's `.` stops.
  Strings are sequences of characters; UTF-16 code units are not modelled.
 */
module JsString {
  import opened Wrappers

  /** `t` occurs in `s` starting at index `i`. */
  predicate OccursAt(s: string, t: string, i: nat) {
    i + |t| <= |s| && s[i..i + |t|] == t
  }

  /** `i` is the first index at which `t` occurs in `s`. */
  predicate FirstOccurrence(s: string, t: string, i: nat) {
    OccursAt(s, t, i) && forall j :: 0 <= j < i ==> !OccursAt(s, t, j)
  }

  /** The first index at or after `from` at which `t` occurs in `s`. */
  function IndexFrom(s: string, t: string, from: nat): (r: Option<nat>)
    ensures r.Some? ==> from <= r.value && OccursAt(s, t, r.value)
    decreases |s| - from
  {
    if from + |t| > |s| then None
    else if s[from..from + |t|] == t then Some(from)
    else IndexFrom(s, t, from + 1)
  }

  /** `IndexFrom` finds the first occurrence at or after `from`, and `None` means there is none. */
  lemma {:induction false} IndexFromFindsFirst(s: string, t: string, from: nat)
    ensures var r := IndexFrom(s, t, from);
            (r.Some? ==> from <= r.value && OccursAt(s, t, r.value) &&
                         forall j :: from <= j < r.value ==> !OccursAt(s, t, j)) &&
            (r.None? ==> forall j :: from <= j ==> !OccursAt(s, t, j))
    decreases |s| - from
  {
    if from + |t| <= |s| && s[from..from + |t|] != t {
      IndexFromFindsFirst(s, t, from + 1);
    }
  }

  /** `String.prototype.indexOf`, with `None` for -1. */
  function IndexOf(s: string, t: string): (r: Option<nat>)
    ensures r.Some? ==> OccursAt(s, t, r.value)
  {
    IndexFrom(s, t, 0)
  }

  /** `indexOf` returns the first occurrence, and `None` only when there is none. */
  lemma {:induction false} IndexOfFindsFirst(s: string, t: string)
    ensures IndexOf(s, t).Some? ==> FirstOccurrence(s, t, IndexOf(s, t).value)
    ensures IndexOf(s, t).None? ==> forall j :: !OccursAt(s, t, j)
  {
    IndexFromFindsFirst(s, t, 0);
  }

  /** `String.prototype.includes`. */
  function Contains(s: string, t: string): (r: bool)
    ensures r <==> exists i :: OccursAt(s, t, i)
  {
    IndexOfFindsFirst(s, t);
    IndexOf(s, t).Some?
  }

  /** `t` is absent when every place that starts like `t` differs from it `k` characters later. */
  lemma {:induction false} AbsentByChar(s: string, t: string, k: nat)
    requires k < |t|
    requires forall p :: 0 <= p < |s| - k && s[p] == t[0] ==> s[p + k] != t[k]
    ensures !Contains(s, t)
  {
    forall p: nat
      ensures !OccursAt(s, t, p)
    {
      if p + |t| <= |s| {
        assert s[p..p + |t|][0] == s[p] && s[p..p + |t|][k] == s[p + k];
      }
    }
  }

  /** The first occurrence is unique, so `IndexOf` is determined by it. */
  lemma {:induction false} IndexOfFirstOccurrence(s: string, t: string, i: nat)
    requires FirstOccurrence(s, t, i)
    ensures IndexOf(s, t) == Some(i)
  {
    IndexOfFindsFirst(s, t);
  }

  /** A piece of `x + [c] + y` that avoids `c` lies wholly in `x` or wholly in `y`. */
  lemma {:induction false} OccursInConcat(x: string, c: char, y: string, t: string, p: nat)
    requires c !in t
    requires OccursAt(x + [c] + y, t, p)
    ensures p + |t| <= |x| ==> OccursAt(x, t, p)
    ensures p + |t| > |x| ==> p > |x| && OccursAt(y, t, p - |x| - 1)
  {
    var s := x + [c] + y;
    assert s[|x|] == c;
    assert forall k :: p <= k < p + |t| ==> s[k] in t;
    if p + |t| <= |x| {
      assert s[p..p + |t|] == x[p..p + |t|];
    } else {
      assert s[p..p + |t|] == y[p - |x| - 1..p - |x| - 1 + |t|];
    }
  }

  /** An occurrence in `y` is an occurrence in `x + [c] + y`, shifted. */
  lemma {:induction false} OccursAfterConcat(x: string, c: char, y: string, t: string, q: nat)
    requires OccursAt(y, t, q)
    ensures OccursAt(x + [c] + y, t, |x| + 1 + q)
  {
    var s := x + [c] + y;
    assert s[|x| + 1 + q..|x| + 1 + q + |t|] == y[q..q + |t|];
  }

  /** Regrouping a concatenation; stated over any element type, which keeps it cheap for lists of strings. */
  lemma AppendAssoc<T>(a: seq<T>, b: seq<T>, c: seq<T>)
    ensures a + (b + c) == (a + b) + c
  {
  }

  /** `Array.prototype.join`. */
  function Join(parts: seq<string>, sep: string): (r: string)
    ensures |parts| == 0 ==> r == ""
    ensures |parts| >= 1 ==> |parts[0]| <= |r| && r[..|parts[0]|] == parts[0]
    decreases |parts|
  {
    if |parts| == 0 then ""
    else if |parts| == 1 then parts[0]
    else parts[0] + sep + Join(parts[1..], sep)
  }

  /** Joining one more part adds the separator and that part at the end. */
  lemma {:induction false} JoinSnoc(parts: seq<string>, last: string, sep: string)
    requires |parts| >= 1
    ensures Join(parts + [last], sep) == Join(parts, sep) + sep + last
    decreases |parts|
  {
    if |parts| == 1 {
      assert (parts + [last])[1..] == [last];
    } else {
      assert (parts + [last])[1..] == parts[1..] + [last];
      JoinSnoc(parts[1..], last, sep);
    }
  }

  /** No part holds `t` and no separator can be part of `t`: neither does the joined text. */
  lemma {:induction false} JoinAvoids(parts: seq<string>, c: char, t: string)
    requires c !in t
    requires forall k :: 0 <= k < |parts| ==> !Contains(parts[k], t)
    requires |t| >= 1
    ensures !Contains(Join(parts, [c]), t)
    decreases |parts|
  {
    if |parts| > 1 {
      JoinAvoids(parts[1..], c, t);
      var s := Join(parts, [c]);
      assert s == parts[0] + [c] + Join(parts[1..], [c]);
      if p :| OccursAt(s, t, p) {
        OccursInConcat(parts[0], c, Join(parts[1..], [c]), t, p);
      }
    }
  }

  /** `String.prototype.split` with a one-character separator: always at least one piece. */
  function Split(s: string, sep: char): (r: seq<string>)
    ensures |r| >= 1
    ensures forall k :: 0 <= k < |r| ==> sep !in r[k]
    decreases |s|
  {
    if s == [] then [""]
    else
      var rest := Split(s[1..], sep);
      if s[0] == sep then [""] + rest else [[s[0]] + rest[0]] + rest[1..]
  }

  /** Splitting and joining back with the same separator gives the string back. */
  lemma {:induction false} JoinSplit(s: string, sep: char)
    ensures Join(Split(s, sep), [sep]) == s
    decreases |s|
  {
    if s != [] {
      var rest := Split(s[1..], sep);
      JoinSplit(s[1..], sep);
      if s[0] == sep {
        assert ([""] + rest)[1..] == rest;
      } else if |rest| > 1 {
        var head := [s[0]] + rest[0];
        assert ([head] + rest[1..])[1..] == rest[1..];
        assert Join(rest, [sep]) == rest[0] + [sep] + Join(rest[1..], [sep]);
        assert s == [s[0]] + s[1..];
      } else {
        assert s == [s[0]] + s[1..];
      }
    }
  }

  /** The first piece is everything before the first separator. */
  lemma {:induction false} SplitHead(head: string, tail: string, sep: char)
    requires sep !in head
    requires tail == [] || tail[0] == sep
    ensures Split(head + tail, sep)[0] == head
    decreases |head|
  {
    if head == [] {
      assert head + tail == tail;
    } else {
      assert (head + tail)[1..] == head[1..] + tail;
      SplitHead(head[1..], tail, sep);
      assert head == [head[0]] + head[1..];
    }
  }

  /** A prefix free of the separator, then the separator, becomes the first piece. */
  lemma {:induction false} SplitAfterFirst(head: string, sep: char, tail: string)
    requires sep !in head
    ensures Split(head + [sep] + tail, sep) == [head] + Split(tail, sep)
    decreases |head|
  {
    var s := head + [sep] + tail;
    if head == [] {
      assert s[1..] == tail;
    } else {
      assert s[1..] == head[1..] + [sep] + tail;
      SplitAfterFirst(head[1..], sep, tail);
      assert head == [head[0]] + head[1..];
    }
  }

  /** A string without the separator splits into itself alone. */
  lemma {:induction false} SplitWithoutSeparator(s: string, sep: char)
    requires sep !in s
    ensures Split(s, sep) == [s]
    decreases |s|
  {
    if s != [] {
      SplitWithoutSeparator(s[1..], sep);
      assert s == [s[0]] + s[1..];
    }
  }

  /** Line terminators in ECMAScript: where `.` in a regular expression without the `s` flag stops. */
  predicate IsLineTerminator(c: char) {
    c == '\n' || c == '\r' || c == '\U{2028}' || c == '\U{2029}'
  }

  /** The characters `String.prototype.trim` removes: ECMAScript WhiteSpace and LineTerminator. */
  predicate IsJsWhitespace(c: char) {
    IsLineTerminator(c) || c == '\t' || c == ' ' || c == '\U{000B}' || c == '\U{000C}'
    || c == '\U{00A0}' || c == '\U{1680}' || '\U{2000}' <= c <= '\U{200A}'
    || c == '\U{202F}' || c == '\U{205F}' || c == '\U{3000}' || c == '\U{FEFF}'
  }

  /** `s` with its leading whitespace removed. */
  function TrimStart(s: string): (r: string)
    ensures |r| <= |s| && r == s[|s| - |r|..]
    ensures forall k :: 0 <= k < |s| - |r| ==> IsJsWhitespace(s[k])
    ensures r == [] || !IsJsWhitespace(r[0])
    decreases |s|
  {
    if s != [] && IsJsWhitespace(s[0]) then TrimStart(s[1..]) else s
  }

  /** `s` with its trailing whitespace removed. */
  function TrimEnd(s: string): (r: string)
    ensures |r| <= |s| && r == s[..|r|]
    ensures forall k :: |r| <= k < |s| ==> IsJsWhitespace(s[k])
    ensures r == [] || !IsJsWhitespace(r[|r| - 1])
    decreases |s|
  {
    if s != [] && IsJsWhitespace(s[|s| - 1]) then TrimEnd(s[..|s| - 1]) else s
  }

  /** The number of whitespace characters `trim` removes at the start. */
  function LeadingWhitespace(s: string): nat
  {
    |s| - |TrimStart(s)|
  }

  /** `String.prototype.trim`. */
  function Trim(s: string): (r: string)
    ensures |r| <= |s|
    ensures r == [] || (!IsJsWhitespace(r[0]) && !IsJsWhitespace(r[|r| - 1]))
  {
    TrimEnd(TrimStart(s))
  }

  /** `trim` returns a slice of `s`: only whitespace is cut off, at either end. */
  lemma {:induction false} TrimIsSlice(s: string)
    ensures LeadingWhitespace(s) + |Trim(s)| <= |s|
    ensures Trim(s) == s[LeadingWhitespace(s)..LeadingWhitespace(s) + |Trim(s)|]
    ensures forall k :: 0 <= k < LeadingWhitespace(s) ==> IsJsWhitespace(s[k])
    ensures forall k :: LeadingWhitespace(s) + |Trim(s)| <= k < |s| ==> IsJsWhitespace(s[k])
  {
    var u := TrimStart(s);
    PrefixOfSuffix(s, u, TrimEnd(u), |s| - |u|);
  }

  /** A prefix `r` of the suffix `u == s[a..]` is the slice `s[a..a + |r|]`. */
  lemma {:induction false} PrefixOfSuffix(s: string, u: string, r: string, a: nat)
    requires a <= |s| && u == s[a..]
    requires |r| <= |u| && r == u[..|r|]
    ensures a + |r| <= |s| && r == s[a..a + |r|]
    ensures forall k :: a + |r| <= k < |s| ==> s[k] == u[k - a]
  {
  }

  /** Dropping exactly the leading whitespace run `s[..a]` is what `TrimStart` does. */
  lemma {:induction false} TrimStartAt(s: string, a: nat)
    requires a <= |s|
    requires forall k :: 0 <= k < a ==> IsJsWhitespace(s[k])
    requires a == |s| || !IsJsWhitespace(s[a])
    ensures TrimStart(s) == s[a..]
  {
    var u := TrimStart(s);
    var start := |s| - |u|;
    assert start < |s| ==> u[0] == s[start];
  }

  /** Dropping exactly the trailing whitespace run `s[b..]` from `s[a..]` is what `TrimEnd` does. */
  lemma {:induction false} TrimEndAt(s: string, a: nat, b: nat)
    requires a <= b <= |s|
    requires forall k :: b <= k < |s| ==> IsJsWhitespace(s[k])
    requires b == a || !IsJsWhitespace(s[b - 1])
    ensures TrimEnd(s[a..]) == s[a..b]
  {
    var u := TrimEnd(s[a..]);
    assert 0 < |u| ==> u[|u| - 1] == s[a + |u| - 1];
    assert a < b ==> s[a..][b - a - 1] == s[b - 1];
    assert |u| == b - a;
  }

  /** A string made only of whitespace trims to the empty string. */
  lemma {:induction false} TrimAllWhitespace(s: string)
    requires forall k :: 0 <= k < |s| ==> IsJsWhitespace(s[k])
    ensures Trim(s) == []
  {
    TrimStartAt(s, |s|);
  }

  /** `s[a..b]` with only whitespace around it and none at its ends is what `trim` returns. */
  lemma {:induction false} TrimIsCore(s: string, a: nat, b: nat)
    requires a <= b <= |s|
    requires forall k :: 0 <= k < a ==> IsJsWhitespace(s[k])
    requires forall k :: b <= k < |s| ==> IsJsWhitespace(s[k])
    requires a == b || (!IsJsWhitespace(s[a]) && !IsJsWhitespace(s[b - 1]))
    ensures Trim(s) == s[a..b]
  {
    if a < b {
      TrimStartAt(s, a);
      TrimEndAt(s, a, b);
    } else {
      TrimAllWhitespace(s);
    }
  }

  /** Trimming twice is trimming once. */
  lemma {:induction false} TrimIdempotent(s: string)
    ensures Trim(Trim(s)) == Trim(s)
  {
    var r := Trim(s);
    TrimIsCore(r, 0, |r|);
  }
}
