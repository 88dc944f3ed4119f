/**
  String helpers with the meaning Python gives them: `str.split` on a
  one-character separator, its inverse `sep.join`, and the substring test
  `sub in s`. Strings are sequences of characters; nothing is normalised.
 */
module Strings {

  /** The pieces of `s` between occurrences of `sep`, as Python's `s.split(sep)`
      returns them: always at least one piece, and no piece holds `sep`. */
  function Split(s: string, sep: char): (parts: seq<string>)
    ensures |parts| >= 1
    ensures forall i :: 0 <= i < |parts| ==> sep !in parts[i]
    decreases |s|
  {
    if s == [] then [""]
    else if s[0] == sep then [""] + Split(s[1..], sep)
    else
      var rest := Split(s[1..], sep);
      [[s[0]] + rest[0]] + rest[1..]
  }

  /** Python's `sep.join(parts)`: the pieces glued with one separator between neighbours. */
  function Join(parts: seq<string>, sep: char): string
    requires |parts| >= 1
    decreases |parts|
  {
    if |parts| == 1 then parts[0] else parts[0] + [sep] + Join(parts[1..], sep)
  }

  /** Joining the pieces of a split gives back the original string. */
  lemma {:induction false} JoinSplit(s: string, sep: char)
    ensures Join(Split(s, sep), sep) == s
    decreases |s|
  {
    if s == [] {
    } else if s[0] == sep {
      JoinSplit(s[1..], sep);
      assert Split(s, sep)[1..] == Split(s[1..], sep);
    } else {
      JoinSplit(s[1..], sep);
      var rest := Split(s[1..], sep);
      if |rest| == 1 {
        assert s == [s[0]] + s[1..];
      } else {
        assert Split(s, sep)[1..] == rest[1..];
        assert Join(rest, sep) == rest[0] + [sep] + Join(rest[1..], sep);
        assert s == [s[0]] + s[1..];
      }
    }
  }

  /** Splitting a separator-free prefix followed by more text extends the first piece. */
  lemma {:induction false} SplitFreePrefix(x: string, t: string, sep: char)
    requires sep !in x
    ensures Split(x + t, sep) == [x + Split(t, sep)[0]] + Split(t, sep)[1..]
    decreases |x|
  {
    if x == [] {
      assert x + t == t;
      assert x + Split(t, sep)[0] == Split(t, sep)[0];
      assert Split(t, sep) == [Split(t, sep)[0]] + Split(t, sep)[1..];
    } else {
      assert (x + t)[1..] == x[1..] + t;
      SplitFreePrefix(x[1..], t, sep);
      assert [x[0]] + (x[1..] + Split(t, sep)[0]) == x + Split(t, sep)[0];
    }
  }

  /** Splitting a join of separator-free pieces gives back the pieces. */
  lemma {:induction false} SplitJoin(parts: seq<string>, sep: char)
    requires |parts| >= 1
    requires forall i :: 0 <= i < |parts| ==> sep !in parts[i]
    ensures Split(Join(parts, sep), sep) == parts
    decreases |parts|
  {
    if |parts| == 1 {
      SplitFreePrefix(parts[0], "", sep);
      assert parts[0] + "" == parts[0];
    } else {
      var tail := Join(parts[1..], sep);
      SplitJoin(parts[1..], sep);
      assert parts[0] + [sep] + tail == parts[0] + ([sep] + tail);
      SplitFreePrefix(parts[0], [sep] + tail, sep);
      assert ([sep] + tail)[1..] == tail;
      assert Split([sep] + tail, sep) == [""] + Split(tail, sep);
      assert parts[0] + "" == parts[0];
      assert parts == [parts[0]] + parts[1..];
    }
  }

  /** Python's `sub in s`: `sub` occurs as a contiguous run of `s` (the empty
      string occurs in every string). */
  function Contains(s: string, sub: string): (r: bool)
    ensures r <==> exists i :: 0 <= i <= |s| && sub <= s[i..]
    decreases |s|
  {
    if sub <= s then
      assert sub <= s[0..];
      true
    else if s == [] then
      false
    else
      ShiftOccurrence(s, sub);
      Contains(s[1..], sub)
  }

  /** An occurrence past the first character of `s` is an occurrence in `s[1..]`, one place earlier. */
  lemma ShiftOccurrence(s: string, sub: string)
    requires s != []
    ensures (exists i :: 1 <= i <= |s| && sub <= s[i..]) <==> (exists j :: 0 <= j <= |s[1..]| && sub <= s[1..][j..])
  {
    if exists i :: 1 <= i <= |s| && sub <= s[i..] {
      var i :| 1 <= i <= |s| && sub <= s[i..];
      assert s[1..][i - 1..] == s[i..];
    }
    if exists j :: 0 <= j <= |s[1..]| && sub <= s[1..][j..] {
      var j :| 0 <= j <= |s[1..]| && sub <= s[1..][j..];
      assert s[1..][j..] == s[1 + j..];
    }
  }

  /** A string contains itself, so an exact name match is also a substring match. */
  lemma ContainsSelf(s: string)
    ensures Contains(s, s)
  {
    assert s <= s[0..];
  }
}
