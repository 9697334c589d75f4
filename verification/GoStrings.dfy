/**
 The functions of Go's `strings` package that the service is built on, over
 sequences of code points, and the laws its parsers and printers rely on.
 */
module GoStrings {

  /** `strings.Split` with a one-character separator: never empty, `Split("", c) == [""]`. */
  function Split(s: string, sep: char): (parts: seq<string>)
    ensures |parts| >= 1
  {
    if s == "" then [""]
    else
      var rest := Split(s[1..], sep);
      if s[0] == sep then [""] + rest else [[s[0]] + rest[0]] + rest[1..]
  }

  /** `strings.Join`. */
  function Join(parts: seq<string>, sep: string): string {
    if |parts| == 0 then ""
    else if |parts| == 1 then parts[0]
    else parts[0] + sep + Join(parts[1..], sep)
  }

  ghost predicate SepFree(parts: seq<string>, sep: char) {
    forall i :: 0 <= i < |parts| ==> sep !in parts[i]
  }

  lemma {:induction false} SplitSepFree(s: string, sep: char)
    ensures SepFree(Split(s, sep), sep)
  {
    if s != "" {
      SplitSepFree(s[1..], sep);
    }
  }

  /** Splitting distributes over a separator: no part spans it. */
  lemma {:induction false} SplitAtSep(a: string, sep: char, b: string)
    ensures Split(a + [sep] + b, sep) == Split(a, sep) + Split(b, sep)
  {
    if a == "" {
      assert a + [sep] + b == [sep] + b;
      assert ([sep] + b)[1..] == b;
    } else {
      assert (a + [sep] + b)[1..] == a[1..] + [sep] + b;
      SplitAtSep(a[1..], sep, b);
    }
  }

  lemma {:induction false} SplitNoSep(s: string, sep: char)
    requires sep !in s
    ensures Split(s, sep) == [s]
  {
    if s != "" {
      SplitNoSep(s[1..], sep);
      assert [s[0]] + s[1..] == s;
    }
  }

  /** Joining then splitting gives the parts back, in order. */
  lemma {:induction false} SplitJoin(parts: seq<string>, sep: char)
    requires |parts| >= 1 && SepFree(parts, sep)
    ensures Split(Join(parts, [sep]), sep) == parts
  {
    if |parts| == 1 {
      SplitNoSep(parts[0], sep);
    } else {
      SplitJoin(parts[1..], sep);
      SplitAtSep(parts[0], sep, Join(parts[1..], [sep]));
      SplitNoSep(parts[0], sep);
      assert [parts[0]] + parts[1..] == parts;
    }
  }

  /** Splitting then joining gives the text back. */
  lemma {:induction false} JoinSplit(s: string, sep: char)
    ensures Join(Split(s, sep), [sep]) == s
  {
    if s != "" {
      var rest := Split(s[1..], sep);
      JoinSplit(s[1..], sep);
      if s[0] == sep {
        assert ([""] + rest)[1..] == rest;
        assert "" + [sep] + s[1..] == s;
      } else {
        var parts := [[s[0]] + rest[0]] + rest[1..];
        assert parts[1..] == rest[1..];
        assert [s[0]] + s[1..] == s;
        if |rest| > 1 {
          var tail := [sep] + Join(rest[1..], [sep]);
          assert rest[0] + [sep] + Join(rest[1..], [sep]) == rest[0] + tail;
          assert [s[0]] + rest[0] + [sep] + Join(rest[1..], [sep]) == [s[0]] + (rest[0] + tail);
        }
      }
    }
  }

  /** A text has exactly one part per separator plus one; a single part means no separator. */
  lemma SplitSingle(s: string, sep: char)
    ensures |Split(s, sep)| == 1 <==> sep !in s
  {
    if sep !in s {
      SplitNoSep(s, sep);
    } else {
      JoinSplit(s, sep);
      SplitSepFree(s, sep);
    }
  }

  ghost predicate All(s: string, p: char -> bool) {
    forall i :: 0 <= i < |s| ==> p(s[i])
  }

  /** Neither end of the text is in the cut set (the empty text qualifies). */
  ghost predicate Tight(s: string, p: char -> bool) {
    s != "" ==> !p(s[0]) && !p(s[|s| - 1])
  }

  function TrimLeft(s: string, p: char -> bool): string {
    if s != "" && p(s[0]) then TrimLeft(s[1..], p) else s
  }

  function TrimRight(s: string, p: char -> bool): string {
    if s != "" && p(s[|s| - 1]) then TrimRight(s[..|s| - 1], p) else s
  }

  /** `strings.Trim` / `strings.TrimSpace`: drop the longest prefix and suffix in the cut set. */
  function Trim(s: string, p: char -> bool): string {
    TrimRight(TrimLeft(s, p), p)
  }

  lemma {:induction false} TrimLeftShape(s: string, p: char -> bool) returns (l: string)
    ensures s == l + TrimLeft(s, p) && All(l, p)
    ensures TrimLeft(s, p) != "" ==> !p(TrimLeft(s, p)[0])
  {
    if s != "" && p(s[0]) {
      var tail := s[1..];
      var m := TrimLeftShape(tail, p);
      assert s == [s[0]] + tail && TrimLeft(s, p) == TrimLeft(tail, p);
      l := [s[0]] + m;
    } else {
      l := "";
    }
  }

  lemma {:induction false} TrimRightShape(s: string, p: char -> bool) returns (r: string)
    ensures s == TrimRight(s, p) + r && All(r, p)
    ensures TrimRight(s, p) != "" ==> !p(TrimRight(s, p)[|TrimRight(s, p)| - 1])
  {
    if s != "" && p(s[|s| - 1]) {
      var front := s[..|s| - 1];
      var m := TrimRightShape(front, p);
      assert s == front + [s[|s| - 1]] && TrimRight(s, p) == TrimRight(front, p);
      r := m + [s[|s| - 1]];
    } else {
      r := "";
    }
  }

  /** What `Trim` returns sits between two runs of cut characters and has tight ends. */
  lemma TrimShape(s: string, p: char -> bool) returns (l: string, r: string)
    ensures s == l + Trim(s, p) + r && All(l, p) && All(r, p) && Tight(Trim(s, p), p)
  {
    l := TrimLeftShape(s, p);
    var m := TrimLeft(s, p);
    r := TrimRightShape(m, p);
    assert m == Trim(s, p) + r;
    if Trim(s, p) != "" {
      assert m[0] == Trim(s, p)[0];
    }
    assert s == l + (Trim(s, p) + r);
  }

  lemma {:induction false} TrimLeftPadded(l: string, m: string, p: char -> bool)
    requires All(l, p) && (m != "" ==> !p(m[0]))
    ensures TrimLeft(l + m, p) == m
  {
    if l == "" {
      assert l + m == m;
    } else {
      assert (l + m)[1..] == l[1..] + m;
      TrimLeftPadded(l[1..], m, p);
    }
  }

  lemma {:induction false} TrimRightPadded(m: string, r: string, p: char -> bool)
    requires All(r, p) && (m != "" ==> !p(m[|m| - 1]))
    ensures TrimRight(m + r, p) == m
  {
    if r == "" {
      assert m + r == m;
    } else {
      assert (m + r)[..|m + r| - 1] == m + r[..|r| - 1];
      TrimRightPadded(m, r[..|r| - 1], p);
    }
  }

  /** The converse of `TrimShape`: padding a tight text with cut characters is undone by `Trim`. */
  lemma {:induction false} TrimPadded(l: string, m: string, r: string, p: char -> bool)
    requires All(l, p) && All(r, p) && Tight(m, p)
    ensures Trim(l + m + r, p) == m
  {
    if m == "" {
      assert l + m + r == (l + r) + "";
      TrimLeftPadded(l + r, "", p);
    } else {
      assert l + m + r == l + (m + r);
      assert (m + r)[0] == m[0];
      TrimLeftPadded(l, m + r, p);
      TrimRightPadded(m, r, p);
    }
  }

  /** `unicode.IsSpace`. */
  predicate IsSpace(c: char) {
    var n := c as int;
    0x09 <= n <= 0x0D || n == 0x20 || n == 0x85 || n == 0xA0 || n == 0x1680 || 0x2000 <= n <= 0x200A ||
    n == 0x2028 || n == 0x2029 || n == 0x202F || n == 0x205F || n == 0x3000
  }

  /** `strings.HasPrefix`. */
  predicate HasPrefix(s: string, prefix: string) {
    prefix <= s
  }

  predicate HasSuffix(s: string, suffix: string) {
    |s| >= |suffix| && s[|s| - |suffix|..] == suffix
  }

  /** `strings.TrimSuffix`. */
  function TrimSuffix(s: string, suffix: string): string {
    if HasSuffix(s, suffix) then s[..|s| - |suffix|] else s
  }
}
