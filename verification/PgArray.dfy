/**
 How the database reads and prints a one-dimensional `TEXT[]` literal (sections 8.15.2
 and 8.15.6 of the PostgreSQL 17 documentation). Nested and dimensioned literals are
 refused here; the service never writes one on purpose.
 */
module PgArray {
  import opened Wrappers
  import opened GoStrings

  /** An array element; `None` is NULL. */
  type Element = Option<string>

  /** White space to the array reader. */
  predicate IsBlank(c: char) {
    0x09 <= c as int <= 0x0D || c == ' '
  }

  predicate IsEscapable(c: char) { c == '"' || c == '\\' }

  /** Characters that end a bare element or start a nested array. */
  predicate IsDelimiter(c: char) { c == ',' || c == '{' || c == '}' }

  /** The word NULL in any letter case. */
  predicate IsNullWord(s: string) {
    |s| == 4 && s[0] in {'N', 'n'} && s[1] in {'U', 'u'} && s[2] in {'L', 'l'} && s[3] in {'L', 'l'}
  }

  // ----- printing

  function Escape(e: string): string {
    if e == "" then "" else (if IsEscapable(e[0]) then ['\\', e[0]] else [e[0]]) + Escape(e[1..])
  }

  predicate NeedsQuotes(e: string) {
    e == "" || IsNullWord(e) || exists i :: 0 <= i < |e| && (IsBlank(e[i]) || IsDelimiter(e[i]) || IsEscapable(e[i]))
  }

  function PrintElement(x: Element): string {
    if x.None? then "NULL" else if NeedsQuotes(x.value) then "\"" + Escape(x.value) + "\"" else x.value
  }

  function PrintElements(xs: seq<Element>): seq<string> {
    seq(|xs|, i requires 0 <= i < |xs| => PrintElement(xs[i]))
  }

  function Out(xs: seq<Element>): string {
    "{" + Join(PrintElements(xs), ",") + "}"
  }

  // ----- reading

  function SkipBlanks(s: string): string {
    TrimLeft(s, IsBlank)
  }

  /** A character of a bare element, and whether a backslash preceded it. */
  datatype Mark = Mark(c: char, escaped: bool)

  /** The characters of a bare element up to the comma or brace that ends it, and the text from there. */
  function Bare(s: string): (r: Option<(seq<Mark>, string)>)
    ensures r.Some? ==> |r.value.1| <= |s| && r.value.1 != "" && r.value.1[0] in {',', '}'}
  {
    if s == "" || s[0] == '{' || s[0] == '"' then None
    else if s[0] == ',' || s[0] == '}' then Some(([], s))
    else if s[0] == '\\' then
      if |s| == 1 then None
      else
        match Bare(s[2..])
        case None => None
        case Some((ms, rest)) => Some(([Mark(s[1], true)] + ms, rest))
    else
      match Bare(s[1..])
      case None => None
      case Some((ms, rest)) => Some(([Mark(s[0], false)] + ms, rest))
  }

  function DropBlankTail(ms: seq<Mark>): seq<Mark> {
    if |ms| > 0 && !ms[|ms| - 1].escaped && IsBlank(ms[|ms| - 1].c) then DropBlankTail(ms[..|ms| - 1]) else ms
  }

  function Chars(ms: seq<Mark>): string {
    seq(|ms|, i requires 0 <= i < |ms| => ms[i].c)
  }

  predicate NoEscapes(ms: seq<Mark>) {
    forall i :: 0 <= i < |ms| ==> !ms[i].escaped
  }

  function BareElement(ms: seq<Mark>): Element {
    var s := Chars(DropBlankTail(ms));
    if NoEscapes(ms) && IsNullWord(s) then None else Some(s)
  }

  /** The content of a quoted element after its opening quote, and the text after its closing quote. */
  function InQuotes(s: string): (r: Option<(string, string)>)
    ensures r.Some? ==> |r.value.1| < |s|
  {
    if s == "" then None
    else if s[0] == '"' then Some(("", s[1..]))
    else if s[0] == '\\' then
      if |s| == 1 then None
      else
        match InQuotes(s[2..])
        case None => None
        case Some((e, rest)) => Some(([s[1]] + e, rest))
    else
      match InQuotes(s[1..])
      case None => None
      case Some((e, rest)) => Some(([s[0]] + e, rest))
  }

  lemma {:induction false} SkipShortens(s: string)
    ensures |SkipBlanks(s)| <= |s|
  {
    if s != "" && IsBlank(s[0]) {
      SkipShortens(s[1..]);
    }
  }

  /** One element, and the text from the comma or brace after it. */
  function ReadElement(s: string): (r: Option<(Element, string)>)
    ensures r.Some? ==> |r.value.1| <= |s| && r.value.1 != "" && r.value.1[0] in {',', '}'}
  {
    SkipShortens(s);
    var s1 := SkipBlanks(s);
    if s1 == "" || IsDelimiter(s1[0]) then None
    else if s1[0] == '"' then
      match InQuotes(s1[1..])
      case None => None
      case Some((e, after)) =>
        SkipShortens(after);
        var rest := SkipBlanks(after);
        if rest != "" && (rest[0] == ',' || rest[0] == '}') then Some((Some(e), rest)) else None
    else
      match Bare(s1)
      case None => None
      case Some((ms, rest)) => Some((BareElement(ms), rest))
  }

  /** Elements up to the closing brace, after which only blanks may follow. */
  function ReadElements(s: string): (r: Option<seq<Element>>)
    ensures r.Some? ==> |r.value| > 0
    decreases |s|
  {
    match ReadElement(s)
    case None => None
    case Some((x, rest)) =>
      if rest[0] == '}' then if SkipBlanks(rest[1..]) == "" then Some([x]) else None
      else
        match ReadElements(rest[1..])
        case None => None
        case Some(xs) => Some([x] + xs)
  }

  function In(text: string): Option<seq<Element>> {
    var s := SkipBlanks(text);
    if s == "" || s[0] != '{' then None
    else
      var r := SkipBlanks(s[1..]);
      if r != "" && r[0] == '}' then if SkipBlanks(r[1..]) == "" then Some([]) else None
      else ReadElements(s[1..])
  }

  // ----- escaped text

  /** Backslashes occur exactly before quotes and backslashes, and quotes only after one. */
  predicate WellEscaped(n: string) {
    if n == "" then true
    else if n[0] == '\\' then |n| > 1 && IsEscapable(n[1]) && WellEscaped(n[2..])
    else n[0] != '"' && WellEscaped(n[1..])
  }

  ghost predicate NoDelimiters(n: string) {
    forall i :: 0 <= i < |n| ==> !IsDelimiter(n[i])
  }

  lemma {:induction false} EscapeIsWellEscaped(e: string)
    ensures WellEscaped(Escape(e)) && |Escape(e)| >= |e|
  {
    if e != "" {
      EscapeIsWellEscaped(e[1..]);
      if IsEscapable(e[0]) {
        assert Escape(e)[2..] == Escape(e[1..]);
      } else {
        assert Escape(e)[1..] == Escape(e[1..]);
      }
    }
  }

  lemma {:induction false} EscapeConcat(a: string, b: string)
    ensures Escape(a + b) == Escape(a) + Escape(b)
  {
    if a == "" {
      assert a + b == b;
    } else {
      assert (a + b)[1..] == a[1..] + b;
      EscapeConcat(a[1..], b);
    }
  }

  /** Without quotes and backslashes nothing is escaped. */
  lemma {:induction false} EscapePlain(e: string)
    requires forall i :: 0 <= i < |e| ==> !IsEscapable(e[i])
    ensures Escape(e) == e
  {
    if e != "" {
      EscapePlain(e[1..]);
      assert e == [e[0]] + e[1..];
    }
  }

  // ----- what any accepted literal looks like

  /** What follows the opening brace decides how a literal is read. */
  lemma InBraces(inner: string)
    ensures In("{" + inner) ==
            var r := SkipBlanks(inner);
            if r != "" && r[0] == '}' then if SkipBlanks(r[1..]) == "" then Some([]) else None
            else ReadElements(inner)
  {
    var text := "{" + inner;
    assert text[0] == '{' && text[1..] == inner;
    assert SkipBlanks(text) == text;
  }

  /** The raw text of a bare element is at least as long as its escaped content, and free of delimiters
      if it is well escaped. */
  lemma {:induction false} BareRaw(s: string) returns (w: string)
    requires Bare(s).Some?
    ensures s == w + Bare(s).value.1
    ensures |Escape(Chars(Bare(s).value.0))| <= |w|
    ensures WellEscaped(w) ==> NoDelimiters(w)
  {
    if s[0] == ',' || s[0] == '}' {
      w := "";
      assert Chars([]) == "";
    } else {
      var k := if s[0] == '\\' then 2 else 1;
      var tail := BareRaw(s[k..]);
      w := s[..k] + tail;
      var ms := Bare(s).value.0;
      assert Chars(ms)[1..] == Chars(Bare(s[k..]).value.0);
      assert s == s[..k] + s[k..];
      assert w[k..] == tail && w[..k] == s[..k];
      if WellEscaped(w) {
        assert WellEscaped(tail);
        forall i | 0 <= i < |w|
          ensures !IsDelimiter(w[i])
        {
          if i >= k { assert w[i] == tail[i - k]; }
        }
      }
    }
  }

  lemma {:induction false} DropShortens(ms: seq<Mark>)
    ensures |Escape(Chars(DropBlankTail(ms)))| <= |Escape(Chars(ms))|
    ensures |Escape(Chars(DropBlankTail(ms)))| == |Escape(Chars(ms))| ==> DropBlankTail(ms) == ms
  {
    if |ms| > 0 && !ms[|ms| - 1].escaped && IsBlank(ms[|ms| - 1].c) {
      var front := ms[..|ms| - 1];
      DropShortens(front);
      assert Chars(ms) == Chars(front) + [ms[|ms| - 1].c];
      EscapeConcat(Chars(front), [ms[|ms| - 1].c]);
      EscapeIsWellEscaped([ms[|ms| - 1].c]);
    }
  }

  lemma {:induction false} QuotedRaw(s: string) returns (q: string)
    requires InQuotes(s).Some?
    ensures s == q + "\"" + InQuotes(s).value.1 && |Escape(InQuotes(s).value.0)| <= |q|
  {
    if s[0] == '"' {
      q := "";
      assert s == "\"" + s[1..];
    } else {
      var k := if s[0] == '\\' then 2 else 1;
      var tail := QuotedRaw(s[k..]);
      q := s[..k] + tail;
      var e := InQuotes(s).value.0;
      assert e[1..] == InQuotes(s[k..]).value.0;
      assert s == s[..k] + s[k..];
    }
  }

  /** The raw text of a quoted element is longer than its escaped content. */
  lemma QuotedText(s: string, e: string, rest: string) returns (w: string)
    requires s != "" && s[0] == '"' && ReadElement(s) == Some((Some(e), rest))
    ensures s == w + rest && |Escape(e)| < |w|
  {
    var after := InQuotes(s[1..]).value.1;
    var q := QuotedRaw(s[1..]);
    var more := TrimLeftShape(after, IsBlank);
    w := "\"" + q + "\"" + more;
    assert s == "\"" + s[1..];
    assert s == w + rest;
  }

  /** A text read as a non-NULL element is at least as long as the escaped content; if not longer, it is
      bare and, if well escaped, free of delimiters. */
  lemma ElementRaw(s: string) returns (w: string)
    requires ReadElement(s).Some? && ReadElement(s).value.0.Some?
    ensures var (x, rest) := ReadElement(s).value;
            && s == w + rest && |Escape(x.value)| <= |w|
            && (|Escape(x.value)| == |w| ==>
                  w != "" && w[0] != '{' && w[0] != '"' && (WellEscaped(w) ==> NoDelimiters(w)))
  {
    var (x, rest) := ReadElement(s).value;
    var blanks := TrimLeftShape(s, IsBlank);
    var s1 := SkipBlanks(s);
    if s1[0] == '"' {
      var q := QuotedText(s1, x.value, rest);
      w := blanks + q;
      assert s == w + rest;
    } else {
      var raw := BareRaw(s1);
      DropShortens(Bare(s1).value.0);
      w := blanks + raw;
      assert s == w + rest;
      RawStart(s1, raw, rest);
      if |Escape(x.value)| == |w| {
        assert blanks == "" && w == raw;
      }
    }
  }

  lemma RawStart(s: string, raw: string, rest: string)
    requires s != "" && !IsDelimiter(s[0]) && s[0] != '"' && s == raw + rest && rest != "" && rest[0] in {',', '}'}
    ensures raw != "" && raw[0] == s[0]
  {
  }

  // ----- where quotes and backslashes go

  lemma CountCons(c: char, s: string)
    ensures multiset([c] + s)['"'] == multiset(s)['"'] + if c == '"' then 1 else 0
    ensures multiset([c] + s)['\\'] == multiset(s)['\\'] + if c == '\\' then 1 else 0
  {
  }

  /** Escaping keeps the quotes, and adds a backslash for each quote and each backslash. */
  lemma {:induction false} EscapeCounts(e: string)
    ensures multiset(Escape(e))['"'] == multiset(e)['"']
    ensures multiset(Escape(e))['\\'] == 2 * multiset(e)['\\'] + multiset(e)['"']
  {
    if e != "" {
      EscapeCounts(e[1..]);
      EscapeHead(e[0], e[1..]);
      assert e == [e[0]] + e[1..];
    }
  }

  lemma EscapeHead(c: char, s: string)
    ensures multiset(Escape([c] + s))['"'] == multiset(Escape(s))['"'] + if c == '"' then 1 else 0
    ensures multiset(Escape([c] + s))['\\'] ==
            multiset(Escape(s))['\\'] + if c == '"' then 1 else if c == '\\' then 2 else 0
    ensures multiset([c] + s)['"'] == multiset(s)['"'] + if c == '"' then 1 else 0
    ensures multiset([c] + s)['\\'] == multiset(s)['\\'] + if c == '\\' then 1 else 0
  {
    var e, tail := [c] + s, Escape(s);
    assert e[0] == c && e[1..] == s;
    CountCons(c, s);
    CountCons(c, tail);
    if IsEscapable(c) {
      assert Escape(e) == ['\\'] + ([c] + tail);
      CountCons('\\', [c] + tail);
    }
  }
}
