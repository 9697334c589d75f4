/**
 How the driver reads a `TEXT[]` literal before it sends the elements in binary:
 vendor/github.com/jackc/pgx/v5/pgtype/array.go and
 vendor/github.com/jackc/pgx/v5/pgtype/array_codec.go. A literal with explicit dimensions,
 which does not start with a brace, is refused here; the service prints none.
 */
module DriverArray {
  import opened Wrappers
  import opened GoStrings
  import opened PgArray

  // ----- reading

  /** The text of a bare item, as it stands, up to the comma or closing brace that ends it. */
  function BareItem(s: string): (r: Option<(string, string)>)
    ensures r.Some? ==> |r.value.1| <= |s|
    ensures r.Some? && s != "" && s[0] !in {',', '}'} ==> |r.value.1| < |s|
  {
    if s == "" then None
    else if s[0] in {',', '}'} then Some(("", s))
    else
      match BareItem(s[1..])
      case None => None
      case Some((e, rest)) => Some(([s[0]] + e, rest))
  }

  /** The content of a quoted item after its opening quote; something must follow the closing one. */
  function QuotedItem(s: string): (r: Option<(string, string)>)
    ensures r.Some? ==> |r.value.1| < |s|
  {
    if |s| <= 1 then None
    else if s[0] == '"' then Some(("", s[1..]))
    else if s[0] == '\\' then
      match QuotedItem(s[2..])
      case None => None
      case Some((e, rest)) => Some(([s[1]] + e, rest))
    else
      match QuotedItem(s[1..])
      case None => None
      case Some((e, rest)) => Some(([s[0]] + e, rest))
  }

  function Item(s: string): (r: Option<(Element, string)>)
    requires s != "" && s[0] !in {',', '}'}
    ensures r.Some? ==> |r.value.1| < |s|
  {
    if s[0] == '"' then
      match QuotedItem(s[1..])
      case None => None
      case Some((e, rest)) => Some((Some(e), rest))
    else
      match BareItem(s)
      case None => None
      case Some((e, rest)) => Some((if e == "NULL" then None else Some(e), rest))
  }

  /** All items in order, and the length counted for each dimension. */
  datatype Literal = Literal(items: seq<Element>, lengths: seq<nat>)

  function Counted(lengths: seq<nat>, depth: nat, low: nat): seq<nat>
    requires low < |lengths|
  {
    if depth == low then lengths[low := lengths[low] + 1] else lengths
  }

  /** The loop after the opening braces; `low` is the smallest depth so far, the only one counted at.
      Commas and braces separate items, and nothing checks that they alternate with them. */
  function Items(s: string, depth: nat, low: nat, lengths: seq<nat>): Option<Literal>
    requires low <= depth && low < |lengths|
    decreases |s|
  {
    if s == "" then None
    else if s[0] == '{' then Items(s[1..], depth + 1, low, Counted(lengths, depth, low))
    else if s[0] == ',' then Items(s[1..], depth, low, lengths)
    else if s[0] == '}' then
      if depth > 0 then Items(s[1..], depth - 1, if depth - 1 < low then depth - 1 else low, lengths)
      else if TrimLeft(s[1..], IsSpace) == "" then Some(Literal([], lengths))
      else None
    else
      match Item(s)
      case None => None
      case Some((x, rest)) =>
        match Items(rest, depth, low, Counted(lengths, depth, low))
        case None => None
        case Some(l) => Some(Literal([x] + l.items, l.lengths))
  }

  /** Each opening brace after the first starts a dimension inside one of length 1. */
  function Opened(s: string, depth: nat): Option<Literal> {
    if s != "" && s[0] == '{' then Opened(s[1..], depth + 1)
    else Items(s, depth, depth, seq(depth, _ => 1) + [0])
  }

  function Parse(text: string): Option<Literal> {
    var s := TrimLeft(text, IsSpace);
    if s == "" || s[0] != '{' then None else Opened(s[1..], 0)
  }

  function Product(lengths: seq<nat>): nat {
    if |lengths| == 0 then 1 else lengths[0] * Product(lengths[1..])
  }

  /** The elements sent, as many as the dimensions multiply to, padded with NULL. With more items than
      that the driver panics, and nothing is sent. */
  function Sent(l: Literal): Option<seq<Element>> {
    if l.items == [] then Some([])
    else if |l.items| > Product(l.lengths) then None
    else Some(l.items + Nulls(Product(l.lengths) - |l.items|))
  }

  function Nulls(n: nat): seq<Element> {
    seq(n, _ => None)
  }

  // ----- names that are read as they stand

  /** Names that `Value`, the driver, the database and `Scan` carry through unchanged. */
  predicate Durable(n: string) {
    n != "" && n[0] != '{' && forall i :: 0 <= i < |n| ==> n[i] !in {',', '}', '"', '\\'}
  }

  function ElementOf(n: string): Element {
    if n == "NULL" then None else Some(n)
  }

  function ElementsOf(names: seq<string>): seq<Element> {
    seq(|names|, i requires 0 <= i < |names| => ElementOf(names[i]))
  }

  /** A name that the driver reads as one bare item. */
  ghost predicate ReadsBare(n: string) {
    n != "" && n[0] != '{' && n[0] != '"' && forall i :: 0 <= i < |n| ==> n[i] !in {',', '}'}
  }

  lemma {:induction false} BareReads(n: string, rest: string)
    requires (forall i :: 0 <= i < |n| ==> n[i] !in {',', '}'}) && rest != "" && rest[0] in {',', '}'}
    ensures BareItem(n + rest) == Some((n, rest))
  {
    if n == "" {
      assert n + rest == rest;
    } else {
      assert (n + rest)[0] == n[0] && (n + rest)[1..] == n[1..] + rest;
      BareReads(n[1..], rest);
      assert [n[0]] + n[1..] == n;
    }
  }

  lemma ItemReads(n: string, rest: string)
    requires ReadsBare(n) && rest != "" && rest[0] in {',', '}'}
    ensures (n + rest)[0] == n[0] && Item(n + rest) == Some((ElementOf(n), rest))
  {
    BareReads(n, rest);
  }

  lemma EndReads(end: string, count: nat)
    requires end == "}"
    ensures Items(end, 0, 0, [count]) == Some(Literal([], [count]))
  {
    assert end[1..] == "";
  }

  lemma JoinFirst(names: seq<string>, end: string)
    requires |names| > 1
    ensures Join(names, ",") + end == names[0] + ("," + (Join(names[1..], ",") + end))
  {
  }

  /** An item in front: it is read, counted, and the rest goes on. */
  lemma ItemsCons(n: string, rest: string, count: nat)
    requires ReadsBare(n) && rest != "" && rest[0] in {',', '}'}
    ensures Items(n + rest, 0, 0, [count]) ==
            match Items(rest, 0, 0, [count + 1])
            case None => None
            case Some(l) => Some(Literal([ElementOf(n)] + l.items, l.lengths))
  {
    ItemReads(n, rest);
    assert Counted([count], 0, 0) == [count + 1];
  }

  lemma CommaReads(rest: string, count: nat)
    ensures Items("," + rest, 0, 0, [count]) == Items(rest, 0, 0, [count])
  {
    assert ("," + rest)[0] == ',' && ("," + rest)[1..] == rest;
  }

  lemma {:induction false} ItemsRead(names: seq<string>, end: string, count: nat)
    requires |names| > 0 && end == "}" && forall i :: 0 <= i < |names| ==> ReadsBare(names[i])
    ensures Items(Join(names, ",") + end, 0, 0, [count]) == Some(Literal(ElementsOf(names), [count + |names|]))
    decreases |names|
  {
    if |names| == 1 {
      ItemsCons(names[0], end, count);
      EndReads(end, count + 1);
      assert ElementsOf(names) == [ElementOf(names[0])] + [];
    } else {
      var tail := Join(names[1..], ",") + end;
      JoinFirst(names, end);
      ItemsCons(names[0], "," + tail, count);
      CommaReads(tail, count + 1);
      ItemsRead(names[1..], end, count + 1);
      assert ElementsOf(names) == [ElementOf(names[0])] + ElementsOf(names[1..]);
    }
  }

  /** What follows the first brace is read with the braces that follow it opened. */
  lemma ParseBraced(inner: string)
    ensures Parse("{" + inner) == Opened(inner, 0)
  {
    var text := "{" + inner;
    assert text[0] == '{' && text[1..] == inner && TrimLeft(text, IsSpace) == text;
  }

  lemma OpenedOnce(inner: string)
    requires inner != "" && inner[0] != '{'
    ensures Opened(inner, 0) == Items(inner, 0, 0, [0])
  {
    assert seq(0, _ => 1) + [0] == [0];
  }

  lemma JoinStart(names: seq<string>, end: string)
    requires |names| > 0 && names[0] != ""
    ensures Join(names, ",") + end != "" && (Join(names, ",") + end)[0] == names[0][0]
  {
  }

  /** The driver reads a literal of such names as the names, NULL among them as NULL. */
  lemma ReadsNames(names: seq<string>, end: string)
    requires end == "}" && forall i :: 0 <= i < |names| ==> ReadsBare(names[i])
    ensures var l := Parse("{" + (Join(names, ",") + end));
            l.Some? && Sent(l.value) == Some(ElementsOf(names))
  {
    var inner := Join(names, ",") + end;
    ParseBraced(inner);
    if |names| == 0 {
      assert inner == end;
      OpenedOnce(end);
      EndReads(end, 0);
      assert ElementsOf(names) == [];
    } else {
      InnerReads(names, end);
      SentAll(ElementsOf(names));
    }
  }

  lemma InnerReads(names: seq<string>, end: string)
    requires |names| > 0 && end == "}" && forall i :: 0 <= i < |names| ==> ReadsBare(names[i])
    ensures Opened(Join(names, ",") + end, 0) == Some(Literal(ElementsOf(names), [|names|]))
  {
    JoinStart(names, end);
    OpenedOnce(Join(names, ",") + end);
    ItemsRead(names, end, 0);
  }

  lemma SentAll(xs: seq<Element>)
    ensures Sent(Literal(xs, [|xs|])) == Some(xs)
  {
    assert [|xs|][1..] == [] && Product([|xs|]) == |xs|;
    assert Nulls(0) == [] && xs + [] == xs;
  }

  // ----- what a literal with a single item looks like

  /** Without items there are only separators. */
  lemma {:induction false} NoItems(s: string, depth: nat, low: nat, lengths: seq<nat>)
    requires low <= depth && low < |lengths|
    requires Items(s, depth, low, lengths).Some? && Items(s, depth, low, lengths).value.items == []
    ensures multiset(s)['\\'] == 0
    decreases |s|
  {
    var tail := s[1..];
    assert s == [s[0]] + tail;
    if s[0] == '{' {
      NoItems(tail, depth + 1, low, Counted(lengths, depth, low));
    } else if s[0] == ',' {
      NoItems(tail, depth, low, lengths);
    } else if s[0] == '}' && depth > 0 {
      NoItems(tail, depth - 1, if depth - 1 < low then depth - 1 else low, lengths);
    } else {
      var l := TrimLeftShape(tail, IsSpace);
      assert tail == l;
    }
  }

  /** A bare item has no comma or closing brace, and the backslashes of its text. */
  ghost predicate FromBare(s: string, e: string) {
    && e != "" && e[0] != '{' && (forall i :: 0 <= i < |e| ==> e[i] !in {',', '}'})
    && multiset(s)['\\'] == multiset(e)['\\']
  }

  /** A quoted item stands in a text with two more quotes than it has itself. */
  ghost predicate FromQuoted(s: string, e: string) {
    multiset(s)['"'] >= multiset(e)['"'] + 2
  }

  lemma {:induction false} BareText(s: string)
    requires BareItem(s).Some?
    ensures var (e, rest) := BareItem(s).value;
            s == e + rest && forall i :: 0 <= i < |e| ==> e[i] !in {',', '}'}
  {
    if s[0] !in {',', '}'} {
      BareText(s[1..]);
      assert s == [s[0]] + s[1..];
    }
  }

  lemma {:induction false} QuotedText(s: string)
    requires QuotedItem(s).Some?
    ensures var (e, rest) := QuotedItem(s).value; multiset(s)['"'] >= multiset(e)['"'] + 1
  {
    if s[0] == '"' {
      assert s == [s[0]] + s[1..];
    } else {
      var k := if s[0] == '\\' then 2 else 1;
      QuotedText(s[k..]);
      assert s == s[..k] + s[k..];
      if k == 2 {
        assert s[..2] == [s[0]] + [s[1]];
      }
    }
  }

  lemma ItemText(s: string, e: string, rest: string)
    requires s != "" && s[0] !in {'{', ',', '}'} && Item(s) == Some((Some(e), rest))
    requires multiset(rest)['\\'] == 0
    ensures FromBare(s, e) || FromQuoted(s, e)
  {
    if s[0] == '"' {
      QuotedText(s[1..]);
      assert s == [s[0]] + s[1..];
    } else {
      BareText(s);
      assert e[0] == s[0];
    }
  }

  lemma {:induction false} OneItem(s: string, depth: nat, low: nat, lengths: seq<nat>, e: string)
    requires low <= depth && low < |lengths|
    requires Items(s, depth, low, lengths).Some? && Items(s, depth, low, lengths).value.items == [Some(e)]
    ensures FromBare(s, e) || FromQuoted(s, e)
    decreases |s|
  {
    var tail := s[1..];
    assert s == [s[0]] + tail;
    if s[0] == '{' {
      OneItem(tail, depth + 1, low, Counted(lengths, depth, low), e);
    } else if s[0] == ',' {
      OneItem(tail, depth, low, lengths, e);
    } else if s[0] == '}' {
      OneItem(tail, depth - 1, if depth - 1 < low then depth - 1 else low, lengths, e);
    } else {
      var (x, rest) := Item(s).value;
      var l := Items(rest, depth, low, Counted(lengths, depth, low)).value;
      assert ([x] + l.items)[0] == Some(e) && |[x] + l.items| == 1;
      NoItems(rest, depth, low, Counted(lengths, depth, low));
      ItemText(s, e, rest);
    }
  }

  lemma {:induction false} OpenedOne(s: string, depth: nat, e: string)
    requires Opened(s, depth).Some? && Opened(s, depth).value.items == [Some(e)]
    ensures FromBare(s, e) || FromQuoted(s, e)
  {
    if s != "" && s[0] == '{' {
      OpenedOne(s[1..], depth + 1, e);
      assert s == [s[0]] + s[1..];
    } else {
      OneItem(s, depth, depth, seq(depth, _ => 1) + [0], e);
    }
  }

  /** A one-element array comes from a literal with that one item. */
  lemma SentOne(l: Literal, x: Element)
    requires Sent(l) == Some([x])
    ensures l.items == [x]
  {
    var padding := Nulls(Product(l.lengths) - |l.items|);
    assert |l.items + padding| == 1;
    assert (l.items + padding)[0] == l.items[0];
  }
}
