/** Page numbers from request strings: internal/page/page.go, with `strconv.Atoi` on 64-bit ints. */
module Page {
  import opened Wrappers
  import opened GoStrings

  const MAX_INT: int := 0x7FFF_FFFF_FFFF_FFFF
  const MIN_INT: int := -0x8000_0000_0000_0000
  const DEFAULT_NUMBER := 1
  const DEFAULT_ROWS := 10
  const MAX_NUMBER := 100

  datatype Page = Page(number: int, rows: int)

  /** The pages `Parse` may return. */
  ghost predicate Legal(p: Page) {
    1 <= p.number <= 100 && 1 <= p.rows <= 0x7FFF_FFFF_FFFF_FFFF
  }

  predicate IsDigit(c: char) { '0' <= c <= '9' }

  predicate AllDigits(s: string) {
    forall i :: 0 <= i < |s| ==> IsDigit(s[i])
  }

  function DecValue(s: string): nat
    requires AllDigits(s)
  {
    if s == "" then 0 else 10 * DecValue(s[..|s| - 1]) + (s[|s| - 1] as int - '0' as int)
  }

  function Magnitude(digits: string): Option<nat> {
    if digits == "" || !AllDigits(digits) then None else Some(DecValue(digits))
  }

  /** `strconv.Atoi`: an optional sign, at least one digit, nothing else, and a 64-bit value. */
  function Atoi(s: string): Option<int> {
    var neg := HasPrefix(s, "-");
    var m := Magnitude(if neg || HasPrefix(s, "+") then s[1..] else s);
    if m.None? then None
    else if neg then if 0 - m.value < MIN_INT then None else Some(0 - m.value)
    else if m.value > MAX_INT then None else Some(m.value)
  }

  function Parse(pageNumber: string, rowsPerPage: string): Option<Page> {
    var number := if pageNumber == "" then Some(DEFAULT_NUMBER) else Atoi(pageNumber);
    if number.None? then None
    else
      var rows := if rowsPerPage == "" then Some(DEFAULT_ROWS) else Atoi(rowsPerPage);
      if rows.None? then None
      else if number.value <= 0 then None
      else if rows.value <= 0 then None
      else if number.value > MAX_NUMBER then None
      else Some(Page(number.value, rows.value))
  }

  // ----- which strings denote which numbers

  function Digit(d: nat): char
    requires d < 10
  {
    ('0' as int + d) as char
  }

  /** The canonical decimal numeral. */
  function Itoa(n: nat): string {
    if n < 10 then [Digit(n)] else Itoa(n / 10) + [Digit(n % 10)]
  }

  function Zeros(k: nat): string {
    seq(k, _ => '0')
  }

  /** A numeral as a client may write it: an optional plus sign and leading zeros. */
  function Spelled(plus: bool, k: nat, n: nat): string {
    (if plus then "+" else "") + Zeros(k) + Itoa(n)
  }

  lemma {:induction false} DecValueOfNumeral(k: nat, n: nat)
    ensures AllDigits(Zeros(k) + Itoa(n)) && DecValue(Zeros(k) + Itoa(n)) == n
  {
    if n < 10 {
      var s := Zeros(k) + Itoa(n);
      assert s[..|s| - 1] == Zeros(k);
      DecValueOfZeros(k);
    } else {
      DecValueOfNumeral(k, n / 10);
      var s := Zeros(k) + Itoa(n);
      assert s == (Zeros(k) + Itoa(n / 10)) + [Digit(n % 10)];
      assert s[..|s| - 1] == Zeros(k) + Itoa(n / 10);
    }
  }

  lemma {:induction false} DecValueOfZeros(k: nat)
    ensures AllDigits(Zeros(k)) && DecValue(Zeros(k)) == 0
  {
    if k > 0 {
      DecValueOfZeros(k - 1);
      assert Zeros(k)[..k - 1] == Zeros(k - 1);
    }
  }

  lemma {:induction false} ZeroIsZeros(s: string)
    requires AllDigits(s) && DecValue(s) == 0
    ensures s == Zeros(|s|)
  {
    if s != "" {
      ZeroIsZeros(s[..|s| - 1]);
      assert s == s[..|s| - 1] + [s[|s| - 1]];
    }
  }

  /** A digit string is its canonical numeral after leading zeros. */
  lemma {:induction false} DigitsSpell(s: string) returns (k: nat)
    requires AllDigits(s) && DecValue(s) > 0
    ensures s == Zeros(k) + Itoa(DecValue(s))
  {
    var front := s[..|s| - 1];
    assert s == front + [s[|s| - 1]];
    if DecValue(front) == 0 {
      ZeroIsZeros(front);
      k := |front|;
    } else {
      k := DigitsSpell(front);
      assert Itoa(DecValue(s)) == Itoa(DecValue(front)) + [s[|s| - 1]];
    }
  }

  lemma UnsignedReads(digits: string, n: nat)
    requires digits != "" && AllDigits(digits) && DecValue(digits) == n <= MAX_INT
    ensures Atoi(digits) == Some(n) && Atoi("+" + digits) == Some(n)
  {
    assert IsDigit(digits[0]);
    var s := "+" + digits;
    assert s[0] == '+' && s[1..] == digits;
  }

  lemma SpelledReads(plus: bool, k: nat, n: nat)
    requires 0 < n <= MAX_INT
    ensures Atoi(Spelled(plus, k, n)) == Some(n)
  {
    DecValueOfNumeral(k, n);
    UnsignedReads(Zeros(k) + Itoa(n), n);
    SpelledText(plus, k, n);
  }

  lemma ReadIsSpelled(s: string, n: nat) returns (plus: bool, k: nat)
    requires n > 0 && Atoi(s) == Some(n)
    ensures s == Spelled(plus, k, n)
  {
    plus := HasPrefix(s, "+");
    var digits := PositiveDigits(s, n);
    k := DigitsSpell(digits);
    SpelledText(plus, k, n);
  }

  lemma PositiveDigits(s: string, n: nat) returns (digits: string)
    requires n > 0 && Atoi(s) == Some(n)
    ensures s == if HasPrefix(s, "+") then "+" + digits else digits
    ensures AllDigits(digits) && DecValue(digits) == n
  {
    digits := if HasPrefix(s, "+") then s[1..] else s;
    if HasPrefix(s, "+") {
      assert s == "+" + s[1..];
    }
  }

  lemma SpelledText(plus: bool, k: nat, n: nat)
    ensures Spelled(plus, k, n) == if plus then "+" + (Zeros(k) + Itoa(n)) else Zeros(k) + Itoa(n)
  {
  }

  /** `Atoi` reads a positive number from exactly its spellings. */
  lemma AtoiSpellings(s: string, n: nat)
    requires n > 0
    ensures Atoi(s) == Some(n) <==> n <= 0x7FFF_FFFF_FFFF_FFFF && exists plus, k: nat :: s == Spelled(plus, k, n)
  {
    if Atoi(s) == Some(n) {
      var plus, k := ReadIsSpelled(s, n);
    }
    if n <= MAX_INT {
      forall plus, k: nat | s == Spelled(plus, k, n)
        ensures Atoi(s) == Some(n)
      {
        SpelledReads(plus, k, n);
      }
    }
  }

  /** An absent parameter stands for its default; a present one must spell the number. */
  ghost predicate Denotes(s: string, dflt: nat, n: int) {
    if s == "" then n == dflt else n > 0 && exists plus, k: nat :: s == Spelled(plus, k, n)
  }

  /** `Parse` returns a page exactly for the strings that denote it, and only legal pages; without
      parameters it is page 1 of 10 rows. */
  lemma ParseAccepts(pageNumber: string, rowsPerPage: string, p: Page)
    ensures Parse(pageNumber, rowsPerPage) == Some(p) <==>
            Legal(p) && Denotes(pageNumber, 1, p.number) && Denotes(rowsPerPage, 10, p.rows)
  {
    if p.number > 0 { AtoiSpellings(pageNumber, p.number); }
    if p.rows > 0 { AtoiSpellings(rowsPerPage, p.rows); }
  }

  /** Printing a page in decimal and parsing it gives it back exactly when it is legal. */
  lemma ParseInvertsPrinting(p: Page)
    requires p.number >= 0 && p.rows >= 0
    ensures Parse(Itoa(p.number), Itoa(p.rows)) == Some(p) <==> Legal(p)
  {
    ParseAccepts(Itoa(p.number), Itoa(p.rows), p);
    assert Itoa(p.number) == Spelled(false, 0, p.number);
    assert Itoa(p.rows) == Spelled(false, 0, p.rows);
  }

  // ----- the 64-bit offset

  /** Two's-complement 64-bit value of a mathematical integer. */
  function Wrap64(x: int): int {
    (x - MIN_INT) % 0x1_0000_0000_0000_0000 + MIN_INT
  }

  /** The exact start of a page. */
  function Start(p: Page): int {
    (p.number - 1) * p.rows
  }

  /** `(page.Number - 1) * page.Rows` as the machine computes it. */
  function Offset(p: Page): int {
    Wrap64(Start(p))
  }

  /** The machine offset is the 64-bit number congruent to the exact one; it is exact precisely when the product fits, and rows <= MAX_INT / 99 is enough. */
  lemma OffsetExact(p: Page)
    requires Legal(p)
    ensures 0 <= Start(p)
    ensures -0x8000_0000_0000_0000 <= Offset(p) <= 0x7FFF_FFFF_FFFF_FFFF
    ensures (Offset(p) - Start(p)) % 0x1_0000_0000_0000_0000 == 0
    ensures Offset(p) == Start(p) <==> Start(p) <= 0x7FFF_FFFF_FFFF_FFFF
    ensures p.rows <= 0x7FFF_FFFF_FFFF_FFFF / 99 ==> Offset(p) == Start(p)
  {
    StartBounds(p);
  }

  lemma StartBounds(p: Page)
    requires Legal(p)
    ensures 0 <= Start(p) <= 99 * p.rows
  {
    var m := p.number - 1;
    assert 0 <= m <= 99;
    assert 0 <= m * p.rows;
    assert m * p.rows <= 99 * p.rows by {
      assert (99 - m) * p.rows >= 0;
    }
  }

  /** A page that `Parse` accepts and whose offset wraps all the way round to the start of page 1. */
  lemma WrappedOffset()
    ensures var p := Page(5, 0x4000_0000_0000_0000);
            Parse(Itoa(p.number), Itoa(p.rows)) == Some(p) && Start(p) > 0x7FFF_FFFF_FFFF_FFFF && Offset(p) == 0
  {
    ParseInvertsPrinting(Page(5, 0x4000_0000_0000_0000));
  }
}
