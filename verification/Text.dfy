/** Decimal rendering and parsing, and field splitting, as the Rust standard library does them. */
module Text {

  datatype Option<+T> = None | Some(value: T)

  const U64_LIMIT: nat := 0x1_0000_0000_0000_0000

  predicate IsDigit(c: char) {
    '0' <= c <= '9'
  }

  ghost predicate AllDigits(s: string) {
    forall i :: 0 <= i < |s| ==> IsDigit(s[i])
  }

  /** Shortest decimal form, as `format!("{n}")` prints it. */
  function Decimal(n: nat): (s: string)
    ensures |s| > 0 && AllDigits(s)
  {
    if n < 10 then ['0' + n as char] else Decimal(n / 10) + ['0' + (n % 10) as char]
  }

  /** Value of a digit string, or nothing when some character is not a digit. */
  function DigitsValue(s: string): (r: Option<nat>) {
    if s == [] then Some(0)
    else
      var last := s[|s| - 1];
      var front := DigitsValue(s[..|s| - 1]);
      if front.Some? && IsDigit(last) then Some(front.value * 10 + (last - '0') as nat) else None
  }

  /** `str::parse::<usize>` on a 64-bit target: an optional plus sign, then at least one digit. */
  function ParseUsize(s: string): (r: Option<nat>) {
    var body := if |s| > 0 && s[0] == '+' then s[1..] else s;
    if body == [] then None
    else
      var value := DigitsValue(body);
      if value.Some? && value.value < U64_LIMIT then value else None
  }

  lemma {:induction false} DigitsValueDecimal(n: nat)
    ensures DigitsValue(Decimal(n)) == Some(n)
  {
    var s := Decimal(n);
    if n < 10 {
      assert s[..|s| - 1] == [];
    } else {
      DigitsValueDecimal(n / 10);
      assert s[..|s| - 1] == Decimal(n / 10);
    }
  }

  /** Parsing undoes printing for every number that fits the target type. */
  lemma ParseUsizeDecimal(n: nat)
    requires n < U64_LIMIT
    ensures ParseUsize(Decimal(n)) == Some(n)
  {
    DigitsValueDecimal(n);
    assert IsDigit(Decimal(n)[0]);
  }

  lemma DecimalInjective(m: nat, n: nat)
    requires Decimal(m) == Decimal(n)
    ensures m == n
  {
    DigitsValueDecimal(m);
    DigitsValueDecimal(n);
  }

  /** `str::split` on one separator character. */
  function Split(s: string, separator: char): (fields: seq<string>)
    ensures |fields| > 0
  {
    if s == [] then [""]
    else
      var rest := Split(s[1..], separator);
      if s[0] == separator then [""] + rest else [[s[0]] + rest[0]] + rest[1..]
  }

  lemma {:induction false} SplitNoSeparator(s: string, separator: char)
    requires separator !in s
    ensures Split(s, separator) == [s]
  {
    if s != [] {
      SplitNoSeparator(s[1..], separator);
      assert [s[0]] + s[1..] == s;
    }
  }

  lemma {:induction false} SplitFirst(head: string, tail: string, separator: char)
    requires separator !in head
    ensures Split(head + [separator] + tail, separator) == [head] + Split(tail, separator)
  {
    var s := head + [separator] + tail;
    if head == [] {
      assert s[1..] == tail;
    } else {
      SplitFirst(head[1..], tail, separator);
      assert s[1..] == head[1..] + [separator] + tail;
      assert [head[0]] + head[1..] == head;
    }
  }
}
