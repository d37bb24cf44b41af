/** JSON.stringify of an array of non-negative integers, the text that the
    click-sequence capture hashes: "[" + comma-joined decimals + "]", no spaces. */
module Json {
  import opened Gesture

  predicate IsDigit(c: char) {
    '0' <= c <= '9'
  }

  predicate AllDigits(s: string) {
    forall k :: 0 <= k < |s| ==> IsDigit(s[k])
  }

  function DigitChar(d: nat): (c: char)
    requires d < 10
    ensures IsDigit(c) && c as int - '0' as int == d
  {
    ('0' as int + d) as char
  }

  function DigitValue(c: char): (d: nat)
    requires IsDigit(c)
    ensures d < 10
  {
    c as int - '0' as int
  }

  /** The JSON number text of n: its decimal digits, with no leading zero. */
  function Decimal(n: nat): (s: string)
    ensures |s| >= 1 && AllDigits(s)
    ensures s[0] == '0' ==> n == 0
    decreases n
  {
    if n < 10 then [DigitChar(n)] else Decimal(n / 10) + [DigitChar(n % 10)]
  }

  /** The number a string of decimal digits denotes (the reading side of Decimal). */
  function DecimalValue(s: string): nat
    requires AllDigits(s)
    decreases |s|
  {
    if s == [] then 0 else DecimalValue(s[..|s| - 1]) * 10 + DigitValue(s[|s| - 1])
  }

  lemma {:induction false} DecimalRoundTrip(n: nat)
    ensures DecimalValue(Decimal(n)) == n
    decreases n
  {
    if n >= 10 {
      DecimalRoundTrip(n / 10);
      var s := Decimal(n);
      assert s[..|s| - 1] == Decimal(n / 10);
      assert DigitValue(s[|s| - 1]) == n % 10;
    }
  }

  lemma DecimalInjective(m: nat, n: nat)
    ensures Decimal(m) == Decimal(n) <==> m == n
  {
    if Decimal(m) == Decimal(n) {
      DecimalRoundTrip(m);
      DecimalRoundTrip(n);
    }
  }

  /** The elements' decimals separated by commas. */
  function JoinDecimals(xs: seq<nat>): (s: string)
    ensures xs == [] <==> s == ""
    decreases |xs|
  {
    if xs == [] then ""
    else if |xs| == 1 then Decimal(xs[0])
    else Decimal(xs[0]) + "," + JoinDecimals(xs[1..])
  }

  /** JSON.stringify(xs) for an array xs of small non-negative integers (below
      10^21, where JavaScript switches to exponent notation; a click order's
      entries are below five). */
  function IntArray(xs: seq<nat>): string {
    "[" + JoinDecimals(xs) + "]"
  }

  /** The length of the field that starts t: the characters before its first comma. */
  function FieldEnd(t: string): (i: nat)
    ensures i <= |t|
    ensures forall k :: 0 <= k < i ==> t[k] != ','
    ensures i < |t| ==> t[i] == ','
    decreases |t|
  {
    if t == [] || t[0] == ',' then 0 else 1 + FieldEnd(t[1..])
  }

  /** Reads a comma-separated list of one or more decimal fields; an empty field
      or a non-digit makes the text unreadable. */
  function ParseFields(t: string): Option<seq<nat>>
    decreases |t|
  {
    var i := FieldEnd(t);
    if i == 0 || !AllDigits(t[..i]) then None
    else if i == |t| then Some([DecimalValue(t[..i])])
    else match ParseFields(t[i + 1..])
      case None => None
      case Some(rest) => Some([DecimalValue(t[..i])] + rest)
  }

  /** Reads the text of an array of non-negative integers written without spaces,
      the reading side of IntArray. */
  function ParseIntArray(s: string): Option<seq<nat>> {
    if |s| < 2 || s[0] != '[' || s[|s| - 1] != ']' then None
    else if |s| == 2 then Some([])
    else ParseFields(s[1..|s| - 1])
  }

  /** A digit run followed by nothing or by a comma is exactly the first field. */
  lemma {:induction false} FieldEndOfDigits(u: string, r: string)
    requires AllDigits(u)
    requires r == [] || r[0] == ','
    ensures FieldEnd(u + r) == |u|
    decreases |u|
  {
    if u != [] {
      assert (u + r)[0] == u[0];
      assert (u + r)[1..] == u[1..] + r;
      FieldEndOfDigits(u[1..], r);
    }
  }

  lemma {:induction false} ParseJoinDecimals(xs: seq<nat>)
    requires xs != []
    ensures ParseFields(JoinDecimals(xs)) == Some(xs)
    decreases |xs|
  {
    var d := Decimal(xs[0]);
    var r := if |xs| == 1 then "" else "," + JoinDecimals(xs[1..]);
    var t := JoinDecimals(xs);
    assert t == d + r;
    FieldEndOfDigits(d, r);
    assert t[..|d|] == d;
    DecimalRoundTrip(xs[0]);
    if |xs| == 1 {
      assert xs == [xs[0]];
    } else {
      assert t[|d| + 1..] == JoinDecimals(xs[1..]);
      ParseJoinDecimals(xs[1..]);
      assert xs == [xs[0]] + xs[1..];
    }
  }

  /** Reading back the text of any array gives the array: no two click orders
      share a text, and the text loses nothing of the order. */
  lemma IntArrayRoundTrip(xs: seq<nat>)
    ensures ParseIntArray(IntArray(xs)) == Some(xs)
  {
    var s := IntArray(xs);
    assert s[1..|s| - 1] == JoinDecimals(xs);
    if xs != [] {
      ParseJoinDecimals(xs);
    }
  }

  /** Two click orders give the same hashed text exactly when they are the same order. */
  lemma IntArrayInjective(a: seq<nat>, b: seq<nat>)
    ensures IntArray(a) == IntArray(b) <==> a == b
  {
    IntArrayRoundTrip(a);
    IntArrayRoundTrip(b);
  }

  /** The texts of two concrete click orders over five targets. */
  lemma ClickOrderTexts()
    ensures IntArray([2, 0, 4, 1, 3]) == "[2,0,4,1,3]"
    ensures IntArray([0, 1, 2, 3, 4]) == "[0,1,2,3,4]"
    ensures IntArray([2, 0, 4, 1, 3]) != IntArray([0, 1, 2, 3, 4])
  {
    assert JoinDecimals([3]) == "3";
    assert JoinDecimals([1, 3]) == "1,3";
    assert JoinDecimals([4, 1, 3]) == "4,1,3";
    assert JoinDecimals([0, 4, 1, 3]) == "0,4,1,3";
    assert JoinDecimals([4]) == "4";
    assert JoinDecimals([3, 4]) == "3,4";
    assert JoinDecimals([2, 3, 4]) == "2,3,4";
    assert JoinDecimals([1, 2, 3, 4]) == "1,2,3,4";
  }
}
