/**
  Text helpers shared by the storefront model: how JavaScript renders an integer
  inside a template literal, how `toFixed(2)` renders an amount held in hundredths,
  how `Number(...)` reads a decimal string, how Postgres reads an integer parameter,
  ASCII lower-casing, substring search and `Array.prototype.join`.
*/
module Text {
  import opened Wrappers

  predicate IsDigit(c: char) {
    '0' <= c <= '9'
  }

  predicate AllDigits(s: string) {
    forall i :: 0 <= i < |s| ==> IsDigit(s[i])
  }

  function DigitChar(d: nat): (c: char)
    requires d < 10
    ensures IsDigit(c)
  {
    ['0', '1', '2', '3', '4', '5', '6', '7', '8', '9'][d]
  }

  function DigitValue(c: char): (d: nat)
    requires IsDigit(c)
    ensures d < 10
  {
    (c as int - '0' as int) as nat
  }

  lemma DigitRoundTrip(d: nat)
    requires d < 10
    ensures DigitValue(DigitChar(d)) == d
  {
  }

  /** Decimal rendering of a natural number, most significant digit first, no leading zeros. */
  function NatToString(n: nat): (s: string)
    ensures |s| >= 1 && AllDigits(s)
    ensures s[0] == '0' ==> n == 0
  {
    if n < 10 then [DigitChar(n)] else NatToString(n / 10) + [DigitChar(n % 10)]
  }

  /** What `${i}` produces for an integer value `i`. */
  function IntToString(i: int): (s: string)
    ensures |s| >= 1
    ensures s[0] == '-' <==> i < 0
  {
    if i < 0 then "-" + NatToString(-i) else NatToString(i)
  }

  /** The value of a string of decimal digits ("" reads as 0). */
  function DigitsValue(s: string): nat
    requires AllDigits(s)
  {
    if s == [] then 0 else DigitsValue(s[..|s| - 1]) * 10 + DigitValue(s[|s| - 1])
  }

  /**
    `Number(s)` for the strings a form field carries: the empty string reads as 0,
    an optional '-' followed by decimal digits reads as that integer, anything else is NaN (None).
  */
  function ParseInt(s: string): (r: Option<int>)
    ensures s == [] ==> r == Some(0)
    ensures r.Some? && s != [] ==> IsDigit(s[|s| - 1]) && (IsDigit(s[0]) || s[0] == '-')
    ensures r.Some? && r.value < 0 ==> |s| >= 2 && s[0] == '-'
  {
    if s == [] then Some(0)
    else if AllDigits(s) then Some(DigitsValue(s))
    else if s[0] == '-' && |s| >= 2 && AllDigits(s[1..]) then Some(-(DigitsValue(s[1..]) as int))
    else None
  }

  lemma {:induction false} NatToStringRoundTrip(n: nat)
    ensures DigitsValue(NatToString(n)) == n
  {
    if n >= 10 {
      var s := NatToString(n);
      NatToStringRoundTrip(n / 10);
      assert s[..|s| - 1] == NatToString(n / 10);
      DigitRoundTrip(n % 10);
    } else {
      DigitRoundTrip(n);
    }
  }

  /** Reading back what `${i}` rendered yields `i`. */
  lemma IntToStringRoundTrip(i: int)
    ensures ParseInt(IntToString(i)) == Some(i)
  {
    var n: nat := if i < 0 then -i else i;
    var digits := NatToString(n);
    if i < 0 {
      assert IntToString(i) == "-" + digits;
      NegativeRoundTrip(n);
    } else {
      assert IntToString(i) == digits;
      NatRoundTrip(n);
    }
  }

  /** A rendered natural number reads back as itself. */
  lemma NatRoundTrip(n: nat)
    ensures ParseInt(NatToString(n)) == Some(n as int)
  {
    NatToStringRoundTrip(n);
  }

  /** A minus sign before a rendered natural number reads back as its negation. */
  lemma NegativeRoundTrip(n: nat)
    ensures ParseInt("-" + NatToString(n)) == Some(-(n as int))
  {
    var s := "-" + NatToString(n);
    assert s[1..] == NatToString(n);
    assert !AllDigits(s) by { assert !IsDigit(s[0]); }
    NatToStringRoundTrip(n);
  }

  /** Two different integers never render to the same text. */
  lemma IntToStringInjective(i: int, j: int)
    requires IntToString(i) == IntToString(j)
    ensures i == j
  {
    IntToStringRoundTrip(i);
    IntToStringRoundTrip(j);
  }

  /** The blanks Postgres skips around an integer, those of C's `isspace`. */
  predicate IsBlank(c: char) {
    c == ' ' || c == '\t' || c == '\n' || c == '\r' || c == '\U{000B}' || c == '\U{000C}'
  }

  /** `s` without its leading and trailing blanks. */
  function TrimBlanks(s: string): (r: string)
    ensures |r| <= |s| && forall c :: c in r ==> c in s
    ensures r != [] ==> !IsBlank(r[0]) && !IsBlank(r[|r| - 1])
    decreases |s|
  {
    if s != [] && IsBlank(s[0]) then
      var r := TrimBlanks(s[1..]);
      assert forall c :: c in s[1..] ==> c in s;
      r
    else if s != [] && IsBlank(s[|s| - 1]) then
      var r := TrimBlanks(s[..|s| - 1]);
      assert forall c :: c in s[..|s| - 1] ==> c in s;
      r
    else s
  }

  const Int4Min := -0x8000_0000
  const Int4Max := 0x7FFF_FFFF

  /**
    How Postgres reads a text parameter bound to an `integer` column: blanks around it, an
    optional '+' or '-', then at least one decimal digit, and a value that fits in 32 bits;
    anything else, the empty string included, is refused (None).
  */
  function PgInt(s: string): (r: Option<int>)
    ensures r.Some? ==> Int4Min <= r.value <= Int4Max
    ensures r.Some? ==> exists c :: c in s && IsDigit(c)
  {
    ReadInt4(TrimBlanks(s))
  }

  /** The reading of `PgInt` once the blanks are gone. */
  function ReadInt4(t: string): (r: Option<int>)
    ensures r.Some? ==> Int4Min <= r.value <= Int4Max
    ensures r.Some? ==> exists c :: c in t && IsDigit(c)
  {
    var signed := t != [] && (t[0] == '+' || t[0] == '-');
    var digits := if signed then t[1..] else t;
    if digits == [] || !AllDigits(digits) then None
    else
      assert digits[0] in t;
      var n := if signed && t[0] == '-' then -(DigitsValue(digits) as int) else DigitsValue(digits) as int;
      if Int4Min <= n <= Int4Max then Some(n) else None
  }

  /** Postgres reads back what `${i}` rendered exactly when `i` fits in 32 bits. */
  lemma PgIntReadsRendered(i: int)
    ensures PgInt(IntToString(i)) == (if Int4Min <= i <= Int4Max then Some(i) else None)
  {
    var s := IntToString(i);
    assert TrimBlanks(s) == s;
    if i < 0 {
      assert s[1..] == NatToString(-i);
    }
    NatToStringRoundTrip(if i < 0 then -i else i);
  }

  /** A blank before or after the text changes nothing. */
  lemma PgIntSkipsBlanks(s: string, c: char)
    requires IsBlank(c)
    ensures PgInt([c] + s) == PgInt(s) && PgInt(s + [c]) == PgInt(s)
  {
    assert ([c] + s)[1..] == s;
    TrimAppendBlank(s, c);
  }

  lemma {:induction false} TrimAppendBlank(s: string, c: char)
    requires IsBlank(c)
    ensures TrimBlanks(s + [c]) == TrimBlanks(s)
    decreases |s|
  {
    if s == [] {
      assert TrimBlanks([c]) == TrimBlanks([c][..0]);
    } else if IsBlank(s[0]) {
      assert (s + [c])[1..] == s[1..] + [c];
      TrimAppendBlank(s[1..], c);
    } else {
      assert (s + [c])[..|s|] == s;
    }
  }

  /** A '+' before the digits changes nothing. */
  lemma PgIntSkipsPlus(s: string)
    requires s != [] && AllDigits(s)
    ensures PgInt("+" + s) == PgInt(s)
  {
    assert TrimBlanks("+" + s) == "+" + s;
    assert ("+" + s)[1..] == s;
    assert TrimBlanks(s) == s;
  }

  /**
    Where `Number(s)` reads an integer that fits in 32 bits, Postgres reads the same one,
    except from the empty string, which `Number` reads as 0 and Postgres refuses.
  */
  lemma PgIntAgreesWithNumber(s: string)
    requires ParseInt(s).Some? && Int4Min <= ParseInt(s).value <= Int4Max
    ensures PgInt(s) == (if s == [] then None else ParseInt(s))
  {
    if s != [] {
      assert TrimBlanks(s) == s;
    }
  }

  /** `x.toFixed(2)` for the exact amount `cents / 100`. */
  function Fixed2(cents: int): (s: string)
    ensures |s| >= 4
    ensures s[0] == '-' <==> cents < 0
  {
    if cents < 0 then "-" + Fixed2Nat(-cents) else Fixed2Nat(cents)
  }

  function Fixed2Nat(cents: nat): (s: string)
    ensures |s| >= 4 && s[|s| - 3] == '.'
    ensures IsDigit(s[0])
  {
    Fixed2Parts(cents / 100, cents % 100)
  }

  /** The whole part, a point, and the two digits of the fraction `frac` (below 100). */
  function Fixed2Parts(whole: nat, frac: nat): (s: string)
    requires frac < 100
    ensures |s| >= 4 && s[|s| - 3] == '.'
    ensures IsDigit(s[0])
  {
    NatToString(whole) + "." + [DigitChar(frac / 10), DigitChar(frac % 10)]
  }

  /** A whole amount renders as its integer rendering followed by ".00". */
  lemma Fixed2Whole(n: int)
    ensures Fixed2(100 * n) == IntToString(n) + ".00"
  {
    if n < 0 {
      Fixed2NegativeWhole(n);
    } else {
      Fixed2NonNegativeWhole(n);
    }
  }

  lemma Fixed2NegativeWhole(n: int)
    requires n < 0
    ensures Fixed2(100 * n) == IntToString(n) + ".00"
  {
    var c := 100 * n;
    var m: nat := -n;
    var d: nat := 100 * m;
    calc {
      Fixed2(c);
      { Fixed2Negative(c, d); }
      "-" + Fixed2Nat(d);
      { Fixed2NatWhole(d, m); }
      "-" + (NatToString(m) + ".00");
      { AppendAssoc("-", NatToString(m), ".00"); }
      "-" + NatToString(m) + ".00";
      { IntToStringNegative(n, m); }
      IntToString(n) + ".00";
    }
  }

  lemma Fixed2NonNegativeWhole(n: int)
    requires n >= 0
    ensures Fixed2(100 * n) == IntToString(n) + ".00"
  {
    var c := 100 * n;
    calc {
      Fixed2(c);
      Fixed2Nat(c);
      { Fixed2NatWhole(c, n); }
      NatToString(n) + ".00";
    }
  }

  lemma AppendAssoc(a: string, b: string, c: string)
    ensures a + (b + c) == a + b + c
  {
  }

  lemma Fixed2Negative(c: int, d: nat)
    requires c < 0 && d == -c
    ensures Fixed2(c) == "-" + Fixed2Nat(d)
  {
    assert Fixed2Nat(-c) == Fixed2Nat(d);
  }

  lemma IntToStringNegative(i: int, m: nat)
    requires i < 0 && m == -i
    ensures IntToString(i) == "-" + NatToString(m)
  {
  }

  /** An amount of `m` whole units, `c` cents, renders as `m` followed by ".00". */
  lemma Fixed2NatWhole(c: nat, m: nat)
    requires c == 100 * m
    ensures Fixed2Nat(c) == NatToString(m) + ".00"
  {
    WholeCents(m);
    assert Fixed2Parts(m, 0) == NatToString(m) + ".00";
  }

  lemma WholeCents(m: nat)
    ensures (100 * m) / 100 == m && (100 * m) % 100 == 0
  {
    assert 100 * m == m * 100 + 0;
  }

  /** The integer and fractional parts of a `toFixed(2)` rendering read back to the amount. */
  lemma {:induction false} Fixed2NatRoundTrip(cents: nat)
    ensures var s := Fixed2Nat(cents);
            AllDigits(s[..|s| - 3]) && AllDigits(s[|s| - 2..]) &&
            DigitsValue(s[..|s| - 3]) * 100 + DigitsValue(s[|s| - 2..]) == cents
  {
    var s := Fixed2Nat(cents);
    var whole := NatToString(cents / 100);
    var frac := [DigitChar(cents % 100 / 10), DigitChar(cents % 100 % 10)];
    assert s[..|s| - 3] == whole && s[|s| - 2..] == frac by {
      assert s == whole + "." + frac;
    }
    NatToStringRoundTrip(cents / 100);
    TwoDigitsRoundTrip(cents % 100 / 10, cents % 100 % 10);
    assert cents == cents / 100 * 100 + cents % 100 / 10 * 10 + cents % 100 % 10;
  }

  /** Two rendered digits read back as the number they spell. */
  lemma TwoDigitsRoundTrip(tens: nat, units: nat)
    requires tens < 10 && units < 10
    ensures AllDigits([DigitChar(tens), DigitChar(units)])
    ensures DigitsValue([DigitChar(tens), DigitChar(units)]) == tens * 10 + units
  {
    var frac := [DigitChar(tens), DigitChar(units)];
    DigitRoundTrip(tens);
    DigitRoundTrip(units);
    assert frac[..1] == [DigitChar(tens)];
    assert [DigitChar(tens)][..0] == [];
    assert DigitsValue(frac[..1]) == tens;
    assert DigitsValue(frac) == DigitsValue(frac[..1]) * 10 + DigitValue(DigitChar(units));
  }

  /** ASCII case folding, the part of `toLowerCase()` this model covers. */
  function LowerChar(c: char): (r: char)
    ensures 'A' <= c <= 'Z' ==> 'a' <= r <= 'z'
    ensures !('A' <= c <= 'Z') ==> r == c
  {
    if 'A' <= c <= 'Z' then (c as int - 'A' as int + 'a' as int) as char else c
  }

  function Lower(s: string): (r: string)
    ensures |r| == |s|
    ensures forall i :: 0 <= i < |s| ==> r[i] == LowerChar(s[i])
    ensures forall i :: 0 <= i < |r| ==> !('A' <= r[i] <= 'Z')
  {
    seq(|s|, i requires 0 <= i < |s| => LowerChar(s[i]))
  }

  /** Equality ignoring ASCII case, `a.toLowerCase() === b.toLowerCase()`. */
  predicate SameIgnoringCase(a: string, b: string) {
    Lower(a) == Lower(b)
  }

  lemma LowerIdempotent(s: string)
    ensures Lower(Lower(s)) == Lower(s)
  {
  }

  predicate IsPrefix(p: string, s: string) {
    |p| <= |s| && s[..|p|] == p
  }

  /** A string starts with whatever is put in front of it. */
  lemma PrefixOfAppend(p: string, s: string)
    ensures IsPrefix(p, p + s)
  {
    assert (p + s)[..|p|] == p;
  }

  lemma PrefixOfAppend2(p: string, s: string, t: string)
    ensures IsPrefix(p, p + s + t)
  {
    assert (p + s + t)[..|p|] == p;
  }

  predicate IsSuffix(t: string, s: string) {
    |t| <= |s| && s[|s| - |t|..] == t
  }

  /** A string ends with whatever is put after it. */
  lemma SuffixOfAppend(s: string, t: string)
    ensures IsSuffix(t, s + t)
  {
    assert (s + t)[|s|..] == t;
  }

  /** `s.includes(sub)`. */
  predicate Contains(s: string, sub: string)
    decreases |s|
  {
    IsPrefix(sub, s) || (|s| > 0 && Contains(s[1..], sub))
  }

  lemma {:induction false} ContainsInfix(a: string, sub: string, b: string)
    ensures Contains(a + sub + b, sub)
    decreases |a|
  {
    var s := a + sub + b;
    if a == [] {
      assert s[..|sub|] == sub;
    } else {
      assert s[1..] == a[1..] + sub + b;
      ContainsInfix(a[1..], sub, b);
    }
  }

  lemma {:induction false} ContainsLength(s: string, sub: string)
    requires Contains(s, sub)
    ensures |sub| <= |s|
    decreases |s|
  {
    if !IsPrefix(sub, s) {
      ContainsLength(s[1..], sub);
    }
  }

  /** Text found in `s` is still found after anything is put in front of `s`. */
  lemma {:induction false} ContainsAfter(a: string, s: string, sub: string)
    requires Contains(s, sub)
    ensures Contains(a + s, sub)
    decreases |a|
  {
    if a == [] {
      assert a + s == s;
    } else {
      assert (a + s)[1..] == a[1..] + s;
      ContainsAfter(a[1..], s, sub);
    }
  }

  /** Text found in `s` is still found after anything is appended to `s`. */
  lemma {:induction false} ContainsBefore(s: string, b: string, sub: string)
    requires Contains(s, sub)
    ensures Contains(s + b, sub)
    decreases |s|
  {
    if IsPrefix(sub, s) {
      assert (s + b)[..|sub|] == s[..|sub|];
    } else {
      assert (s + b)[1..] == s[1..] + b;
      ContainsBefore(s[1..], b, sub);
    }
  }

  /** Of four strings put end to end, the first starts the result, the middle two occur in it, the last ends it. */
  lemma FourParts(a: string, b: string, c: string, d: string)
    ensures IsPrefix(a, a + b + c + d)
    ensures Contains(a + b + c + d, b)
    ensures Contains(a + b + c + d, c)
    ensures IsSuffix(d, a + b + c + d)
  {
    assert a + b + c + d == a + (b + c + d);
    PrefixOfAppend(a, b + c + d);
    assert a + b + (c + d) == a + b + c + d;
    ContainsInfix(a, b, c + d);
    ContainsInfix(a + b, c, d);
    SuffixOfAppend(a + b + c, d);
  }

  /** `parts.join(sep)`. */
  function Join(parts: seq<string>, sep: string): (r: string)
    ensures |parts| == 1 ==> r == parts[0]
  {
    if |parts| == 0 then ""
    else if |parts| == 1 then parts[0]
    else parts[0] + sep + Join(parts[1..], sep)
  }

  /** Joining with a separator costs exactly one separator between neighbours. */
  lemma {:induction false} JoinLength(parts: seq<string>, sep: string)
    requires |parts| >= 1
    ensures |Join(parts, sep)| == SumLengths(parts) + (|parts| - 1) * |sep|
  {
    if |parts| > 1 {
      JoinLength(parts[1..], sep);
      assert SumLengths(parts) == |parts[0]| + SumLengths(parts[1..]);
    }
  }

  /** Every part can be found in the joined text. */
  lemma {:induction false} JoinContains(parts: seq<string>, sep: string, i: nat)
    requires i < |parts|
    ensures Contains(Join(parts, sep), parts[i])
  {
    if |parts| == 1 {
      ContainsInfix([], parts[0], []);
      assert [] + parts[0] + [] == parts[0];
    } else if i == 0 {
      ContainsInfix([], parts[0], sep + Join(parts[1..], sep));
      assert [] + parts[0] + (sep + Join(parts[1..], sep)) == Join(parts, sep);
    } else {
      JoinContains(parts[1..], sep, i - 1);
      ContainsAfter(parts[0] + sep, Join(parts[1..], sep), parts[i]);
    }
  }

  function SumLengths(parts: seq<string>): nat {
    if parts == [] then 0 else |parts[0]| + SumLengths(parts[1..])
  }
}
