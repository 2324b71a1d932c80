/**
  Decimal number parsing as the command line front end does it: `strtoul` with
  base 10 on a platform whose `unsigned long` is 64 bits wide, the `parsenum`
  wrapper that turns its three failure modes into errors, and the integer
  conversions the option callbacks apply to the parsed value.
*/
module Numbers {
  import opened Results

  const ULONG_MAX: nat := 0xFFFF_FFFF_FFFF_FFFF

  predicate IsDigit(c: char) { '0' <= c <= '9' }

  /** The characters `isspace` accepts in the C locale. */
  predicate IsSpace(c: char) {
    c == ' ' || c == '\t' || c == '\n' || c == '\U{000B}' || c == '\U{000C}' || c == '\r'
  }

  function DigitValue(c: char): nat
    requires IsDigit(c)
  {
    (c as int - '0' as int) as nat
  }

  predicate AllDigits(s: string) {
    forall i :: 0 <= i < |s| ==> IsDigit(s[i])
  }

  /** The number a run of decimal digits denotes, most significant first. */
  function DigitsValue(s: string): nat
    requires AllDigits(s)
  {
    if |s| == 0 then 0 else DigitsValue(s[..|s| - 1]) * 10 + DigitValue(s[|s| - 1])
  }

  /** Index of the first character at or after `i` that `pred` rejects. */
  function SkipWhile(s: string, i: nat, digits: bool): (j: nat)
    requires i <= |s|
    ensures i <= j <= |s|
    ensures forall k :: i <= k < j ==> (if digits then IsDigit(s[k]) else IsSpace(s[k]))
    ensures j < |s| ==> !(if digits then IsDigit(s[j]) else IsSpace(s[j]))
    decreases |s| - i
  {
    if i == |s| then i
    else if (if digits then IsDigit(s[i]) else IsSpace(s[i])) then SkipWhile(s, i + 1, digits)
    else i
  }

  /**
    `s` starts with a numeral as `strtoul` reads one: white space before `w`,
    an optional sign from `w` to `p`, and a non-empty run of digits from `p`
    to `e` that no further digit follows.
  */
  predicate NumeralAt(s: string, w: int, p: int, e: int) {
    && 0 <= w <= p < e <= |s|
    && (forall k :: 0 <= k < w ==> IsSpace(s[k]))
    && (p == w || (p == w + 1 && (s[w] == '+' || s[w] == '-')))
    && (forall k :: p <= k < e ==> IsDigit(s[k]))
    && (e == |s| || !IsDigit(s[e]))
  }

  /** The value of a numeral whose digits fit: their value, negated modulo 2^64 after a minus sign. */
  function NumeralValue(s: string, w: int, p: int, e: int): nat
    requires NumeralAt(s, w, p, e)
  {
    var m := DigitsValue(s[p..e]);
    if s[w..p] == "-" then (ULONG_MAX + 1 - m) % (ULONG_MAX + 1) else m
  }

  /** What `strtoul(str, &end, 10)` reports: the value, the index `end` points at, and whether errno became ERANGE. */
  datatype Conversion = Conversion(value: nat, end: nat, rangeError: bool)

  /**
    `strtoul` in base 10: leading white space, an optional sign, then the longest
    run of digits.  Without digits nothing is converted and `end` is the start of
    the string.  A magnitude above ULONG_MAX saturates and sets ERANGE; a minus
    sign negates modulo 2^64.
  */
  function Strtoul(s: string): (c: Conversion)
    ensures c.end <= |s|
    ensures c.value <= ULONG_MAX
    ensures c.end == 0 ==> c.value == 0 && !c.rangeError
    ensures c.end > 0 ==> IsDigit(s[c.end - 1])
  {
    var start := SkipWhile(s, 0, false);
    var neg := start < |s| && s[start] == '-';
    var first := if start < |s| && (s[start] == '+' || s[start] == '-') then start + 1 else start;
    var stop := SkipWhile(s, first, true);
    if stop == first then Conversion(0, 0, false)
    else
      var magnitude := DigitsValue(s[first..stop]);
      if magnitude > ULONG_MAX then Conversion(ULONG_MAX, stop, true)
      else if neg then Conversion((ULONG_MAX + 1 - magnitude) % (ULONG_MAX + 1), stop, false)
      else Conversion(magnitude, stop, false)
  }

  /**
    What `strtoul` converts is exactly the numeral `s` starts with: `end`
    points just past its digits, ERANGE is set exactly when their value does
    not fit, and otherwise the value is the numeral's.  Without a numeral
    nothing is converted.
  */
  lemma StrtoulMeaning(s: string)
    ensures var c := Strtoul(s);
            forall w, p, e :: NumeralAt(s, w, p, e) ==>
              && c.end == e
              && (c.rangeError <==> DigitsValue(s[p..e]) > ULONG_MAX)
              && c.value == (if DigitsValue(s[p..e]) > ULONG_MAX then ULONG_MAX else NumeralValue(s, w, p, e))
    ensures Strtoul(s).end > 0 ==> exists w, p :: NumeralAt(s, w, p, Strtoul(s).end)
  {
    var start := SkipWhile(s, 0, false);
    var first := if start < |s| && (s[start] == '+' || s[start] == '-') then start + 1 else start;
    var stop := SkipWhile(s, first, true);
    StrtoulScan(s);
    if stop > first {
      assert (start < |s| && s[start] == '-') <==> s[start..first] == "-";
    }
  }

  /**
    The scan `strtoul` does finds the numeral at the start of `s` whenever
    there is one, and there is at most one.
  */
  lemma StrtoulScan(s: string)
    ensures var start := SkipWhile(s, 0, false);
            var first := if start < |s| && (s[start] == '+' || s[start] == '-') then start + 1 else start;
            var stop := SkipWhile(s, first, true);
            && (forall w, p, e :: NumeralAt(s, w, p, e) ==> w == start && p == first && e == stop)
            && (stop > first ==> NumeralAt(s, start, first, stop))
  {
    var start := SkipWhile(s, 0, false);
    var first := if start < |s| && (s[start] == '+' || s[start] == '-') then start + 1 else start;
    var stop := SkipWhile(s, first, true);
    forall w, p, e | NumeralAt(s, w, p, e)
      ensures w == start && p == first && e == stop
    {
      assert IsDigit(s[p]);
    }
  }

  datatype NumError =
    | NotANumber(text: string)
    | OutOfRange(text: string)
    | AboveMax(text: string, max: nat)

  /**
    `parsenum`: the conversion must consume the whole string and must not
    overflow, and when `max` is not zero the value must not exceed it.
  */
  function ParseNum(s: string, max: nat): (r: Result<nat, NumError>)
    ensures r.Ok? ==> r.value <= ULONG_MAX && (max == 0 || r.value <= max)
    ensures r.Ok? && |s| > 0 ==> IsDigit(s[|s| - 1])
    ensures s == "" ==> r == Ok(0)
  {
    var c := Strtoul(s);
    if c.end != |s| then Err(NotANumber(s))
    else if c.rangeError then Err(OutOfRange(s))
    else if max != 0 && c.value > max then Err(AboveMax(s, max))
    else Ok(c.value)
  }

  /**
    What `parsenum` accepts: the empty string (as 0), or white space, an
    optional sign and digits filling the rest of the string, whose value fits
    in an unsigned long and, when `max` is not zero, does not exceed `max`.
    The value is the numeral's.  Anything that is not such a numeral is
    rejected as not a number.
  */
  lemma ParseNumMeaning(s: string, max: nat)
    ensures forall w, p :: NumeralAt(s, w, p, |s|) ==>
              var r := ParseNum(s, max);
              && (r.Ok? <==> DigitsValue(s[p..]) <= ULONG_MAX && (max == 0 || NumeralValue(s, w, p, |s|) <= max))
              && (r.Ok? ==> r.value == NumeralValue(s, w, p, |s|))
              && (DigitsValue(s[p..]) > ULONG_MAX ==> r == Err(OutOfRange(s)))
    ensures ParseNum(s, max) == Err(NotANumber(s)) <==> s != "" && !exists w, p :: NumeralAt(s, w, p, |s|)
  {
    forall w, p | NumeralAt(s, w, p, |s|)
      ensures var r := ParseNum(s, max);
              && (r.Ok? <==> DigitsValue(s[p..]) <= ULONG_MAX && (max == 0 || NumeralValue(s, w, p, |s|) <= max))
              && (r.Ok? ==> r.value == NumeralValue(s, w, p, |s|))
              && (DigitsValue(s[p..]) > ULONG_MAX ==> r == Err(OutOfRange(s)))
    {
      ParseNumOfNumeral(s, max, w, p);
    }
    ParseNumNotANumber(s, max);
  }

  lemma ParseNumOfNumeral(s: string, max: nat, w: int, p: int)
    requires NumeralAt(s, w, p, |s|)
    ensures var r := ParseNum(s, max);
            && (r.Ok? <==> DigitsValue(s[p..]) <= ULONG_MAX && (max == 0 || NumeralValue(s, w, p, |s|) <= max))
            && (r.Ok? ==> r.value == NumeralValue(s, w, p, |s|))
            && (DigitsValue(s[p..]) > ULONG_MAX ==> r == Err(OutOfRange(s)))
  {
    StrtoulMeaning(s);
    assert s[p..] == s[p..|s|];
  }

  lemma ParseNumNotANumber(s: string, max: nat)
    ensures ParseNum(s, max) == Err(NotANumber(s)) <==> s != "" && !exists w, p :: NumeralAt(s, w, p, |s|)
  {
    StrtoulMeaning(s);
  }

  /** The shortest decimal rendering of `n`, as `printf("%lu")` writes it. */
  function Decimal(n: nat): (s: string)
    ensures |s| > 0 && AllDigits(s)
    ensures DigitsValue(s) == n
  {
    var last := ['0' + (n % 10) as char];
    assert DigitValue(last[0]) == n % 10;
    if n < 10 then last
    else
      var s := Decimal(n / 10) + last;
      assert s[..|s| - 1] == Decimal(n / 10);
      s
  }

  lemma StrtoulOfDigits(s: string)
    requires |s| > 0 && AllDigits(s)
    ensures Strtoul(s).end == |s|
    ensures DigitsValue(s) <= ULONG_MAX ==> Strtoul(s) == Conversion(DigitsValue(s), |s|, false)
    ensures DigitsValue(s) > ULONG_MAX ==> Strtoul(s) == Conversion(ULONG_MAX, |s|, true)
  {
    assert SkipWhile(s, 0, false) == 0;
    assert s[0..|s|] == s;
  }

  /** Round trip: every value `parsenum` may return is accepted back from its decimal rendering. */
  lemma ParseNumDecimal(n: nat, max: nat)
    requires n <= ULONG_MAX && (max == 0 || n <= max)
    ensures ParseNum(Decimal(n), max) == Ok(n)
  {
    StrtoulOfDigits(Decimal(n));
  }

  /** A character after the digits that is not a digit leaves the string unconsumed. */
  lemma ParseNumRejectsTrailing(n: nat, c: char, max: nat)
    requires !IsDigit(c)
    ensures ParseNum(Decimal(n) + [c], max).Err?
  {
  }

  /** A magnitude that does not fit in an unsigned long is an ERANGE error whatever the bound. */
  lemma ParseNumOverflow(n: nat, max: nat)
    requires n > ULONG_MAX
    ensures ParseNum(Decimal(n), max) == Err(OutOfRange(Decimal(n)))
  {
    StrtoulOfDigits(Decimal(n));
  }

  /** A leading minus sign is accepted and negates modulo 2^64, so "-1" parses as ULONG_MAX when unbounded. */
  lemma ParseNumNegative(n: nat)
    requires n <= ULONG_MAX
    ensures ParseNum("-" + Decimal(n), 0) == Ok((ULONG_MAX + 1 - n) % (ULONG_MAX + 1))
  {
    var s := "-" + Decimal(n);
    assert s[1..] == s[1..|s|] == Decimal(n);
    assert s[0..1] == "-";
    assert NumeralAt(s, 0, 1, |s|);
    assert NumeralValue(s, 0, 1, |s|) == (ULONG_MAX + 1 - n) % (ULONG_MAX + 1);
    ParseNumOfNumeral(s, 0, 0, 1);
  }

  /** Conversion to `unsigned short`: keeps the low 16 bits. */
  function ToUShort(n: nat): (r: nat)
    ensures r < 0x1_0000
    ensures n < 0x1_0000 ==> r == n
  {
    n % 0x1_0000
  }

  /** Conversion to `unsigned int`: keeps the low 32 bits. */
  function ToUInt(n: nat): (r: nat)
    ensures r < 0x1_0000_0000
    ensures n < 0x1_0000_0000 ==> r == n
  {
    n % 0x1_0000_0000
  }

  /** Conversion to a two's complement 32-bit `int`. */
  function ToInt(n: nat): (r: int)
    ensures -0x8000_0000 <= r < 0x8000_0000
    ensures n < 0x8000_0000 ==> r == n
  {
    var low := n % 0x1_0000_0000;
    if low < 0x8000_0000 then low else low - 0x1_0000_0000
  }
}
