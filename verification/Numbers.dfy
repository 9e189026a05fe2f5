/** The integer printer and parser of fielddeck/analysis/convert.py. */
module Numbers {
  import opened Bits
  import opened Bytes
  import opened Text

  const MAX_CHARS: nat := 2048

  datatype NumberError = BadBase | BadWidth | NoNumber | TooLong(length: nat) | NotAnInteger

  // ---- printing -----------------------------------------------------------------------------

  /** `format(v, "b" / "o" / "d" / "X")` */
  function Digits(v: nat, base: nat): (s: string)
    requires base in {2, 8, 10, 16}
    ensures s != []
  {
    if v < base then [Digit(v)] else Digits(v / base, base) + [Digit(v % base)]
  }

  function Zeros(n: nat): (s: string)
    ensures |s| == n
  {
    seq(n, _ => '0')
  }

  /** `s.rjust(n, "0")` */
  function RightJustified(s: string, n: nat): string
  {
    if |s| < n then Zeros(n - |s|) + s else s
  }

  function Prefix(base: nat): string
  {
    if base == 2 then "0b" else if base == 8 then "0o" else "0x"
  }

  function BitsPerDigit(base: nat): (n: nat)
    ensures n > 0
  {
    if base == 2 then 1 else if base == 8 then 3 else 4
  }

  /** How many digits of this base `width` bits take. */
  function Columns(width: nat, base: nat): nat
  {
    (width + BitsPerDigit(base) - 1) / BitsPerDigit(base)
  }

  function Sign(n: int): string
  {
    if n < 0 then "-" else ""
  }

  function Abs(n: int): nat
  {
    if n < 0 then -n else n
  }

  /** `to_base` */
  function ToBase(n: int, base: nat, width: Option<int>): Result<string, NumberError>
  {
    if base !in {2, 8, 10, 16} then Err(BadBase)
    else if width.Some? && width.value <= 0 then Err(BadWidth)
    else
      var value := if width.Some? then n % Pow2(width.value) else n;
      if base == 10 then Ok(Sign(value) + Digits(Abs(value), 10))
      else
        var digits := Digits(Abs(value), base);
        var shown := if width.Some? then RightJustified(digits, Columns(width.value, base)) else digits;
        Ok(Sign(value) + (Prefix(base) + shown))
  }

  // ---- parsing ------------------------------------------------------------------------------

  function Without(s: string, c: char): string
  {
    if s == [] then [] else
      Without(s[..|s| - 1], c) + (if s[|s| - 1] == c then [] else [s[|s| - 1]])
  }

  /** `_clean_number` */
  function Clean(text: string): Result<string, NumberError>
  {
    var cleaned := Without(Without(Strip(text), '_'), ' ');
    if |cleaned| > MAX_CHARS then Err(TooLong(|cleaned|)) else Ok(cleaned)
  }

  predicate AllDigits(s: string, base: nat)
  {
    forall i :: 0 <= i < |s| ==> IsDigit(s[i], base)
  }

  function Value(s: string, base: nat): nat
  {
    if s == [] then 0 else Value(s[..|s| - 1], base) * base + DigitValue(s[|s| - 1])
  }

  function Magnitude(s: string, base: nat): Option<int>
  {
    if s != [] && AllDigits(s, base) then Some(Value(s, base)) else None
  }

  /** The base a literal's prefix names, if it has one. */
  function PrefixBase(s: string): Option<nat>
  {
    if |s| < 2 || s[0] != '0' then None
    else if s[1] == 'x' || s[1] == 'X' then Some(16)
    else if s[1] == 'b' || s[1] == 'B' then Some(2)
    else if s[1] == 'o' || s[1] == 'O' then Some(8)
    else None
  }

  function Unsigned(s: string, base: nat): Option<int>
  {
    var named := PrefixBase(s);
    if base == 0 then
      if named.Some? then Magnitude(s[2..], named.value)
      else if s != [] && s[0] == '0' && exists i :: 0 <= i < |s| && s[i] != '0' then None
      else Magnitude(s, 10)
    else if base < 2 || base > 36 then None
    else if named == Some(base) then Magnitude(s[2..], base)
    else Magnitude(s, base)
  }

  function Negated(n: Option<int>): Option<int>
  {
    match n case None => None case Some(v) => Some(-v)
  }

  /** Python's `int(text, base)` on ASCII text; None for its ValueError. */
  function PythonInt(text: string, base: nat): Option<int>
  {
    var s := Strip(text);
    if s == [] then None
    else if s[0] == '-' then Negated(Unsigned(s[1..], base))
    else if s[0] == '+' then Unsigned(s[1..], base)
    else Unsigned(s, base)
  }

  /** `parse_number` */
  function ParseNumber(text: string, base: Option<nat>): Result<int, NumberError>
  {
    match Clean(text)
    case Err(e) => Err(e)
    case Ok(cleaned) =>
      if cleaned == [] then Err(NoNumber) else
        var negative := cleaned[0] == '-';
        var body := if negative then cleaned[1..] else cleaned;
        var value := if base.Some? then PythonInt(body, base.value)
                     else if PrefixBase(body).Some? then PythonInt(body, 0)
                     else PythonInt(body, 10);
        match value
        case None => Err(NotAnInteger)
        case Some(v) => Ok(if negative then -v else v)
  }

  // ---- what printing keeps --------------------------------------------------------------------

  lemma DigitReads(d: nat)
    requires d < 16
    ensures DigitValue(Digit(d)) == d && Plain([Digit(d)])
  {}

  lemma SnocReads(s: string, c: char, base: nat)
    requires AllDigits(s, base) && IsDigit(c, base) && Plain(s) && Plain([c])
    ensures AllDigits(s + [c], base) && Plain(s + [c])
    ensures Value(s + [c], base) == Value(s, base) * base + DigitValue(c)
  {
    assert (s + [c])[..|s|] == s;
    assert [c][0] == c;
  }

  lemma DivMod(v: nat, base: nat)
    requires base in {2, 8, 10, 16}
    ensures (v / base) * base + v % base == v && v % base < base && (v >= base ==> v / base < v)
  {
    if base == 2 {} else if base == 8 {} else if base == 10 {} else {}
  }

  /** Digits of a value read back as that value. */
  lemma {:induction false} DigitsRead(v: nat, base: nat)
    requires base in {2, 8, 10, 16}
    ensures AllDigits(Digits(v, base), base) && Value(Digits(v, base), base) == v
    ensures Plain(Digits(v, base))
  {
    hide AllDigits, Value, Plain;
    DivMod(v, base);
    NothingReads(base);
    if v < base {
      DigitReads(v);
      SnocReads([], Digit(v), base);
      assert [] + [Digit(v)] == [Digit(v)];
    } else {
      DigitsRead(v / base, base);
      DigitReads(v % base);
      SnocReads(Digits(v / base, base), Digit(v % base), base);
    }
  }

  lemma NothingReads(base: nat)
    ensures AllDigits([], base) && Plain([]) && Value([], base) == 0
  {}

  /** No sign, no space and no separator. */
  predicate Plain(s: string)
  {
    forall i :: 0 <= i < |s| ==> !IsSpace(s[i]) && s[i] != ' ' && s[i] != '_' && s[i] != '-' && s[i] != '+'
  }

  lemma {:induction false} ZerosRead(n: nat, s: string, base: nat)
    requires AllDigits(s, base) && 2 <= base <= 16
    ensures AllDigits(Zeros(n) + s, base) && Value(Zeros(n) + s, base) == Value(s, base)
    decreases |s| + n
  {
    var all := Zeros(n) + s;
    if s != [] {
      var front := s[..|s| - 1];
      ZerosRead(n, front, base);
      assert all[..|all| - 1] == Zeros(n) + front;
    } else if n > 0 {
      ZerosRead(n - 1, s, base);
      assert all[..n - 1] == Zeros(n - 1) + s;
    }
  }

  // ---- reading what was printed -----------------------------------------------------------------

  /** Nothing that cleaning would take out. */
  predicate NoGaps(s: string)
  {
    forall i :: 0 <= i < |s| ==> !IsSpace(s[i]) && s[i] != ' ' && s[i] != '_'
  }

  lemma {:induction false} WithoutKeeps(s: string, c: char)
    requires forall i :: 0 <= i < |s| ==> s[i] != c
    ensures Without(s, c) == s
  {
    if s != [] { WithoutKeeps(s[..|s| - 1], c); }
  }

  lemma CleanKeeps(s: string)
    requires NoGaps(s)
    ensures Strip(s) == s
    ensures Clean(s) == if |s| > MAX_CHARS then Err(TooLong(|s|)) else Ok(s)
  {
    WithoutKeeps(s, '_');
    WithoutKeeps(s, ' ');
  }

  /** What may follow a sign: digits, with the prefix of their base. */
  ghost predicate Reads(body: string, base: nat, v: nat)
  {
    exists digits :: body == (if base == 10 then digits else Prefix(base) + digits)
                     && digits != [] && AllDigits(digits, base) && Plain(digits) && Value(digits, base) == v
  }

  lemma DecimalReads(body: string)
    requires body != [] && AllDigits(body, 10) && Plain(body)
    ensures PrefixBase(body) == None && PythonInt(body, 10) == Some(Value(body, 10))
    ensures NoGaps(body) && body[0] != '-' && body[0] != '+'
  {
    hide Value, Strip;
    if |body| >= 2 { assert IsDigit(body[1], 10); }
    StripKeeps(body);
  }

  lemma PrefixedReads(digits: string, base: nat)
    requires base in {2, 8, 16} && digits != [] && AllDigits(digits, base) && Plain(digits)
    ensures var body := Prefix(base) + digits;
            && PrefixBase(body) == Some(base) && NoGaps(body) && body[0] == '0'
            && PythonInt(body, base) == Some(Value(digits, base)) && PythonInt(body, 0) == Some(Value(digits, base))
  {
    hide Value, Strip, AllDigits;
    var body := Prefix(base) + digits;
    assert body[2..] == digits;
    assert NoGaps(Prefix(base)) && NoGaps(digits) && NoGaps(body);
    StripKeeps(body);
  }

  lemma StripKeeps(s: string)
    requires NoGaps(s)
    ensures Strip(s) == s
  {}

  lemma BodyReads(body: string, base: nat, v: nat)
    requires base in {2, 8, 10, 16} && Reads(body, base, v)
    ensures body != [] && NoGaps(body) && body[0] != '-' && body[0] != '+'
    ensures PrefixBase(body) == if base == 10 then None else Some(base)
    ensures PythonInt(body, base) == Some(v)
    ensures base != 10 ==> PythonInt(body, 0) == Some(v)
  {
    hide Value, AllDigits, Plain, PythonInt, PrefixBase, NoGaps;
    var digits :| body == (if base == 10 then digits else Prefix(base) + digits)
                  && digits != [] && AllDigits(digits, base) && Plain(digits) && Value(digits, base) == v;
    if base == 10 {
      DecimalReads(digits);
    } else {
      PrefixedReads(digits, base);
    }
  }

  /** A sign and a body within the limit parse to the signed value; beyond it they are refused. */
  lemma SignedReads(n: int, body: string, base: nat, forced: bool)
    requires base in {2, 8, 10, 16} && Reads(body, base, Abs(n))
    ensures var text := Sign(n) + body;
            ParseNumber(text, if forced then Some(base) else None)
            == if |text| <= MAX_CHARS then Ok(n) else Err(TooLong(|text|))
  {
    hide Strip, PythonInt, PrefixBase, Reads;
    var text := Sign(n) + body;
    BodyReads(body, base, Abs(n));
    CleanKeeps(text);
    if n < 0 {
      assert text[0] == '-' && text[1..] == body;
    } else {
      assert text == body;
    }
  }

  lemma PrintedReads(v: nat, base: nat, columns: nat)
    requires base in {2, 8, 10, 16}
    ensures base == 10 ==> Reads(Digits(v, 10), base, v)
    ensures base != 10 ==> Reads(Prefix(base) + Digits(v, base), base, v)
    ensures base != 10 ==> Reads(Prefix(base) + RightJustified(Digits(v, base), columns), base, v)
  {
    hide Value, AllDigits, Plain, Digits, RightJustified, Prefix;
    DigitsRead(v, base);
    PaddedReads(Digits(v, base), base, columns);
  }

  lemma PaddedReads(digits: string, base: nat, columns: nat)
    requires 2 <= base <= 16 && digits != [] && AllDigits(digits, base) && Plain(digits)
    ensures var padded := RightJustified(digits, columns);
            padded != [] && AllDigits(padded, base) && Plain(padded) && Value(padded, base) == Value(digits, base)
  {
    hide Value, AllDigits;
    if |digits| < columns { ZerosRead(columns - |digits|, digits, base); }
  }

  /** Printing and parsing undo each other for every integer, up to the length the parser takes. */
  lemma {:induction false} RoundTrip(n: int, base: nat, forced: bool)
    requires base in {2, 8, 10, 16}
    ensures var text := ToBase(n, base, None);
            text.Ok? && ParseNumber(text.value, if forced then Some(base) else None)
                        == if |text.value| <= MAX_CHARS then Ok(n) else Err(TooLong(|text.value|))
  {
    hide ParseNumber, Digits, Reads;
    PrintedReads(Abs(n), base, 0);
    SignedReads(n, if base == 10 then Digits(Abs(n), 10) else Prefix(base) + Digits(Abs(n), base), base, forced);
  }

  /** With a width, what comes back is the value in two's complement: n mod 2^width. */
  lemma {:induction false} WidthRoundTrip(n: int, base: nat, width: nat, forced: bool)
    requires base in {2, 8, 10, 16} && width > 0
    ensures var text := ToBase(n, base, Some(width));
            text.Ok? && ParseNumber(text.value, if forced then Some(base) else None)
                        == if |text.value| <= MAX_CHARS then Ok(n % Pow2(width)) else Err(TooLong(|text.value|))
  {
    hide ParseNumber, Digits, Reads, RightJustified;
    var v := n % Pow2(width);
    PrintedReads(v, base, Columns(width, base));
    var padded := RightJustified(Digits(v, base), Columns(width, base));
    SignedReads(v, if base == 10 then Digits(v, 10) else Prefix(base) + padded, base, forced);
  }

  function Power(base: nat, k: nat): nat
  {
    if k == 0 then 1 else base * Power(base, k - 1)
  }

  lemma DivBelow(v: nat, base: nat, p: nat)
    requires base in {2, 8, 10, 16} && v < base * p
    ensures v / base < p
  {
    if base == 2 {} else if base == 8 {} else if base == 10 {} else {}
  }

  lemma {:induction false} DigitsFit(v: nat, base: nat, k: nat)
    requires base in {2, 8, 10, 16} && k > 0 && v < Power(base, k)
    ensures |Digits(v, base)| <= k
  {
    assert Power(base, 1) == base * Power(base, 0) == base;
    if v >= base {
      DivBelow(v, base, Power(base, k - 1));
      DigitsFit(v / base, base, k - 1);
    }
  }

  lemma {:induction false} ColumnsHold(width: nat, base: nat)
    requires base in {2, 8, 16}
    ensures Pow2(width) <= Power(base, Columns(width, base))
  {
    var k := BitsPerDigit(base);
    if width > k {
      ColumnsHold(width - k, base);
      assert Columns(width, base) == Columns(width - k, base) + 1;
      assert Pow2(width) == base * Pow2(width - k) by {
        if k == 3 { assert Pow2(width - 1) == 2 * Pow2(width - 2) && Pow2(width - 2) == 2 * Pow2(width - 3); }
        if k == 4 {
          assert Pow2(width - 1) == 2 * Pow2(width - 2) && Pow2(width - 2) == 2 * Pow2(width - 3);
          assert Pow2(width - 3) == 2 * Pow2(width - 4);
        }
      }
      assert base * Pow2(width - k) <= base * Power(base, Columns(width - k, base));
    } else if width == 0 {
      assert Power(base, Columns(0, base)) >= 1;
    } else {
      assert Columns(width, base) == 1 && Power(base, 1) == base * Power(base, 0) == base;
      assert Pow2(width) <= base by {
        assert Pow2(1) == 2 && Pow2(2) == 4 && Pow2(3) == 8 && Pow2(4) == 16;
      }
    }
  }

  /** A rendering with a width has exactly the digits that width takes. */
  lemma WidthIsExact(n: int, base: nat, width: nat)
    requires base in {2, 8, 16} && width > 0
    ensures var text := ToBase(n, base, Some(width)); text.Ok? && |text.value| == 2 + Columns(width, base)
  {
    ColumnsHold(width, base);
    DigitsFit(n % Pow2(width), base, Columns(width, base));
  }
}
