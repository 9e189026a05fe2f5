/**
 Texts that `parse_number` takes for the same number, and the characters `to_base` writes.
 */
module NumberTexts {
  import opened Bits
  import opened Bytes
  import opened Text
  import opened Numbers

  // ---- upper and lower case ---------------------------------------------------------------------

  function LowerChar(c: char): char
  {
    if 'A' <= c <= 'Z' then c + 32 as char else c
  }

  function Lower(s: string): (r: string)
    ensures |r| == |s| && forall i :: 0 <= i < |s| ==> r[i] == LowerChar(s[i])
  {
    seq(|s|, i requires 0 <= i < |s| => LowerChar(s[i]))
  }

  lemma CharKeeps(c: char)
    ensures DigitValue(LowerChar(c)) == DigitValue(c) && IsSpace(LowerChar(c)) == IsSpace(c)
    ensures LowerChar(c) == '0' <==> c == '0'
    ensures LowerChar(c) == '-' <==> c == '-'
    ensures LowerChar(c) == '+' <==> c == '+'
    ensures LowerChar(c) == '_' <==> c == '_'
    ensures LowerChar(c) == ' ' <==> c == ' '
    ensures forall u, l :: (u, l) in {('X', 'x'), ('O', 'o'), ('B', 'b')} ==>
              (LowerChar(c) == u || LowerChar(c) == l <==> c == u || c == l)
  {}

  lemma {:induction false} StripLeftLower(s: string)
    ensures StripLeft(Lower(s)) == Lower(StripLeft(s))
  {
    hide IsSpace, LowerChar;
    if s != [] {
      CharKeeps(s[0]);
      StripLeftLower(s[1..]);
      assert Lower(s)[1..] == Lower(s[1..]);
    }
  }

  lemma {:induction false} StripRightLower(s: string)
    ensures StripRight(Lower(s)) == Lower(StripRight(s))
  {
    hide IsSpace, LowerChar;
    if s != [] {
      CharKeeps(s[|s| - 1]);
      StripRightLower(s[..|s| - 1]);
      assert Lower(s)[..|s| - 1] == Lower(s[..|s| - 1]);
    }
  }

  lemma StripLower(s: string)
    ensures Strip(Lower(s)) == Lower(Strip(s))
  {
    hide StripLeft, StripRight;
    StripLeftLower(s);
    StripRightLower(StripLeft(s));
  }

  lemma {:induction false} WithoutLower(s: string, c: char)
    requires c == '_' || c == ' '
    ensures Without(Lower(s), c) == Lower(Without(s, c))
  {
    hide LowerChar;
    if s != [] {
      var front, last := s[..|s| - 1], s[|s| - 1];
      CharKeeps(last);
      WithoutLower(front, c);
      assert Lower(s)[..|s| - 1] == Lower(front);
      assert Lower(Without(front, c) + [last]) == Lower(Without(front, c)) + [LowerChar(last)];
    }
  }

  lemma {:induction false} ValueLower(s: string, base: nat)
    ensures Value(Lower(s), base) == Value(s, base)
  {
    hide LowerChar, DigitValue;
    if s != [] {
      CharKeeps(s[|s| - 1]);
      ValueLower(s[..|s| - 1], base);
      assert Lower(s)[..|s| - 1] == Lower(s[..|s| - 1]);
    }
  }

  lemma AllDigitsLower(s: string, base: nat)
    ensures AllDigits(Lower(s), base) <==> AllDigits(s, base)
  {
    hide LowerChar, DigitValue;
    var r := Lower(s);
    forall i | 0 <= i < |s| ensures IsDigit(r[i], base) <==> IsDigit(s[i], base) { CharKeeps(s[i]); }
  }

  lemma MagnitudeLower(s: string, base: nat)
    ensures Magnitude(Lower(s), base) == Magnitude(s, base)
  {
    hide Value, AllDigits, LowerChar;
    ValueLower(s, base);
    AllDigitsLower(s, base);
  }

  lemma PrefixLower(s: string)
    ensures PrefixBase(Lower(s)) == PrefixBase(s)
    ensures |s| >= 2 ==> Lower(s)[2..] == Lower(s[2..])
    ensures s != [] ==>
              && Lower(s)[1..] == Lower(s[1..]) && (Lower(s)[0] == '-' <==> s[0] == '-')
              && (Lower(s)[0] == '+' <==> s[0] == '+') && (Lower(s)[0] == '0' <==> s[0] == '0')
  {
    hide LowerChar;
    if s != [] { CharKeeps(s[0]); }
    if |s| >= 2 { CharKeeps(s[1]); }
  }

  lemma UnsignedLower(s: string, base: nat)
    ensures Unsigned(Lower(s), base) == Unsigned(s, base)
  {
    hide Magnitude, PrefixBase, LowerChar;
    PrefixLower(s);
    PrefixLong(s);
    MagnitudeLower(s, base);
    MagnitudeLower(s, 10);
    if |s| >= 2 {
      MagnitudeLower(s[2..], base);
      if PrefixBase(s).Some? { MagnitudeLower(s[2..], PrefixBase(s).value); }
    }
    forall i | 0 <= i < |s| ensures Lower(s)[i] != '0' <==> s[i] != '0' { CharKeeps(s[i]); }
  }

  lemma PrefixLong(s: string)
    ensures PrefixBase(s).Some? ==> |s| >= 2
  {}

  lemma IntLower(s: string, base: nat)
    ensures PythonInt(Lower(s), base) == PythonInt(s, base)
  {
    hide Unsigned, Strip;
    StripLower(s);
    var t := Strip(s);
    PrefixLower(t);
    UnsignedLower(t, base);
    if t != [] { UnsignedLower(t[1..], base); }
  }

  /** Letters may be written in either case, in digits and in prefixes. */
  lemma {:induction false} CaseIgnored(text: string, base: Option<nat>)
    ensures ParseNumber(Lower(text), base) == ParseNumber(text, base)
  {
    hide Strip, Without, PythonInt, PrefixBase;
    StripLower(text);
    WithoutLower(Strip(text), '_');
    WithoutLower(Without(Strip(text), '_'), ' ');
    var cleaned := Without(Without(Strip(text), '_'), ' ');
    PrefixLower(cleaned);
    var body := if cleaned != [] && cleaned[0] == '-' then cleaned[1..] else cleaned;
    PrefixLower(body);
    IntLower(body, 0);
    IntLower(body, 10);
    if base.Some? { IntLower(body, base.value); }
  }

  // ---- gaps -----------------------------------------------------------------------------------

  /** Spaces, but no other blank. */
  predicate Spaced(s: string)
  {
    forall i :: 0 <= i < |s| ==> s[i] == ' ' || !IsSpace(s[i])
  }

  lemma {:induction false} WithoutAppend(a: string, b: string, c: char)
    ensures Without(a + b, c) == Without(a, c) + Without(b, c)
  {
    if b == [] {
      assert a + b == a;
    } else {
      WithoutAppend(a, b[..|b| - 1], c);
      assert (a + b)[..|a + b| - 1] == a + b[..|b| - 1];
    }
  }

  /** What cleaning leaves of a text, stripped or not. */
  function Squeezed(s: string): string
  {
    Without(Without(s, '_'), ' ')
  }

  lemma SqueezedAppend(a: string, b: string)
    ensures Squeezed(a + b) == Squeezed(a) + Squeezed(b)
  {
    WithoutAppend(a, b, '_');
    WithoutAppend(Without(a, '_'), Without(b, '_'), ' ');
  }

  lemma SqueezedGap(c: char)
    requires c == '_' || c == ' '
    ensures Squeezed([c]) == []
  {
    OneChar(c, '_');
    OneChar(c, ' ');
  }

  lemma OneChar(c: char, d: char)
    ensures Without([c], d) == if c == d then [] else [c]
  {
    assert [c][..0] == [];
    assert Without([], d) == [];
  }

  lemma {:induction false} StripLeftSqueezes(s: string)
    requires Spaced(s)
    ensures Squeezed(StripLeft(s)) == Squeezed(s) && Spaced(StripLeft(s))
  {
    hide IsSpace;
    if s != [] && IsSpace(s[0]) {
      StripLeftSqueezes(s[1..]);
      SqueezedGap(s[0]);
      SqueezedAppend([s[0]], s[1..]);
      assert s == [s[0]] + s[1..];
    }
  }

  lemma {:induction false} StripRightSqueezes(s: string)
    requires Spaced(s)
    ensures Squeezed(StripRight(s)) == Squeezed(s)
  {
    hide IsSpace;
    if s != [] && IsSpace(s[|s| - 1]) {
      var front, last := s[..|s| - 1], s[|s| - 1];
      StripRightSqueezes(front);
      SqueezedGap(last);
      SqueezedAppend(front, [last]);
      assert s == front + [last];
    }
  }

  lemma CleanSqueezes(s: string)
    requires Spaced(s)
    ensures Clean(s) == if |Squeezed(s)| > 2048 then Err(TooLong(|Squeezed(s)|)) else Ok(Squeezed(s))
  {
    hide IsSpace, StripLeft, StripRight;
    StripLeftSqueezes(s);
    StripRightSqueezes(StripLeft(s));
  }

  /** A space or an underscore anywhere in a text changes nothing. */
  lemma {:induction false} GapIgnored(a: string, c: char, b: string, base: Option<nat>)
    requires (c == ' ' || c == '_') && Spaced(a) && Spaced(b)
    ensures ParseNumber(a + [c] + b, base) == ParseNumber(a + b, base)
  {
    hide PythonInt, PrefixBase, Clean, Squeezed;
    assert Spaced(a + [c] + b) && Spaced(a + b) by { UnderscoreIsNoSpace(); }
    CleanSqueezes(a + [c] + b);
    CleanSqueezes(a + b);
    SqueezedAppend(a + [c], b);
    SqueezedAppend(a, [c]);
    SqueezedAppend(a, b);
    SqueezedGap(c);
    assert Squeezed(a) + [] == Squeezed(a);
  }

  lemma UnderscoreIsNoSpace()
    ensures !IsSpace('_')
  {}

  // ---- what is written --------------------------------------------------------------------------

  /** Digits are upper-case, and the first one is 0 for zero alone. */
  lemma {:induction false} DigitsWritten(v: nat, base: nat)
    requires base in {2, 8, 10, 16}
    ensures forall i :: 0 <= i < |Digits(v, base)| ==> Digits(v, base)[i] in "0123456789ABCDEF"
    ensures Digits(v, base)[0] == '0' ==> v == 0 && Digits(v, base) == "0"
  {
    hide Digit;
    DivMod(v, base);
    if v < base {
      DigitWritten(v);
    } else {
      DigitWritten(v % base);
      DigitsWritten(v / base, base);
    }
  }

  lemma DigitWritten(d: nat)
    requires d < 16
    ensures Digit(d) in "0123456789ABCDEF" && (Digit(d) == '0' ==> d == 0)
  {
    assert Digit(d) == "0123456789ABCDEF"[d];
  }

  /** A number without a width: its sign, the prefix of its base and its digits, with no zero in front. */
  lemma {:induction false} WrittenAs(n: int, base: nat)
    requires base in {2, 8, 10, 16}
    ensures var v := if n < 0 then -n else n;
            ToBase(n, base, None) ==
            Ok((if n < 0 then "-" else "")
               + ((if base == 2 then "0b" else if base == 8 then "0o" else if base == 16 then "0x" else "")
                  + Digits(v, base)))
  {
    assert "" + Digits(Abs(n), base) == Digits(Abs(n), base);
  }

  /** As many digits as bits, or one for three or four of them, and no more than needed. */
  lemma {:induction false} ColumnsMeans(width: nat, base: nat)
    requires base in {2, 8, 16} && width > 0
    ensures var bits := if base == 2 then 1 else if base == 8 then 3 else 4;
            bits * (Columns(width, base) - 1) < width <= bits * Columns(width, base)
  {}

  /** What is refused: another base, and a width that is not positive. */
  lemma {:induction false} Refusals(n: int, base: nat, width: Option<int>)
    ensures ToBase(n, base, width).Err? <==>
              base !in {2, 8, 10, 16} || (width.Some? && width.value <= 0)
    ensures ToBase(n, base, width) == Err(BadBase) <==> base !in {2, 8, 10, 16}
  {}

  // ---- what is read -----------------------------------------------------------------------------

  /** The characters that stand for 0 to 35, in either case, by their code points; no other does. */
  lemma {:induction false} DigitsInOrder(c: char, d: nat)
    requires d < 36
    ensures DigitValue(c) == d <==> c as int == (if d < 10 then 48 else 55) + d || (d >= 10 && c as int == 87 + d)
  {}

  /** Text without blanks, gaps or signs, of a length that is taken. */
  predicate Bare(s: string)
  {
    0 < |s| <= 2048 && forall i :: 0 <= i < |s| ==> !IsSpace(s[i]) && s[i] !in {'_', '-', '+'}
  }

  /** The text begins with the prefix of a base. */
  predicate NamesBase(s: string)
  {
    |s| >= 2 && s[0] == '0' && s[1] in {'x', 'X', 'b', 'B', 'o', 'O'}
  }

  lemma BareIsClean(s: string)
    requires Bare(s)
    ensures s != [] && Clean(s) == Ok(s) && Strip(s) == s && s[0] != '-' && s[0] != '+'
    ensures |s| >= 2 ==> Bare(s[1..])
  {
    hide IsSpace;
    assert IsSpace(' ') by { SpaceIsSpace(); }
    CleanKeeps(s);
  }

  lemma SpaceIsSpace()
    ensures IsSpace(' ')
  {}

  /** A base given by the caller: from 2 to 36, and every character must be one of its digits. */
  lemma {:induction false} ForcedBase(s: string, base: nat)
    requires Bare(s) && base != 0
    requires !(base == 16 && |s| >= 2 && s[0] == '0' && s[1] in {'x', 'X'})
    requires !(base == 2 && |s| >= 2 && s[0] == '0' && s[1] in {'b', 'B'})
    requires !(base == 8 && |s| >= 2 && s[0] == '0' && s[1] in {'o', 'O'})
    ensures ParseNumber(s, Some(base)) ==
            if 2 <= base <= 36 && (forall i :: 0 <= i < |s| ==> DigitValue(s[i]) < base) then Ok(Value(s, base))
            else Err(NotAnInteger)
  {
    hide Value, Strip, Clean, DigitValue, IsSpace;
    BareIsClean(s);
  }

  /** The prefix of the base that the caller gave, or with no base given any prefix, is read off first. */
  lemma {:induction false} PrefixIsRead(digits: string, base: nat, prefix: string, forced: bool)
    requires (base, prefix) in {(16, "0x"), (16, "0X"), (8, "0o"), (8, "0O"), (2, "0b"), (2, "0B")}
    requires Bare(prefix + digits)
    ensures ParseNumber(prefix + digits, if forced then Some(base) else None) ==
            if digits != [] && (forall i :: 0 <= i < |digits| ==> DigitValue(digits[i]) < base) then
              Ok(Value(digits, base))
            else Err(NotAnInteger)
  {
    hide Value, Strip, Clean, DigitValue, IsSpace;
    var s := prefix + digits;
    BareIsClean(s);
    assert s[0] == prefix[0] && s[1] == prefix[1] && s[2..] == digits;
  }

  /** With no base and no prefix a number is decimal, and zeros in front do not matter. */
  lemma {:induction false} BareIsDecimal(s: string)
    requires Bare(s) && !NamesBase(s)
    ensures ParseNumber(s, None) == ParseNumber(s, Some(10))
  {
    hide Value, Strip, Clean, DigitValue, IsSpace;
    BareIsClean(s);
  }

  /** Base 0 reads like no base, but refuses zeros in front of anything but zeros. */
  lemma {:induction false} BaseZero(s: string)
    requires Bare(s)
    ensures ParseNumber(s, Some(0)) ==
            if !NamesBase(s) && s[0] == '0'
               && (exists i :: 0 <= i < |s| && s[i] != '0')
            then Err(NotAnInteger) else ParseNumber(s, None)
  {
    hide Value, Strip, Clean, DigitValue, IsSpace;
    BareIsClean(s);
  }

  /** One sign in front, or a second one behind a minus: a double minus is a plus. */
  lemma {:induction false} SignsRead(s: string, base: Option<nat>)
    requires Bare(s) && |s| <= 2046
    ensures var v := ParseNumber(s, base);
            && ParseNumber("-" + s, base) == (if v.Ok? then Ok(-v.value) else v)
            && ParseNumber("--" + s, base) == (if base.None? && NamesBase(s) then Err(NotAnInteger) else v)
            && ParseNumber("+" + s, base) == (if base.None? && NamesBase(s) then Err(NotAnInteger) else v)
  {
    hide ParseNumber, NamesBase;
    MinusRead(s, base);
    SecondSignRead(s, "--", base);
    SecondSignRead(s, "+", base);
  }

  lemma MinusRead(s: string, base: Option<nat>)
    requires Bare(s) && |s| <= 2046
    ensures var v := ParseNumber(s, base); ParseNumber("-" + s, base) == if v.Ok? then Ok(-v.value) else v
  {
    hide Strip, Clean, Bare, PythonInt, PrefixBase;
    BareIsClean(s);
    Signed("-", s);
    assert ("-" + s)[1..] == s && ("-" + s)[0] == '-';
  }

  lemma SecondSignRead(s: string, sign: string, base: Option<nat>)
    requires Bare(s) && |s| <= 2046 && sign in {"--", "+"}
    ensures ParseNumber(sign + s, base) ==
            if base.None? && NamesBase(s) then Err(NotAnInteger) else ParseNumber(s, base)
  {
    hide Strip, Clean, Bare, PythonInt, IsSpace;
    BareIsClean(s);
    Signed(sign, s);
    var text := sign + s;
    var body := if sign == "--" then "-" + s else text;
    assert sign == "--" ==> text[0] == '-' && text[1..] == body;
    assert sign == "+" ==> text[0] == '+';
    SignedInt(s, body);
    if base.None? && NamesBase(s) { NotDecimal(s); }
  }

  /** A sign in front of the text that Python's `int` takes. */
  lemma SignedInt(s: string, body: string)
    requires Bare(s) && |s| <= 2046 && (body == "-" + s || body == "+" + s)
    ensures PrefixBase(body) == None
    ensures forall base ::
              PythonInt(body, base) == if body[0] == '-' then Negated(PythonInt(s, base)) else PythonInt(s, base)
  {
    hide Strip, Clean, Bare, Unsigned, IsSpace;
    BareIsClean(s);
    Signed("-", s);
    Signed("+", s);
    assert body[1..] == s;
  }

  lemma NotDecimal(s: string)
    requires Bare(s) && NamesBase(s)
    ensures PythonInt(s, 10) == None
  {
    hide Strip, Clean, IsSpace;
    BareIsClean(s);
    assert !IsDigit(s[1], 10);
  }

  lemma Signed(sign: string, s: string)
    requires Bare(s) && |s| <= 2046 && sign in {"-", "--", "+"}
    ensures Clean(sign + s) == Ok(sign + s) && Strip(sign + s) == sign + s
    ensures sign == "--" ==> Strip("-" + s) == "-" + s
  {
    SpaceIsSpace();
    SignIsNoSpace();
    hide IsSpace;
    CleanKeeps(sign + s);
    CleanKeeps("-" + s);
  }

  lemma SignIsNoSpace()
    ensures !IsSpace('-') && !IsSpace('+')
  {}

  /** Nothing but blanks and gaps is no number, and a text too long is refused by its length. */
  lemma {:induction false} NothingIsRead(s: string, base: Option<nat>)
    requires Spaced(s)
    ensures |Squeezed(s)| == 0 ==> ParseNumber(s, base) == Err(NoNumber)
    ensures |Squeezed(s)| > 2048 ==> ParseNumber(s, base) == Err(TooLong(|Squeezed(s)|))
  {
    hide Squeezed, PythonInt;
    CleanSqueezes(s);
  }
}
