/**
 One line of an Intel HEX file, character by character: which text spells which bytes, and
 what becomes of every other line.
 */
module IntelHexLines {
  import opened Bytes
  import opened Text
  import opened IntelHex

  /** A digit in either case. */
  predicate HexIs(c: char, d: nat)
  {
    d < 16 && (c == "0123456789ABCDEF"[d] || c == "0123456789abcdef"[d])
  }

  /** Two digits a byte. */
  predicate Spells(s: string, body: bytes)
  {
    |s| == 2 * |body|
    && forall i :: 0 <= i < |body| ==> HexIs(s[2 * i], body[i] / 16) && HexIs(s[2 * i + 1], body[i] % 16)
  }

  /** No blank, and nothing beyond ASCII. */
  predicate Visible(s: string)
  {
    forall i :: 0 <= i < |s| ==> ' ' < s[i] < 127 as char
  }

  predicate Blank(c: char)
  {
    c == ' ' || 9 <= c as int <= 13
  }

  lemma DigitIsHex(c: char, d: nat)
    requires c > ' '
    ensures HexIs(c, d) <==> IsDigit(c, 16) && DigitValue(c) == d
    ensures !IsAsciiSpace(c)
  {}

  lemma SpellsCons(s: string, body: bytes)
    requires |s| >= 2 && body != []
    ensures Spells(s, body) <==>
            HexIs(s[0], body[0] / 16) && HexIs(s[1], body[0] % 16) && Spells(s[2..], body[1..])
  {
    var t, rest := s[2..], body[1..];
    assert |t| == 2 * |rest| ==> forall i :: 0 <= i < |rest| ==>
      t[2 * i] == s[2 * (i + 1)] && t[2 * i + 1] == s[2 * (i + 1) + 1] && rest[i] == body[i + 1];
    if Spells(s, body) {
      forall i | 0 <= i < |rest| ensures HexIs(t[2 * i], rest[i] / 16) && HexIs(t[2 * i + 1], rest[i] % 16) {
        assert HexIs(s[2 * (i + 1)], body[i + 1] / 16);
      }
    }
    if HexIs(s[0], body[0] / 16) && HexIs(s[1], body[0] % 16) && Spells(t, rest) {
      forall i | 0 <= i < |body| ensures HexIs(s[2 * i], body[i] / 16) && HexIs(s[2 * i + 1], body[i] % 16) {
        if i > 0 { assert HexIs(t[2 * (i - 1)], rest[i - 1] / 16); }
      }
    }
  }

  /** Without blanks, what is read is exactly what is spelled, in either case. */
  lemma {:induction false} ReadsIffSpelled(s: string, body: bytes)
    requires Visible(s)
    ensures FromHex(s) == Some(body) <==> Spells(s, body)
    decreases |s|
  {
    hide HexIs, DigitValue, Spells;
    NothingSpelled(s, body);
    if |s| >= 2 {
      var high, low := DigitValue(s[0]), DigitValue(s[1]);
      DigitIsHex(s[0], high);
      DigitIsHex(s[1], low);
      if body != [] {
        DigitIsHex(s[0], body[0] / 16);
        DigitIsHex(s[1], body[0] % 16);
        SpellsCons(s, body);
        ReadsIffSpelled(s[2..], body[1..]);
        assert body == [body[0]] + body[1..];
      }
    } else if s != [] {
      DigitIsHex(s[0], 0);
    }
  }

  lemma NothingSpelled(s: string, body: bytes)
    ensures s == [] || body == [] || |s| == 1 ==> (Spells(s, body) <==> s == [] && body == [])
  {}

  lemma BlankFirst(c: char, s: string)
    requires Blank(c)
    ensures FromHex([c] + s) == FromHex(s)
  {
    assert ([c] + s)[1..] == s;
  }

  lemma PairFirst(x: char, y: char, s: string)
    requires !Blank(x) && IsDigit(x, 16) && IsDigit(y, 16)
    ensures FromHex([x, y] + s) == match FromHex(s)
                                   case None => None
                                   case Some(rest) => Some(Pair(DigitValue(x), DigitValue(y)) + rest)
  {
    assert ([x, y] + s)[2..] == s;
  }

  lemma FirstOf(a: string)
    requires FromHex(a).Some? && a != []
    ensures Blank(a[0]) ==> FromHex(a[1..]).Some?
    ensures !Blank(a[0]) ==> |a| >= 2 && IsDigit(a[0], 16) && IsDigit(a[1], 16) && FromHex(a[2..]).Some?
  {
    hide DigitValue;
  }

  /** Blanks between bytes are skipped. */
  lemma {:induction false} BlankBetween(a: string, c: char, b: string)
    requires FromHex(a).Some? && Blank(c)
    ensures FromHex(a + [c] + b) == FromHex(a + b)
    decreases |a|
  {
    hide FromHex, IsDigit, Blank;
    if a == [] {
      BlankFirst(c, b);
      assert a + [c] + b == [c] + b && a + b == b;
    } else {
      FirstOf(a);
      var n := if Blank(a[0]) then 1 else 2;
      var rest := a[n..];
      assert a + [c] + b == a[..n] + (rest + [c] + b) && a + b == a[..n] + (rest + b);
      BlankBetween(rest, c, b);
      if Blank(a[0]) {
        BlankFirst(a[0], rest + [c] + b);
        BlankFirst(a[0], rest + b);
        assert a[..1] == [a[0]];
      } else {
        PairFirst(a[0], a[1], rest + [c] + b);
        PairFirst(a[0], a[1], rest + b);
        assert a[..2] == [a[0], a[1]];
      }
    }
  }

  /** What becomes of a line without blanks: each of the three refusals, and a record otherwise. */
  lemma {:induction false} LineVerdict(s: string, number: nat, body: bytes)
    requires Visible(s)
    ensures ReadLine(s, number) == Ok(None) <==> s == []
    ensures ReadLine(s, number) == Err(NotARecord(number)) <==> s != [] && s[0] != ':'
    ensures s != [] && s[0] == ':' && Spells(s[1..], body) ==>
              ReadLine(s, number) == if |body| < 5 then Err(TooShort(number)) else Ok(Some(body))
    ensures ReadLine(s, number) == Ok(Some(body)) ==> s != [] && s[0] == ':' && Spells(s[1..], body)
    ensures s != [] && s[0] == ':' && (forall b :: !Spells(s[1..], b)) ==>
              ReadLine(s, number) == Err(NotHex(number))
  {
    hide Spells, FromHex;
    VisibleStays(s);
    if s != [] {
      ReadsIffSpelled(s[1..], body);
      var read := FromHex(s[1..]);
      if read.Some? { ReadsIffSpelled(s[1..], read.value); }
    }
  }

  /** Blanks around a line, and lines of nothing but blanks, do not count. */
  lemma {:induction false} BlanksAround(before: string, s: string, behind: string, number: nat)
    requires forall c :: c in before || c in behind ==> Blank(c)
    requires Visible(s)
    ensures ReadLine(before + s + behind, number) == ReadLine(s, number)
  {
    if s == [] {
      OnlyBlanks(before + s + behind);
    } else {
      StripAround(before, s, behind);
      VisibleStays(s);
    }
  }

  lemma {:induction false} OnlyBlanks(s: string)
    requires forall c :: c in s ==> Blank(c)
    ensures Strip(s) == []
  {
    if s != [] {
      assert s[0] in s;
      OnlyBlanks(s[1..]);
    }
  }

  lemma VisibleStays(s: string)
    requires Visible(s)
    ensures Strip(s) == s
    ensures s != [] ==> !IsSpace(s[0]) && !IsSpace(s[|s| - 1]) && Visible(s[1..])
  {}
}
