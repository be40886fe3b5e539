/** What a range between braces is, and the members it stands for. */
module BraceRanges {
  import opened Text
  import opened Braces

  /** A decimal number as it may be written: a sign, zeros in front, and the shortest digits of the magnitude. */
  datatype Numeral = Numeral(negative: bool, zeros: nat, magnitude: nat)

  datatype Bounds = Numbers(x: Numeral, y: Numeral) | Letters(a: char, b: char)

  function Zeros(n: nat): (s: string)
    ensures |s| == n && forall i :: 0 <= i < n ==> s[i] == '0'
  {
    seq(n, _ => '0')
  }

  function DigitsOf(x: Numeral): (s: string)
    ensures forall i :: 0 <= i < |s| ==> Digit(s[i])
  {
    Zeros(x.zeros) + Decimal(x.magnitude)
  }

  function PrintNumeral(x: Numeral): string
  {
    (if x.negative then "-" else "") + DigitsOf(x)
  }

  function IntOf(x: Numeral): int
  {
    var n: int := x.magnitude;
    if x.negative then -n else n
  }

  function Inside(r: Bounds): string
  {
    match r
    case Numbers(x, y) => PrintNumeral(x) + ".." + PrintNumeral(y)
    case Letters(a, b) => [a] + ".." + [b]
  }

  /** Numbers that are held exactly, or letters. */
  predicate WellFormedBounds(r: Bounds)
  {
    match r
    case Numbers(x, y) => x.magnitude <= MAX_SAFE_INTEGER && y.magnitude <= MAX_SAFE_INTEGER
    case Letters(a, b) => Letter(a) && Letter(b)
  }

  // ----- The members of a range -----

  /** The number `k` steps from `a` towards `b`. */
  function Toward(a: int, b: int, k: nat): int { if a <= b then a + k else a - k }

  function NumberWord(v: int, width: nat): string
  {
    var digits := Decimal(Abs(v));
    (if v < 0 then "-" else "") + (Zeros(if width > |digits| then width - |digits| else 0) + digits)
  }

  /** Numbers get the width of the wider bound, without its sign, when some bound is written with zeros in front. */
  function PaddedWidth(x: Numeral, y: Numeral): nat
  {
    if x.zeros > 0 || y.zeros > 0 then Max(|DigitsOf(x)|, |DigitsOf(y)|) else 0
  }

  function NumberWords(a: int, b: int, width: nat): seq<string>
  {
    seq(Abs(b - a) + 1, k requires 0 <= k => NumberWord(Toward(a, b, k), width))
  }

  function LetterWords(a: int, b: int): seq<string>
    requires 'A' as int <= a <= 'z' as int && 'A' as int <= b <= 'z' as int
  {
    seq(Abs(b - a) + 1, k requires 0 <= k <= Abs(b - a) => [Toward(a, b, k) as char])
  }

  function RangeWords(r: Bounds): seq<string>
    requires WellFormedBounds(r)
  {
    match r
    case Numbers(x, y) => NumberWords(IntOf(x), IntOf(y), PaddedWidth(x, y))
    case Letters(a, b) => LetterWords(a as int, b as int)
  }

  // ----- Decimal numbers -----

  /** The digits of a number have its value, and no zero in front of others. */
  lemma {:induction false} DecimalIs(n: nat)
    ensures |Decimal(n)| >= 1 && ValueOf(Decimal(n)) == n
    ensures |Decimal(n)| >= 2 ==> Decimal(n)[0] != '0'
  {
    var d := ['0' + (n % 10) as char];
    assert d[..0] == "" && (d[0] - '0') as int == n % 10;
    if n >= 10 {
      DecimalIs(n / 10);
      var s := Decimal(n / 10) + d;
      assert s[..|s| - 1] == Decimal(n / 10) && s[|s| - 1] == d[0];
      FirstDigit(n / 10);
    }
  }

  lemma {:induction false} FirstDigit(n: nat)
    requires n >= 1
    ensures |Decimal(n)| >= 1 && Decimal(n)[0] != '0'
  {
    if n >= 10 { FirstDigit(n / 10); }
  }

  lemma {:induction false} ZerosAreNothing(n: nat)
    ensures ValueOf(Zeros(n)) == 0
  {
    if n > 0 {
      assert Zeros(n)[..n - 1] == Zeros(n - 1);
      ZerosAreNothing(n - 1);
    }
  }

  lemma {:induction false} ValueWithZeros(n: nat, m: nat, s: string)
    requires s == Zeros(n) + Decimal(m)
    ensures forall i :: 0 <= i < |s| ==> Digit(s[i])
    ensures ValueOf(s) == m
  {
    var d := ['0' + (m % 10) as char];
    assert (d[0] - '0') as int == m % 10;
    if m < 10 {
      assert s[..|s| - 1] == Zeros(n) && s[|s| - 1] == d[0];
      ZerosAreNothing(n);
    } else {
      var t := Zeros(n) + Decimal(m / 10);
      Assoc(Zeros(n), Decimal(m / 10), d);
      assert s == t + d;
      assert s[..|s| - 1] == t && s[|s| - 1] == d[0];
      ValueWithZeros(n, m / 10, t);
    }
  }

  lemma {:induction false} PadStartIs(s: string, width: nat)
    requires forall i :: 0 <= i < |s| ==> Digit(s[i])
    ensures PadStart(s, width) == Zeros(if width > |s| then width - |s| else 0) + s
    decreases width - |s|
  {
    if |s| >= width {
      assert Zeros(0) + s == s;
    } else {
      var n := width - |s| - 1;
      PadStartIs("0" + s, width);
      assert Zeros(n + 1) == Zeros(n) + "0";
      Assoc(Zeros(n), "0", s);
    }
  }

  lemma NumberItemIs(v: int, width: nat)
    ensures (if v < 0 then "-" else "") + PadStart(Decimal(Abs(v)), width) == NumberWord(v, width)
  {
    PadStartIs(Decimal(Abs(v)), width);
  }

  /** The loop over numbers gives every number between the bounds, both included, in order. */
  lemma {:induction false} NumberItemsAre(a: int, b: int, width: nat)
    ensures NumberItems(a, b, width) == NumberWords(a, b, width)
    decreases Abs(b - a)
  {
    NumberItemIs(a, width);
    if a != b {
      var next := if a < b then a + 1 else a - 1;
      NumberItemsAre(next, b, width);
      assert NumberWords(a, b, width) == [NumberWord(a, width)] + NumberWords(next, b, width);
    }
  }

  lemma {:induction false} LetterItemsAre(a: int, b: int)
    requires 'A' as int <= a <= 'z' as int && 'A' as int <= b <= 'z' as int
    ensures LetterItems(a, b) == LetterWords(a, b)
    decreases Abs(b - a)
  {
    if a != b {
      var next := if a < b then a + 1 else a - 1;
      LetterItemsAre(next, b);
      assert LetterWords(a, b) == [[a as char]] + LetterWords(next, b);
    }
  }

  // ----- Reading a range -----

  lemma {:induction false} DigitRunIs(digits: string, rest: string, s: string)
    requires s == digits + rest && (forall i :: 0 <= i < |digits| ==> Digit(digits[i])) && (rest != "" ==> !Digit(rest[0]))
    ensures DigitRun(s) == |digits|
  {
    if digits == "" {
      assert s == rest;
    } else {
      assert s[0] == digits[0] && s[1..] == digits[1..] + rest;
      DigitRunIs(digits[1..], rest, s[1..]);
    }
  }

  lemma ReadsParts(s: string, t: string, digits: string, rest: string)
    requires s != "" && t == (if s[0] == '-' then s[1..] else s) && t == digits + rest
    requires digits != "" && DigitRun(t) == |digits| && forall i :: 0 <= i < |digits| ==> Digit(digits[i])
    ensures ReadNumber(s) == Some((Number(s[0] == '-', digits), rest))
  {
    assert t[..|digits|] == digits && t[|digits|..] == rest;
  }

  lemma SignIsFirst(negative: bool, digits: string, rest: string, s: string)
    requires s == (if negative then "-" else "") + digits + rest
    requires digits != "" && Digit(digits[0])
    ensures s != "" && (s[0] == '-' <==> negative) && (if negative then s[1..] else s) == digits + rest
  {
    assert "" + digits == digits;
  }

  lemma NumberIs(x: Numeral, digits: string)
    requires digits == DigitsOf(x)
    ensures digits != "" && Number(x.negative, digits).Value() == IntOf(x)
    ensures Number(x.negative, digits).Padded() <==> x.zeros > 0
  {
    DecimalIs(x.magnitude);
    ValueWithZeros(x.zeros, x.magnitude, digits);
    assert digits[0] == if x.zeros > 0 then '0' else Decimal(x.magnitude)[0];
  }

  lemma ReadsNumeral(x: Numeral, rest: string, s: string)
    requires s == PrintNumeral(x) + rest && (rest != "" ==> !Digit(rest[0]))
    ensures ReadNumber(s) == Some((Number(x.negative, DigitsOf(x)), rest))
    ensures Number(x.negative, DigitsOf(x)).Value() == IntOf(x)
    ensures Number(x.negative, DigitsOf(x)).Padded() <==> x.zeros > 0
  {
    var digits := DigitsOf(x);
    NumberIs(x, digits);
    SignIsFirst(x.negative, digits, rest, s);
    DigitRunIs(digits, rest, digits + rest);
    ReadsParts(s, digits + rest, digits, rest);
  }

  lemma RangeOf(content: string, x: Number, y: Number, rest: string, last: string)
    requires x.Valid() && y.Valid() && rest == ".." + last
    requires ReadNumber(content) == Some((x, rest)) && ReadNumber(last) == Some((y, ""))
    ensures RangeItems(content) ==
      if Abs(x.Value()) > MAX_SAFE_INTEGER || Abs(y.Value()) > MAX_SAFE_INTEGER || Abs(y.Value() - x.Value()) + 1 > BUDGET then Refused
      else Items(NumberItems(x.Value(), y.Value(), if x.Padded() || y.Padded() then Max(|x.digits|, |y.digits|) else 0))
  {
    assert rest[2..] == last && rest[..2] == "..";
  }

  lemma ReadsBounds(x: Numeral, y: Numeral, content: string)
    requires content == Inside(Numbers(x, y))
    ensures RangeItems(content) ==
      if Abs(IntOf(x)) > MAX_SAFE_INTEGER || Abs(IntOf(y)) > MAX_SAFE_INTEGER || Abs(IntOf(y) - IntOf(x)) + 1 > BUDGET then Refused
      else Items(NumberItems(IntOf(x), IntOf(y), PaddedWidth(x, y)))
  {
    var last, m, n := PrintNumeral(y), Number(x.negative, DigitsOf(x)), Number(y.negative, DigitsOf(y));
    ReadsBothBounds(x, y, content, m, n, ".." + last, last);
    RangeOf(content, m, n, ".." + last, last);
  }

  lemma ReadsBothBounds(x: Numeral, y: Numeral, content: string, m: Number, n: Number, rest: string, last: string)
    requires content == Inside(Numbers(x, y)) && rest == ".." + last && last == PrintNumeral(y)
    requires m == Number(x.negative, DigitsOf(x)) && n == Number(y.negative, DigitsOf(y))
    ensures ReadNumber(content) == Some((m, rest)) && ReadNumber(last) == Some((n, ""))
    ensures m.Valid() && m.Value() == IntOf(x) && (m.Padded() <==> x.zeros > 0)
    ensures n.Valid() && n.Value() == IntOf(y) && (n.Padded() <==> y.zeros > 0)
  {
    Assoc(PrintNumeral(x), "..", last);
    ReadsNumeral(x, rest, content);
    assert last + "" == last;
    ReadsNumeral(y, "", last);
  }

  lemma ReadsLetters(a: char, b: char, content: string)
    requires Letter(a) && Letter(b) && content == Inside(Letters(a, b))
    ensures RangeItems(content) == Items(LetterItems(a as int, b as int))
  {
    assert content == [a, '.', '.', b] && content[1..3] == "..";
    assert ReadNumber(content).None?;
  }

  /** A written range stands for exactly its words, up to 256 of them, and is refused beyond that. */
  lemma RangeIsItsWords(r: Bounds)
    requires WellFormedBounds(r)
    ensures RangeItems(Inside(r)) == if |RangeWords(r)| <= BUDGET then Items(RangeWords(r)) else Refused
  {
    match r {
      case Numbers(x, y) =>
        ReadsBounds(x, y, Inside(r));
        NumberItemsAre(IntOf(x), IntOf(y), PaddedWidth(x, y));
      case Letters(a, b) =>
        ReadsLetters(a, b, Inside(r));
        LetterItemsAre(a as int, b as int);
    }
  }

  /** A range with a bound that is not held exactly is refused. */
  lemma InexactRangeIsRefused(x: Numeral, y: Numeral)
    requires !WellFormedBounds(Numbers(x, y))
    ensures RangeItems(Inside(Numbers(x, y))) == Refused
  {
    ReadsBounds(x, y, Inside(Numbers(x, y)));
  }

  // ----- Nothing else is read as a range -----

  lemma {:induction false} DigitsAreDecimal(digits: string) returns (zeros: nat)
    requires digits != "" && forall i :: 0 <= i < |digits| ==> Digit(digits[i])
    ensures digits == Zeros(zeros) + Decimal(ValueOf(digits))
  {
    var n := |digits| - 1;
    var last := digits[n];
    var d := (last - '0') as int;
    assert '0' + d as char == last;
    if n == 0 {
      zeros := 0;
      assert digits[..n] == "" && digits == [last];
      assert Zeros(0) + Decimal(d) == digits;
    } else {
      var front := digits[..n];
      assert digits == front + [last];
      var z := DigitsAreDecimal(front);
      var v := ValueOf(front);
      if v == 0 {
        zeros := z + 1;
        assert Decimal(0) == "0" && Decimal(d) == [last] && Zeros(z + 1) == Zeros(z) + "0";
      } else {
        zeros := z;
        assert (10 * v + d) / 10 == v && (10 * v + d) % 10 == d;
        Assoc(Zeros(z), Decimal(v), [last]);
      }
    }
  }

  lemma ReadIsPrinted(s: string) returns (x: Numeral)
    requires ReadNumber(s).Some?
    ensures s == PrintNumeral(x) + ReadNumber(s).value.1
  {
    var digits, rest := ReadNumber(s).value.0.digits, ReadNumber(s).value.1;
    var negative := s != "" && s[0] == '-';
    ReadGives(s, negative, digits, rest);
    var zeros := DigitsAreDecimal(digits);
    x := Numeral(negative, zeros, ValueOf(digits));
  }

  lemma ReadGives(s: string, negative: bool, digits: string, rest: string)
    requires ReadNumber(s).Some? && ReadNumber(s).value.0.digits == digits && ReadNumber(s).value.1 == rest
    requires negative == (s != "" && s[0] == '-')
    ensures digits != "" && s == (if negative then "-" else "") + digits + rest
    ensures forall i :: 0 <= i < |digits| ==> Digit(digits[i])
  {
    var t := if negative then s[1..] else s;
    var n := DigitRun(t);
    assert t == t[..n] + t[n..];
    if negative { assert s == "-" + t; } else { assert "" + t[..n] == t[..n]; }
  }

  /** What is read as a range, or refused as one, is written as numbers or letters with two dots between them. */
  lemma OnlyRangesAreRead(content: string) returns (r: Bounds)
    requires !RangeItems(content).NoRange?
    ensures content == Inside(r) && (r.Letters? ==> WellFormedBounds(r))
  {
    var a := ReadNumber(content);
    if a.Some? && ".." <= a.value.1 && ReadNumber(a.value.1[2..]).Some? && ReadNumber(a.value.1[2..]).value.1 == "" {
      var x := ReadIsPrinted(content);
      var y := ReadIsPrinted(a.value.1[2..]);
      r := Numbers(x, y);
      assert a.value.1 == ".." + a.value.1[2..] && PrintNumeral(y) + "" == PrintNumeral(y);
      Assoc(PrintNumeral(x), "..", PrintNumeral(y));
    } else {
      r := Letters(content[0], content[3]);
      assert content == [content[0]] + content[1..3] + [content[3]];
    }
  }

  // ----- Ranges and their words are plain text -----

  predicate PlainText(s: string)
  {
    forall i :: 0 <= i < |s| ==> s[i] != '{' && s[i] != '}' && s[i] != ','
  }

  lemma InsideIsPlain(r: Bounds)
    requires WellFormedBounds(r)
    ensures PlainText(Inside(r))
  {
  }

  lemma WordsArePlain(r: Bounds)
    requires WellFormedBounds(r)
    ensures forall k :: 0 <= k < |RangeWords(r)| ==> PlainText(RangeWords(r)[k])
  {
  }
}
