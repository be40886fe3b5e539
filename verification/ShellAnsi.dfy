/** The escapes of ANSI-C strings: what the text between `$'` and the closing quote stands for. */
module ShellAnsi {
  import opened Text

  const LAST_CODE_POINT: nat := 0x10ffff

  // ----- Numerals -----

  /** The value of a digit in any base up to 16, and 16 for what is no digit. */
  function DigitValue(c: char): nat
  {
    if '0' <= c <= '9' then c as nat - '0' as nat
    else if 'a' <= c <= 'f' then c as nat - 'a' as nat + 10
    else if 'A' <= c <= 'F' then c as nat - 'A' as nat + 10
    else 16
  }

  predicate Digit(c: char, base: nat) { DigitValue(c) < base }

  /** How many digits stand at `i`, of which at most `most` are taken. */
  function DigitsAt(s: string, i: nat, base: nat, most: nat): (n: nat)
    ensures n <= most && (n > 0 ==> i + n <= |s|)
    decreases most
  {
    if most == 0 || i >= |s| || !Digit(s[i], base) then 0 else 1 + DigitsAt(s, i + 1, base, most - 1)
  }

  function ValueOf(s: string, base: nat): nat
  {
    if s == "" then 0 else ValueOf(s[..|s| - 1], base) * base + DigitValue(s[|s| - 1])
  }

  /** The character with this code; one half of a surrogate pair is no character and gives the replacement one. */
  function Code(n: nat): char
  {
    if 0xd800 <= n < 0xe000 || n > LAST_CODE_POINT then '\U{fffd}' else n as char
  }

  // ----- One escape -----

  /** The escapes of one letter. */
  function Named(c: char): Option<char>
  {
    match c
    case 'a' => Some('\U{7}')
    case 'b' => Some('\U{8}')
    case 'e' => Some('\U{1b}')
    case 'E' => Some('\U{1b}')
    case 'f' => Some('\U{c}')
    case 'n' => Some('\n')
    case 'r' => Some('\r')
    case 't' => Some('\t')
    case 'v' => Some('\U{b}')
    case '\\' => Some('\\')
    case '\'' => Some('\'')
    case '"' => Some('"')
    case '?' => Some('?')
    case _ => None
  }

  /** The digits of a numeric escape whose letter is at `i`: where they start, how many there are, and their base. */
  function Numeric(body: string, i: nat): (r: (nat, nat, nat))
    requires i < |body|
    ensures i <= r.0 && (r.1 > 0 ==> r.0 + r.1 <= |body|)
  {
    match body[i]
    case 'x' => (i + 1, DigitsAt(body, i + 1, 16, 2), 16)
    case 'u' => (i + 1, DigitsAt(body, i + 1, 16, 4), 16)
    case 'U' => (i + 1, DigitsAt(body, i + 1, 16, 8), 16)
    case _ => (i, DigitsAt(body, i, 8, 3), 8)
  }

  /** What stands at `i`, and where the next one starts. */
  function OneAt(body: string, i: nat): (r: (string, nat))
    requires i < |body|
    ensures r.1 > i
  {
    if body[i] != '\\' || i + 1 >= |body| then ([body[i]], i + 1) else
    var c := body[i + 1];
    var (at, n, base) := Numeric(body, i + 1);
    var value := if n > 0 then ValueOf(body[at..at + n], base) else 0;
    if Named(c).Some? then ([Named(c).value], i + 2)
    else if n > 0 && base == 8 then ([Code(value % 256)], at + n)
    else if n > 0 && value <= LAST_CODE_POINT then ([Code(value)], at + n)
    else if c == 'c' && i + 2 < |body| then
      ([Code(body[i + 2] as nat % 32)], if body[i + 2] == '\\' && i + 3 < |body| && body[i + 3] == '\\' then i + 4 else i + 3)
    else (['\\', c], i + 2)
  }

  // ----- The whole text -----

  function Chars(body: string, i: nat): string
    decreases |body| - i
  {
    if i >= |body| then "" else OneAt(body, i).0 + Chars(body, OneAt(body, i).1)
  }

  function UpToNul(s: string): string { s[..IndexOf(s, '\0')] }

  /** Everything up to the first null character. */
  function AnsiValue(body: string): string
  {
    UpToNul(Chars(body, 0))
  }

  /** The loop over the escapes, which goes on after a null character but adds nothing any more. */
  method DecodeAnsi(body: string) returns (value: string)
    ensures value == AnsiValue(body)
  {
    value := "";
    var cut, i := false, 0;
    while i < |body|
      invariant if cut then value == AnsiValue(body) else '\0' !in value && value + Chars(body, i) == Chars(body, 0)
      decreases |body| - i
    {
      var (ch, next) := OneAt(body, i);
      var nul := IndexOf(ch, '\0');
      if !cut { AddsUpToNul(value, ch, Chars(body, next), Chars(body, 0)); }
      if nul < |ch| {
        if !cut { value := value + ch[..nul]; }
        cut := true;
      } else if !cut {
        value := value + ch;
      }
      i := next;
    }
    if !cut {
      IndexOfIs(value, |value|, '\0');
      assert value + "" == value && value[..|value|] == value;
    }
  }

  lemma AddsUpToNul(value: string, ch: string, rest: string, all: string)
    requires '\0' !in value && value + (ch + rest) == all
    ensures IndexOf(ch, '\0') < |ch| ==> UpToNul(all) == value + ch[..IndexOf(ch, '\0')]
    ensures IndexOf(ch, '\0') == |ch| ==> '\0' !in value + ch && (value + ch) + rest == all
  {
    Assoc(value, ch, rest);
    IndexOfSpec(ch, '\0');
    if IndexOf(ch, '\0') < |ch| { EndsAtNul(value, ch, rest, all, IndexOf(ch, '\0')); }
  }

  lemma EndsAtNul(value: string, ch: string, rest: string, all: string, nul: nat)
    requires '\0' !in value && all == value + ch + rest
    requires nul < |ch| && ch[nul] == '\0' && forall k :: 0 <= k < nul ==> ch[k] != '\0'
    ensures UpToNul(all) == value + ch[..nul]
  {
    var n := |value| + nul;
    assert all[..n] == value + ch[..nul] && all[n] == ch[nul];
    assert forall k :: 0 <= k < n ==> all[k] == (value + ch[..nul])[k] != '\0';
    IndexOfIs(all, n, '\0');
  }

  // ----- What a written string is read as -----

  predicate Digits(s: string, base: nat)
  {
    forall k :: 0 <= k < |s| ==> Digit(s[k], base)
  }

  /** A character or an escape as it is written. */
  datatype Ansi =
    | Plain(c: char)
    | Letter(c: char)
    | Octal(digits: string)
    | Hex(letter: char, digits: string)
    | Control(c: char)
    | Other(c: char)

  /** How many hexadecimal digits follow this letter. */
  function Width(letter: char): nat
  {
    if letter == 'x' then 2 else if letter == 'u' then 4 else if letter == 'U' then 8 else 0
  }

  predicate Writable(p: Ansi)
  {
    match p
    case Plain(c) => c != '\\' && c != '\''
    case Letter(c) => Named(c).Some?
    case Octal(digits) => |digits| == 3 && Digits(digits, 8)
    case Hex(letter, digits) => |digits| == Width(letter) > 0 && Digits(digits, 16) && ValueOf(digits, 16) <= LAST_CODE_POINT
    case Control(c) => c != '\''
    case Other(c) => Named(c).None? && !Digit(c, 8) && c != 'x' && c != 'u' && c != 'U' && c != 'c'
  }

  function Write(p: Ansi): string
  {
    match p
    case Plain(c) => [c]
    case Letter(c) => "\\" + [c]
    case Octal(digits) => "\\" + digits
    case Hex(letter, digits) => "\\" + [letter] + digits
    case Control(c) => "\\c" + if c == '\\' then "\\\\" else [c]
    case Other(c) => "\\" + [c]
  }

  function Means(p: Ansi): string
  {
    match p
    case Plain(c) => [c]
    case Letter(c) => if Named(c).Some? then [Named(c).value] else [c]
    case Octal(digits) => [Code(ValueOf(digits, 8) % 256)]
    case Hex(_, digits) => [Code(ValueOf(digits, 16))]
    case Control(c) => [Code(c as nat % 32)]
    case Other(c) => "\\" + [c]
  }

  predicate AllWritable(ps: seq<Ansi>)
  {
    forall i :: 0 <= i < |ps| ==> Writable(ps[i])
  }

  function WriteAll(ps: seq<Ansi>): string
  {
    if ps == [] then "" else Write(ps[0]) + WriteAll(ps[1..])
  }

  function MeansAll(ps: seq<Ansi>): string
  {
    if ps == [] then "" else Means(ps[0]) + MeansAll(ps[1..])
  }

  /** As many digits as are taken at most stand at `i`. */
  lemma {:induction false} TakesDigits(body: string, i: nat, digits: string, base: nat)
    requires At(body, i, digits) && Digits(digits, base)
    ensures DigitsAt(body, i, base, |digits|) == |digits|
    decreases |digits|
  {
    if digits != "" {
      assert digits == [digits[0]] + digits[1..] && body[i + 0] == digits[0];
      AtConcat(body, i, [digits[0]], digits[1..]);
      TakesDigits(body, i + 1, digits[1..], base);
    }
  }

  /** A numeric escape whose digits are where its letter says they are. */
  lemma ReadsDigits(body: string, i: nat, at: nat, digits: string, base: nat, value: nat)
    requires At(body, at, digits) && |digits| > 0 && i + 1 < |body| && body[i] == '\\' && Named(body[i + 1]).None?
    requires Numeric(body, i + 1) == (at, |digits|, base) && value == ValueOf(digits, base)
    requires base == 8 || (base == 16 && value <= LAST_CODE_POINT)
    ensures OneAt(body, i) == ([Code(if base == 8 then value % 256 else value)], at + |digits|)
  {
    assert body[at..at + |digits|] == digits;
  }

  lemma NotNamed(c: char)
    requires Digit(c, 8) || Width(c) > 0
    ensures Named(c).None? && (Digit(c, 8) ==> Width(c) == 0)
  {
  }

  lemma ReadsOctal(body: string, i: nat, digits: string)
    requires At(body, i, "\\" + digits) && |digits| == 3 && Digits(digits, 8)
    ensures i < |body| && OneAt(body, i) == ([Code(ValueOf(digits, 8) % 256)], i + 4)
  {
    AtConcat(body, i, "\\", digits);
    FirstTwo(body, i, "\\");
    FirstTwo(body, i + 1, digits);
    TakesDigits(body, i + 1, digits, 8);
    NotNamed(body[i + 1]);
    ReadsDigits(body, i, i + 1, digits, 8, ValueOf(digits, 8));
  }

  lemma ReadsHex(body: string, i: nat, letter: char, digits: string)
    requires At(body, i, "\\" + [letter] + digits) && |digits| == Width(letter) > 0 && Digits(digits, 16)
    requires ValueOf(digits, 16) <= LAST_CODE_POINT
    ensures i < |body| && OneAt(body, i) == ([Code(ValueOf(digits, 16))], i + 2 + |digits|)
  {
    AtConcat(body, i, "\\" + [letter], digits);
    AtConcat(body, i, "\\", [letter]);
    FirstTwo(body, i, "\\");
    FirstTwo(body, i + 1, [letter]);
    TakesDigits(body, i + 2, digits, 16);
    NotNamed(letter);
    ReadsDigits(body, i, i + 2, digits, 16, ValueOf(digits, 16));
  }

  /** Whatever is written is read, wherever it stands. */
  lemma ReadsOne(body: string, i: nat, p: Ansi)
    requires Writable(p) && At(body, i, Write(p))
    ensures i < |body| && OneAt(body, i) == (Means(p), i + |Write(p)|)
  {
    match p {
      case Plain(c) => FirstTwo(body, i, [c]);
      case Letter(c) => FirstTwo(body, i, "\\" + [c]);
      case Octal(digits) => ReadsOctal(body, i, digits);
      case Hex(letter, digits) => ReadsHex(body, i, letter, digits);
      case Control(c) => ReadsControl(body, i, c);
      case Other(c) => ReadsOther(body, i, c);
    }
  }

  lemma ReadsOther(body: string, i: nat, c: char)
    requires Writable(Other(c)) && At(body, i, "\\" + [c])
    ensures i < |body| && OneAt(body, i) == ("\\" + [c], i + 2)
  {
    FirstTwo(body, i, "\\" + [c]);
    assert Numeric(body, i + 1).1 == 0;
    assert ['\\', c] == "\\" + [c];
  }

  lemma ReadsControl(body: string, i: nat, c: char)
    requires At(body, i, Write(Control(c)))
    ensures i < |body| && OneAt(body, i) == ([Code(c as nat % 32)], i + |Write(Control(c))|)
  {
    var rest := if c == '\\' then "\\\\" else [c];
    AtConcat(body, i, "\\c", rest);
    FirstTwo(body, i, "\\c");
    FirstTwo(body, i + 2, rest);
    assert Numeric(body, i + 1).1 == 0;
  }

  /** What stands at a position, and all that follows from there. */
  type One = nat -> (string, nat)
  type All = nat -> string

  function OneOf(body: string): One { (k: nat) => if k < |body| then OneAt(body, k) else ("", k) }

  function AllOf(body: string): All { (k: nat) => Chars(body, k) }

  predicate ReadsAt(one: One, all: All, body: string, i: nat, p: Ansi)
  {
    Writable(p) && At(body, i, Write(p)) ==>
      i < |body| && one(i) == (Means(p), i + |Write(p)|) && all(i) == Means(p) + all(i + |Write(p)|)
  }

  lemma ReadsAlways(body: string, i: nat, p: Ansi)
    ensures ReadsAt(OneOf(body), AllOf(body), body, i, p)
  {
    if Writable(p) && At(body, i, Write(p)) { ReadsOne(body, i, p); }
  }

  lemma {:induction false} ReadsAll(one: One, all: All, body: string, i: nat, ps: seq<Ansi>)
    requires (forall k: nat, p :: ReadsAt(one, all, body, k, p)) && all(|body|) == ""
    requires AllWritable(ps) && At(body, i, WriteAll(ps)) && i + |WriteAll(ps)| == |body|
    ensures all(i) == MeansAll(ps)
    decreases |ps|
  {
    if ps != [] {
      var first, rest := Write(ps[0]), WriteAll(ps[1..]);
      AtConcat(body, i, first, rest);
      assert ReadsAt(one, all, body, i, ps[0]);
      ReadsAll(one, all, body, i + |first|, ps[1..]);
    }
  }

  /** A string written with any escapes is read as what they stand for, up to the first null character. */
  lemma EscapesAreRead(ps: seq<Ansi>)
    requires AllWritable(ps)
    ensures AnsiValue(WriteAll(ps)) == UpToNul(MeansAll(ps))
  {
    var body := WriteAll(ps);
    forall k: nat, p ensures ReadsAt(OneOf(body), AllOf(body), body, k, p) { ReadsAlways(body, k, p); }
    ReadsAll(OneOf(body), AllOf(body), body, 0, ps);
  }

  // ----- A printer -----

  function HexDigits(n: nat, width: nat): (s: string)
    ensures |s| == width
  {
    if width == 0 then "" else HexDigits(n / 16, width - 1) + ["0123456789abcdef"[n % 16]]
  }

  function Power16(n: nat): nat { if n == 0 then 1 else 16 * Power16(n - 1) }

  lemma {:induction false} HexDigitsAre(n: nat, width: nat)
    requires n < Power16(width)
    ensures Digits(HexDigits(n, width), 16) && ValueOf(HexDigits(n, width), 16) == n
  {
    if width > 0 {
      var rest, last, s := HexDigits(n / 16, width - 1), "0123456789abcdef"[n % 16], HexDigits(n, width);
      HexDigitsAre(n / 16, width - 1);
      assert DigitValue(last) == n % 16;
      assert s[..|s| - 1] == rest && s[|s| - 1] == last;
    }
  }

  /** Quotes, backslashes and control characters by their code, everything else as it is. */
  function Escaped(c: char): Ansi
  {
    if c == '\\' || c == '\'' || c < ' ' then Hex('U', HexDigits(c as nat, 8)) else Plain(c)
  }

  function AllEscaped(w: string): (ps: seq<Ansi>)
    ensures |ps| == |w|
  {
    seq(|w|, i requires 0 <= i < |w| => Escaped(w[i]))
  }

  lemma EscapedIs(c: char)
    ensures Writable(Escaped(c)) && Means(Escaped(c)) == [c]
  {
    assert Power16(8) == 0x1_0000_0000 by { assert Power16(4) == 0x1_0000 && Power16(6) == 0x100_0000; }
    HexDigitsAre(c as nat, 8);
  }

  lemma {:induction false} AllEscapedAre(w: string)
    ensures AllWritable(AllEscaped(w)) && MeansAll(AllEscaped(w)) == w
  {
    if w != "" {
      EscapedIs(w[0]);
      AllEscapedAre(w[1..]);
      assert AllEscaped(w) == [Escaped(w[0])] + AllEscaped(w[1..]);
      assert w == [w[0]] + w[1..];
    }
  }

  /** What the printer prints for a text without null characters is read as that text. */
  lemma PrintedIsRead(w: string)
    requires '\0' !in w
    ensures AnsiValue(WriteAll(AllEscaped(w))) == w
  {
    AllEscapedAre(w);
    EscapesAreRead(AllEscaped(w));
    IndexOfIs(w, |w|, '\0');
    assert w[..|w|] == w;
  }
}
