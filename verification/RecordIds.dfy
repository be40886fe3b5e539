/** The names of record files: a prefix, a time of thirteen digits and twelve hexadecimal digits, sorted as strings. */
module RecordIds {
  const TIME_WIDTH: nat := 13
  const TIMES: nat := 10000000000000
  const SUFFIX: string := "_000000000000"

  /** `a` comes before `b` in the order of strings. */
  predicate Precedes(a: string, b: string)
  {
    if b == "" then false
    else if a == "" then true
    else if a[0] != b[0] then a[0] < b[0]
    else Precedes(a[1..], b[1..])
  }

  predicate Digit(c: char) { '0' <= c <= '9' }
  predicate Hex(c: char) { Digit(c) || 'a' <= c <= 'f' }

  /** The form a record file's name must have to be read at all. */
  predicate IsId(prefix: string, id: string)
  {
    && |id| == |prefix| + TIME_WIDTH + 13
    && id[..|prefix|] == prefix
    && (forall i :: |prefix| <= i < |prefix| + TIME_WIDTH ==> Digit(id[i]))
    && id[|prefix| + TIME_WIDTH] == '_'
    && forall i :: |prefix| + TIME_WIDTH < i < |id| ==> Hex(id[i])
  }

  function DigitOf(n: nat): (c: char)
    requires n < 10
    ensures Digit(c)
  {
    '0' + n as char
  }

  function Padded(n: nat, width: nat): (s: string)
    ensures |s| == width && forall i :: 0 <= i < width ==> Digit(s[i])
  {
    if width == 0 then "" else Padded(n / 10, width - 1) + [DigitOf(n % 10)]
  }

  function IdAt(prefix: string, n: nat): string
  {
    prefix + (Padded(n, TIME_WIDTH) + SUFFIX)
  }

  lemma SuffixIsHex()
    ensures |SUFFIX| == 13 && SUFFIX[0] == '_' && forall i :: 1 <= i < 13 ==> Hex(SUFFIX[i])
  {
  }

  lemma IdIsId(prefix: string, n: nat)
    ensures IsId(prefix, IdAt(prefix, n))
  {
    SuffixIsHex();
    var id, time := IdAt(prefix, n), Padded(n, TIME_WIDTH);
    assert forall i :: 0 <= i < TIME_WIDTH ==> id[|prefix| + i] == time[i];
    assert forall i :: 0 <= i < 13 ==> id[|prefix| + TIME_WIDTH + i] == SUFFIX[i];
    forall i | |prefix| <= i < |prefix| + TIME_WIDTH ensures Digit(id[i]) { assert id[i] == time[i - |prefix|]; }
    forall i | |prefix| + TIME_WIDTH < i < |id| ensures Hex(id[i]) { assert id[i] == SUFFIX[i - |prefix| - TIME_WIDTH]; }
  }

  lemma {:induction false} NotBeforeItself(a: string)
    ensures !Precedes(a, a)
  {
    if a != "" { NotBeforeItself(a[1..]); }
  }

  lemma {:induction false} SameStart(c: string, a: string, b: string)
    ensures Precedes(c + a, c + b) == Precedes(a, b)
  {
    if c == "" {
      assert c + a == a && c + b == b;
    } else {
      assert (c + a)[1..] == c[1..] + a && (c + b)[1..] == c[1..] + b;
      SameStart(c[1..], a, b);
    }
  }

  lemma {:induction false} LongerTails(a: string, b: string, x: string, y: string)
    requires |a| == |b| && Precedes(a, b)
    ensures Precedes(a + x, b + y)
  {
    assert (a + x)[0] == a[0] && (b + y)[0] == b[0];
    if a[0] == b[0] {
      assert (a + x)[1..] == a[1..] + x && (b + y)[1..] == b[1..] + y;
      LongerTails(a[1..], b[1..], x, y);
    }
  }

  function Power(width: nat): nat
  {
    if width == 0 then 1 else 10 * Power(width - 1)
  }

  lemma {:induction false} EarlierTimeFirst(n: nat, m: nat, width: nat)
    requires n < m < Power(width)
    ensures Precedes(Padded(n, width), Padded(m, width))
  {
    var a, b := Padded(n / 10, width - 1), Padded(m / 10, width - 1);
    var x, y := [DigitOf(n % 10)], [DigitOf(m % 10)];
    if n / 10 < m / 10 {
      EarlierTimeFirst(n / 10, m / 10, width - 1);
      LongerTails(a, b, x, y);
    } else {
      assert x[1..] == "" && y[1..] == "";
      SameStart(a, x, y);
    }
  }

  lemma AllTimes()
    ensures Power(TIME_WIDTH) == TIMES
  {
    assert Power(4) == 10000;
    assert Power(8) == 100000000;
  }

  /** Ids of later times come later. */
  lemma EarlierIdFirst(prefix: string, n: nat, m: nat)
    requires n < m < TIMES
    ensures Precedes(IdAt(prefix, n), IdAt(prefix, m))
  {
    AllTimes();
    EarlierTimeFirst(n, m, TIME_WIDTH);
    LongerTails(Padded(n, TIME_WIDTH), Padded(m, TIME_WIDTH), SUFFIX, SUFFIX);
    SameStart(prefix, Padded(n, TIME_WIDTH) + SUFFIX, Padded(m, TIME_WIDTH) + SUFFIX);
  }
}
