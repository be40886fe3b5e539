/** The bounded brace expander of the claim reader. */
module Braces {
  import opened Text

  const BUDGET := 256
  const MAX_SAFE_INTEGER := 9007199254740991

  // ----- Finding the closing brace and the top-level commas -----

  /** Where the brace that closes the given depth stands at or after position `i`, or -1. */
  function CloseFrom(s: string, i: nat, depth: nat): (close: int)
    requires i <= |s| && depth >= 1
    ensures close == -1 || (i <= close < |s| && s[close] == '}')
    decreases |s| - i
  {
    if i == |s| then -1
    else if s[i] == '{' then CloseFrom(s, i + 1, depth + 1)
    else if s[i] != '}' then CloseFrom(s, i + 1, depth)
    else if depth == 1 then i
    else CloseFrom(s, i + 1, depth - 1)
  }

  method MatchingBrace(text: string, open: nat) returns (close: int)
    requires open < |text| && text[open] == '{'
    ensures close == CloseFrom(text, open + 1, 1)
  {
    var depth := 0;
    for i := open to |text|
      invariant i > open ==> depth >= 1 && CloseFrom(text, i, depth) == CloseFrom(text, open + 1, 1)
      invariant i == open ==> depth == 0
    {
      if text[i] == '{' {
        depth := depth + 1;
      } else if text[i] == '}' {
        depth := depth - 1;
        if depth == 0 {
          return i;
        }
      }
    }
    close := -1;
  }

  function PartsFrom(content: string, depth: int, current: string): (parts: seq<string>)
    ensures |parts| >= 1
    decreases |content|
  {
    if content == "" then [current] else
    var c := content[0];
    var d := if c == '{' then depth + 1 else if c == '}' then depth - 1 else depth;
    if c == ',' && d == 0 then [current] + PartsFrom(content[1..], d, "")
    else PartsFrom(content[1..], d, current + [c])
  }

  method TopLevelParts(content: string) returns (parts: seq<string>)
    ensures parts == PartsFrom(content, 0, "")
  {
    parts := [];
    var depth, current := 0, "";
    assert content[0..] == content;
    for i := 0 to |content|
      invariant parts + PartsFrom(content[i..], depth, current) == PartsFrom(content, 0, "")
    {
      var ch := content[i];
      assert content[i..][1..] == content[i + 1..];
      if ch == '{' {
        depth := depth + 1;
      } else if ch == '}' {
        depth := depth - 1;
      }
      if ch == ',' && depth == 0 {
        Assoc(parts, [current], PartsFrom(content[i + 1..], depth, ""));
        parts := parts + [current];
        current := "";
      } else {
        current := current + [ch];
      }
    }
    parts := parts + [current];
  }

  // ----- Ranges -----

  predicate Digit(c: char) { '0' <= c <= '9' }

  predicate Letter(c: char) { 'A' <= c <= 'Z' || 'a' <= c <= 'z' }

  /** The longest run of digits at the head of `s`. */
  function DigitRun(s: string): (n: nat)
    ensures n <= |s| && forall i :: 0 <= i < n ==> Digit(s[i])
  {
    if s != "" && Digit(s[0]) then 1 + DigitRun(s[1..]) else 0
  }

  function ValueOf(digits: string): nat
    requires forall i :: 0 <= i < |digits| ==> Digit(digits[i])
  {
    if digits == "" then 0 else
    var last := digits[|digits| - 1];
    assert Digit(last);
    10 * ValueOf(digits[..|digits| - 1]) + (last - '0') as int
  }

  function Decimal(n: nat): (s: string)
    ensures forall i :: 0 <= i < |s| ==> Digit(s[i])
  {
    var d := ['0' + (n % 10) as char];
    if n < 10 then d else Decimal(n / 10) + d
  }

  function PadStart(s: string, width: nat): (r: string)
    requires forall i :: 0 <= i < |s| ==> Digit(s[i])
    ensures forall i :: 0 <= i < |r| ==> Digit(r[i])
    decreases width - |s|
  {
    if |s| >= width then s else PadStart("0" + s, width)
  }

  datatype Number = Number(negative: bool, digits: string) {
    predicate Valid() { forall i :: 0 <= i < |digits| ==> Digit(digits[i]) }

    function Value(): int
      requires Valid()
    {
      var n: int := ValueOf(digits);
      if negative then -n else n
    }

    predicate Padded() { |digits| >= 2 && digits[0] == '0' }
  }

  /** A signed decimal at the head of `s`, with the text after it. */
  function ReadNumber(s: string): (r: Option<(Number, string)>)
    ensures r.Some? ==> r.value.0.Valid()
  {
    var negative := s != "" && s[0] == '-';
    var t := if negative then s[1..] else s;
    var n := DigitRun(t);
    if n == 0 then None else Some((Number(negative, t[..n]), t[n..]))
  }

  function Abs(n: int): nat { if n < 0 then -n else n }

  function NumberItems(from: int, to: int, width: nat): (items: seq<string>)
    ensures forall i :: 0 <= i < |items| ==> '{' !in items[i]
    decreases Abs(to - from)
  {
    var item := (if from < 0 then "-" else "") + PadStart(Decimal(Abs(from)), width);
    if from == to then [item] else [item] + NumberItems(if from < to then from + 1 else from - 1, to, width)
  }

  lemma NumberItemsStep(items: seq<string>, value: int, next: int, to: int, width: nat, item: string)
    requires item == (if value < 0 then "-" else "") + PadStart(Decimal(Abs(value)), width)
    requires value != to ==> next == if value < to then value + 1 else value - 1
    ensures items + NumberItems(value, to, width) == items + [item] + if value == to then [] else NumberItems(next, to, width)
  {
  }

  /** The loop over the numbers of a range. */
  method NumberRange(from: int, to: int, width: nat) returns (items: seq<string>)
    ensures items == NumberItems(from, to, width)
  {
    items := [];
    ghost var all := NumberItems(from, to, width);
    var value, step := from, if from <= to then 1 else -1;
    while true
      invariant if step == 1 then value <= to else value >= to
      invariant step == -1 || step == 1
      invariant items + NumberItems(value, to, width) == all
      decreases Abs(to - value)
    {
      var item := (if value < 0 then "-" else "") + PadStart(Decimal(Abs(value)), width);
      NumberItemsStep(items, value, value + step, to, width, item);
      items := items + [item];
      if value == to { return; }
      value := value + step;
    }
  }

  function LetterItems(from: int, to: int): (items: seq<string>)
    requires 'A' as int <= from <= 'z' as int && 'A' as int <= to <= 'z' as int
    ensures forall i :: 0 <= i < |items| ==> '{' !in items[i]
    decreases Abs(to - from)
  {
    var item := [from as char];
    if from == to then [item] else [item] + LetterItems(if from < to then from + 1 else from - 1, to)
  }

  /** The loop over the letters of a range. */
  method LetterRange(from: int, to: int) returns (items: seq<string>)
    requires 'A' as int <= from <= 'z' as int && 'A' as int <= to <= 'z' as int
    ensures items == LetterItems(from, to)
  {
    items := [];
    var code, step := from, if from <= to then 1 else -1;
    while true
      invariant if step == 1 then from <= code <= to else from >= code >= to
      invariant step == -1 || step == 1
      invariant items + LetterItems(code, to) == LetterItems(from, to)
      decreases Abs(to - code)
    {
      var item := [code as char];
      if code != to { Assoc(items, [item], LetterItems(code + step, to)); }
      items := items + [item];
      if code == to { return; }
      code := code + step;
    }
  }

  datatype Range = NoRange | Refused | Items(items: seq<string>)

  function Max(a: nat, b: nat): nat { if a < b then b else a }

  function RangeItems(content: string): (r: Range)
    ensures r.Items? ==> forall i :: 0 <= i < |r.items| ==> '{' !in r.items[i]
  {
    var a := ReadNumber(content);
    var b := if a.Some? && ".." <= a.value.1 then ReadNumber(a.value.1[2..]) else None;
    if b.Some? && b.value.1 == "" then
      var (x, y) := (a.value.0, b.value.0);
      if Abs(x.Value()) > MAX_SAFE_INTEGER || Abs(y.Value()) > MAX_SAFE_INTEGER then Refused
      else if Abs(y.Value() - x.Value()) + 1 > BUDGET then Refused
      else Items(NumberItems(x.Value(), y.Value(),
                             if x.Padded() || y.Padded() then Max(|x.digits|, |y.digits|) else 0))
    else if |content| == 4 && Letter(content[0]) && content[1..3] == ".." && Letter(content[3]) then
      Items(LetterItems(content[0] as int, content[3] as int))
    else NoRange
  }

  method ReadRange(content: string) returns (r: Range)
    ensures r == RangeItems(content)
  {
    var a := ReadNumber(content);
    var b := if a.Some? && ".." <= a.value.1 then ReadNumber(a.value.1[2..]) else None;
    if b.Some? && b.value.1 == "" {
      var x, y := a.value.0, b.value.0;
      var from, to := x.Value(), y.Value();
      if Abs(from) > MAX_SAFE_INTEGER || Abs(to) > MAX_SAFE_INTEGER { return Refused; }
      if Abs(to - from) + 1 > BUDGET { return Refused; }
      var items := NumberRange(from, to, if x.Padded() || y.Padded() then Max(|x.digits|, |y.digits|) else 0);
      return Items(items);
    }
    if |content| == 4 && Letter(content[0]) && content[1..3] == ".." && Letter(content[3]) {
      var items := LetterRange(content[0] as int, content[3] as int);
      return Items(items);
    }
    r := NoRange;
  }

  predicate HasDots(content: string)
  {
    exists i :: 0 <= i < |content| - 1 && content[i] == '.' && content[i + 1] == '.'
  }

  // ----- Expansion -----

  /** How many braces open in a text: what every expansion step makes smaller. */
  function Opens(text: string): nat { multiset(text)['{'] }

  datatype Alternatives = Literal | Unbounded | Choices(parts: seq<string>)

  /** What the text between a pair of braces stands for. */
  function AlternativesOf(content: string): (r: Alternatives)
    ensures r.Choices? ==> forall i :: 0 <= i < |r.parts| ==> Opens(r.parts[i]) <= Opens(content)
  {
    var parts := PartsFrom(content, 0, "");
    PartsOpen(content, 0, "");
    if |parts| > 1 then Choices(parts) else
    match RangeItems(content)
    case Refused => Unbounded
    case Items(items) => Choices(items)
    case NoRange => if HasDots(content) then Unbounded else Literal
  }

  lemma {:induction false} PartsOpen(content: string, depth: int, current: string)
    ensures forall part :: part in PartsFrom(content, depth, current) ==> Opens(part) <= Opens(current) + Opens(content)
    decreases |content|
  {
    if content != "" {
      var c := content[0];
      var d := if c == '{' then depth + 1 else if c == '}' then depth - 1 else depth;
      assert content == [c] + content[1..];
      PartsOpen(content[1..], d, if c == ',' && d == 0 then "" else current + [c]);
    }
  }

  lemma SplitOpens(text: string, i: nat, close: nat, alternative: string)
    requires i < close < |text| && text[i] == '{'
    requires Opens(alternative) <= Opens(text[i + 1..close])
    ensures Opens(text[..i] + alternative + text[close + 1..]) < Opens(text)
  {
    assert text == text[..i] + ['{'] + text[i + 1..close] + [text[close]] + text[close + 1..];
  }

  lemma ChoicesShrink(text: string, i: nat, close: nat, parts: seq<string>)
    requires i < close < |text| && text[i] == '{'
    requires forall k :: 0 <= k < |parts| ==> Opens(parts[k]) <= Opens(text[i + 1..close])
    ensures forall k :: 0 <= k < |parts| ==> Opens(text[..i] + parts[k] + text[close + 1..]) < Opens(text)
  {
    forall k | 0 <= k < |parts| ensures Opens(text[..i] + parts[k] + text[close + 1..]) < Opens(text) {
      SplitOpens(text, i, close, parts[k]);
    }
  }

  /** The expansion of `text` from position `i` on, appended to `members`; false when the budget is exceeded. */
  function ExpandFrom(text: string, i: nat, members: seq<string>): (bool, seq<string>)
    requires i <= |text|
    decreases Opens(text), 1, |text| - i
  {
    if i == |text| then (|members| < BUDGET, members + [text])
    else if text[i] != '{' then ExpandFrom(text, i + 1, members)
    else
      var close := CloseFrom(text, i + 1, 1);
      if close == -1 then (|members| < BUDGET, members + [text]) else
      match AlternativesOf(text[i + 1..close])
      case Literal => ExpandFrom(text, i + 1, members)
      case Unbounded => (false, members)
      case Choices(parts) =>
        ChoicesShrink(text, i, close, parts);
        ExpandEach(text[..i], parts, text[close + 1..], members, Opens(text))
  }

  /** Braces that mean nothing are passed over. */
  lemma ExpandLiteral(text: string, i: nat, close: nat, inside: string, members: seq<string>)
    requires i < close < |text| && text[i] == '{' && CloseFrom(text, i + 1, 1) == close
    requires text[i + 1..close] == inside && AlternativesOf(inside) == Literal
    ensures ExpandFrom(text, i, members) == ExpandFrom(text, i + 1, members)
  {
  }

  lemma ExpandUnclosed(text: string, i: nat, members: seq<string>)
    requires i < |text| && text[i] == '{' && CloseFrom(text, i + 1, 1) == -1
    ensures ExpandFrom(text, i, members) == (|members| < BUDGET, members + [text])
  {
  }

  lemma ExpandUnbounded(text: string, i: nat, close: nat, inside: string, members: seq<string>)
    requires i < close < |text| && text[i] == '{' && CloseFrom(text, i + 1, 1) == close
    requires text[i + 1..close] == inside && AlternativesOf(inside) == Unbounded
    ensures ExpandFrom(text, i, members) == (false, members)
  {
  }

  lemma ExpandChoices(text: string, i: nat, close: nat, pre: string, parts: seq<string>, tail: string, members: seq<string>)
    requires i < close < |text| && text[i] == '{' && CloseFrom(text, i + 1, 1) == close
    requires text[..i] == pre && text[close + 1..] == tail && AlternativesOf(text[i + 1..close]) == Choices(parts)
    ensures forall k :: 0 <= k < |parts| ==> Opens(pre + parts[k] + tail) < Opens(text)
    ensures ExpandFrom(text, i, members) == ExpandEach(pre, parts, tail, members, Opens(text))
  {
    ChoicesShrink(text, i, close, parts);
  }

  function ExpandEach(prefix: string, parts: seq<string>, suffix: string, members: seq<string>, opens: nat): (bool, seq<string>)
    requires forall k :: 0 <= k < |parts| ==> Opens(prefix + parts[k] + suffix) < opens
    decreases opens, 0, |parts|
  {
    if parts == [] then (true, members) else
    var (ok, more) := ExpandFrom(prefix + parts[0] + suffix, |prefix|, members);
    if !ok || |more| > BUDGET then (false, more)
    else ExpandEach(prefix, parts[1..], suffix, more, opens)
  }

  /** The expander fills one list of members across its recursive calls. */
  class Expander {
    var members: seq<string>

    constructor ()
      ensures members == []
    {
      members := [];
    }

    method ExpandInto(text: string, from: nat) returns (ok: bool)
      requires from <= |text|
      modifies this
      ensures (ok, members) == ExpandFrom(text, from, old(members))
      decreases Opens(text), 1
    {
      var i := from;
      while i < |text|
        invariant from <= i <= |text| && members == old(members)
        invariant ExpandFrom(text, i, members) == ExpandFrom(text, from, members)
      {
        if text[i] == '{' {
          var close := MatchingBrace(text, i);
          if close < 0 {
            break;
          }
          var content := text[i + 1..close];
          var parts := TopLevelParts(content);
          var alternatives := Choices(parts);
          if |parts| <= 1 {
            var range := ReadRange(content);
            if range.Refused? || (range.NoRange? && HasDots(content)) {
              return false;
            }
            alternatives := if range.Items? then Choices(range.items) else Literal;
          }
          if alternatives.Choices? {
            ChoicesShrink(text, i, close, alternatives.parts);
            ok := ExpandAlternatives(text[..i], alternatives.parts, text[close + 1..], Opens(text));
            return;
          }
        }
        i := i + 1;
      }
      members := members + [text];
      ok := |members| <= BUDGET;
    }

    method ExpandAlternatives(prefix: string, parts: seq<string>, suffix: string, ghost opens: nat) returns (ok: bool)
      requires forall k :: 0 <= k < |parts| ==> Opens(prefix + parts[k] + suffix) < opens
      modifies this
      ensures (ok, members) == ExpandEach(prefix, parts, suffix, old(members), opens)
      decreases opens, 0
    {
      assert parts[0..] == parts;
      for k := 0 to |parts|
        invariant ExpandEach(prefix, parts[k..], suffix, members, opens)
               == ExpandEach(prefix, parts, suffix, old(members), opens)
      {
        assert parts[k..][1..] == parts[k + 1..];
        ok := ExpandInto(prefix + parts[k] + suffix, |prefix|);
        if !ok || |members| > BUDGET {
          return false;
        }
      }
      ok := true;
    }
  }

  function ExpandBraces(token: string): Option<seq<string>>
  {
    var (ok, members) := ExpandFrom(token, 0, []);
    if ok then Some(members) else None
  }

  method ExpandToken(token: string) returns (r: Option<seq<string>>)
    ensures r == ExpandBraces(token)
  {
    var expander := new Expander();
    var ok := expander.ExpandInto(token, 0);
    r := if ok then Some(expander.members) else None;
  }
}
