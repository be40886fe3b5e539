/** Splitting and joining strings, shared by the modules that read lines, paths and shell words. */
module Text {

  datatype Option<+T> = None | Some(value: T)

  // ----- Facts about sequences that proofs ask for by name -----

  lemma Assoc<T>(a: seq<T>, b: seq<T>, c: seq<T>)
    ensures a + b + c == a + (b + c)
  {
  }

  lemma DropConcat<T>(a: seq<T>, b: seq<T>, n: nat)
    requires n <= |a|
    ensures (a + b)[n..] == a[n..] + b
  {
  }

  lemma SamePrefix<T>(a: seq<T>, b: seq<T>, n: nat)
    requires n <= |a| && n <= |b| && a[..n] == b[..n]
    ensures forall i :: 0 <= i < n ==> a[i] == b[i]
  {
    assert forall i :: 0 <= i < n ==> a[i] == a[..n][i];
  }

  lemma DropDrop<T>(s: seq<T>, i: nat, n: nat)
    requires i + n <= |s|
    ensures s[i..][n..] == s[i + n..]
  {
  }

  lemma TakeSnoc<T>(s: seq<T>, i: nat)
    requires i < |s|
    ensures s[..i + 1] == s[..i] + [s[i]]
  {
  }

  /** `p` stands in `s` at position `i`. */
  predicate At(s: string, i: nat, p: string)
  {
    i + |p| <= |s| && forall k :: 0 <= k < |p| ==> s[i + k] == p[k]
  }

  lemma AtConcat(s: string, i: nat, p: string, q: string)
    requires At(s, i, p + q)
    ensures At(s, i, p) && At(s, i + |p|, q)
  {
    assert forall k :: 0 <= k < |p| ==> p[k] == (p + q)[k];
    assert forall k :: 0 <= k < |q| ==> q[k] == (p + q)[|p| + k];
  }

  lemma FirstTwo(text: string, k: nat, s: string)
    requires At(text, k, s)
    ensures |s| >= 1 ==> k < |text| && text[k] == s[0]
    ensures |s| >= 2 ==> k + 1 < |text| && text[k + 1] == s[1]
  {
    assert |s| >= 1 ==> text[k + 0] == s[0];
  }

  // ----- The first occurrence of a character -----

  /** The position of the first `c` in `s`, or the length of `s`. */
  function IndexOf(s: string, c: char): (k: nat)
    ensures k <= |s|
  {
    if s == "" || s[0] == c then 0 else 1 + IndexOf(s[1..], c)
  }

  lemma {:induction false} IndexOfSpec(s: string, c: char)
    ensures var k := IndexOf(s, c);
      && (k < |s| ==> s[k] == c) && (forall i :: 0 <= i < k ==> s[i] != c) && (k == |s| <==> c !in s)
  {
    if s != "" && s[0] != c {
      IndexOfSpec(s[1..], c);
      assert forall i :: 1 <= i < |s| ==> s[i] == s[1..][i - 1];
    }
  }

  lemma IndexOfIs(s: string, k: nat, c: char)
    requires k <= |s| && (k < |s| ==> s[k] == c) && forall i :: 0 <= i < k ==> s[i] != c
    ensures IndexOf(s, c) == k
  {
    IndexOfSpec(s, c);
  }

  /** White space and line ends, as the language of the program knows them. */
  predicate Space(c: char)
  {
    || '\t' <= c <= '\r' || c == ' ' || c == '\U{a0}' || c == '\U{1680}' || '\U{2000}' <= c <= '\U{200a}'
    || c == '\U{2028}' || c == '\U{2029}' || c == '\U{202f}' || c == '\U{205f}' || c == '\U{3000}' || c == '\U{feff}'
  }

  // ----- Splitting on a separator -----

  function Join(parts: seq<string>, sep: char): string
  {
    if |parts| == 0 then ""
    else if |parts| == 1 then parts[0]
    else parts[0] + [sep] + Join(parts[1..], sep)
  }

  predicate Free(parts: seq<string>, sep: char)
  {
    forall i :: 0 <= i < |parts| ==> sep !in parts[i]
  }

  function Split(s: string, sep: char): (parts: seq<string>)
    ensures |parts| >= 1
    decreases |s|
  {
    var k := IndexOf(s, sep);
    if k == |s| then [s] else [s[..k]] + Split(s[k + 1..], sep)
  }

  lemma {:induction false} SplitSpec(s: string, sep: char)
    ensures Free(Split(s, sep), sep) && Join(Split(s, sep), sep) == s
    decreases |s|
  {
    var k := IndexOf(s, sep);
    IndexOfSpec(s, sep);
    if k < |s| {
      SplitSpec(s[k + 1..], sep);
      JoinCons(s[..k], Split(s[k + 1..], sep), sep);
      CutAround(s, k);
    }
  }

  lemma JoinCons(x: string, parts: seq<string>, sep: char)
    requires |parts| >= 1
    ensures Join([x] + parts, sep) == x + [sep] + Join(parts, sep)
    ensures sep !in x && Free(parts, sep) ==> Free([x] + parts, sep)
  {
    assert ([x] + parts)[1..] == parts;
  }

  lemma CutAround<T>(s: seq<T>, k: nat)
    requires k < |s|
    ensures s == s[..k] + [s[k]] + s[k + 1..]
  {
  }

  /** Splitting undoes joining when no part holds the separator. */
  lemma {:induction false} SplitOfJoin(parts: seq<string>, sep: char)
    requires |parts| >= 1 && Free(parts, sep)
    ensures Split(Join(parts, sep), sep) == parts
  {
    var s := Join(parts, sep);
    IndexOfIs(s, |parts[0]|, sep);
    if |parts| > 1 {
      var k := |parts[0]|;
      assert s[..k] == parts[0] && s[k + 1..] == Join(parts[1..], sep);
      SplitOfJoin(parts[1..], sep);
    }
  }
}
