/** Filtering a log and finding the newest entry with a property. */
module Logs {
  import opened Text

  function Select<T>(s: seq<T>, p: T -> bool): seq<T>
  {
    if s == [] then [] else (if p(s[0]) then [s[0]] else []) + Select(s[1..], p)
  }

  /** The last element with the property. */
  function Newest<T>(s: seq<T>, p: T -> bool): Option<T>
  {
    if s == [] then None
    else
      var later := Newest(s[1..], p);
      if later.Some? then later else if p(s[0]) then Some(s[0]) else None
  }

  /** `e` is at `i` and has the property, and nothing after `i` has it. */
  ghost predicate IsNewest<T>(s: seq<T>, p: T -> bool, i: nat, e: T)
  {
    i < |s| && s[i] == e && p(e) && forall j :: i < j < |s| ==> !p(s[j])
  }

  lemma {:induction false} NewestAt<T>(s: seq<T>, p: T -> bool)
    ensures Newest(s, p).None? <==> forall j :: 0 <= j < |s| ==> !p(s[j])
    ensures forall e :: Newest(s, p) == Some(e) <==> exists i: nat :: IsNewest(s, p, i, e)
  {
    if s != [] {
      var rest := s[1..];
      NewestAt(rest, p);
      assert forall j :: 1 <= j < |s| ==> s[j] == rest[j - 1];
      forall e ensures Newest(s, p) == Some(e) <==> exists i: nat :: IsNewest(s, p, i, e) {
        NewestOfCons(s, rest, p, e);
      }
    }
  }

  lemma NewestOfCons<T>(s: seq<T>, rest: seq<T>, p: T -> bool, e: T)
    requires s != [] && rest == s[1..]
    requires Newest(rest, p).None? <==> forall j :: 0 <= j < |rest| ==> !p(rest[j])
    requires Newest(rest, p) == Some(e) <==> exists i: nat :: IsNewest(rest, p, i, e)
    ensures Newest(s, p) == Some(e) <==> exists i: nat :: IsNewest(s, p, i, e)
  {
    assert forall j :: 1 <= j < |s| ==> s[j] == rest[j - 1];
    assert forall j :: 0 <= j < |rest| ==> rest[j] == s[j + 1];
    if i: nat :| IsNewest(rest, p, i, e) {
      assert IsNewest(s, p, i + 1, e);
    }
    if Newest(s, p) == Some(e) && Newest(rest, p).None? {
      assert IsNewest(s, p, 0, e);
    }
    if i: nat :| IsNewest(s, p, i, e) {
      if i > 0 { assert IsNewest(rest, p, i - 1, e); }
    }
  }

  lemma {:induction false} NewestSnoc<T>(s: seq<T>, x: T, p: T -> bool)
    ensures Newest(s + [x], p) == if p(x) then Some(x) else Newest(s, p)
  {
    if s == [] {
      assert s + [x] == [x];
    } else {
      assert (s + [x])[1..] == s[1..] + [x];
      NewestSnoc(s[1..], x, p);
    }
  }

  lemma {:induction false} SelectSnoc<T>(s: seq<T>, x: T, p: T -> bool)
    ensures Select(s + [x], p) == Select(s, p) + if p(x) then [x] else []
  {
    if s == [] {
      assert s + [x] == [x];
    } else {
      assert (s + [x])[1..] == s[1..] + [x];
      SelectSnoc(s[1..], x, p);
      Assoc(if p(s[0]) then [s[0]] else [], Select(s[1..], p), if p(x) then [x] else []);
    }
  }

  lemma {:induction false} SelectSelect<T>(s: seq<T>, p: T -> bool, q: T -> bool, both: T -> bool)
    requires forall e :: both(e) <==> p(e) && q(e)
    ensures Select(Select(s, p), q) == Select(s, both)
    ensures Newest(Select(s, p), q) == Newest(s, both)
  {
    if s != [] {
      SelectSelect(s[1..], p, q, both);
      if p(s[0]) {
        assert ([s[0]] + Select(s[1..], p))[1..] == Select(s[1..], p);
      } else {
        assert [] + Select(s[1..], p) == Select(s[1..], p);
      }
    }
  }

  /** The last element that passes a filter is the newest with its property. */
  lemma {:induction false} LastIsNewest<T>(s: seq<T>, p: T -> bool)
    ensures Select(s, p) == [] <==> Newest(s, p).None?
    ensures Select(s, p) != [] ==> Newest(s, p) == Some(Select(s, p)[|Select(s, p)| - 1])
  {
    if s != [] { LastIsNewest(s[1..], p); }
  }

  lemma {:induction false} SelectMembers<T>(s: seq<T>, p: T -> bool)
    ensures forall e :: e in Select(s, p) <==> e in s && p(e)
  {
    if s != [] {
      SelectMembers(s[1..], p);
      assert s == [s[0]] + s[1..];
    }
  }

  lemma NewestHas<T>(s: seq<T>, p: T -> bool)
    ensures Newest(s, p).Some? ==> p(Newest(s, p).value) && Newest(s, p).value in s
  {
    LastIsNewest(s, p);
    SelectMembers(s, p);
  }

  lemma {:induction false} NewestNarrower<T>(s: seq<T>, p: T -> bool, q: T -> bool)
    requires forall e :: q(e) ==> p(e)
    ensures Newest(s, p).None? ==> Newest(s, q).None?
    ensures Newest(s, p).Some? && q(Newest(s, p).value) ==> Newest(s, q) == Newest(s, p)
  {
    if s != [] { NewestNarrower(s[1..], p, q); }
  }

  // ----- In the order of first appearance -----

  /** Every element once, where it appears first. */
  function FirstSeen<T(==)>(s: seq<T>): seq<T>
  {
    if s == [] then []
    else
      var before, last := FirstSeen(s[..|s| - 1]), s[|s| - 1];
      if last in before then before else before + [last]
  }

  /** `a` appears before the first `b`. */
  ghost predicate SeenBefore<T>(s: seq<T>, a: T, b: T)
  {
    exists p :: 0 <= p < |s| && s[p] == a && forall q :: 0 <= q <= p ==> s[q] != b
  }

  lemma {:induction false} FirstSeenMembers<T>(s: seq<T>, x: T)
    ensures x in FirstSeen(s) <==> x in s
  {
    if s != [] {
      FirstSeenMembers(s[..|s| - 1], x);
      assert s == s[..|s| - 1] + [s[|s| - 1]];
    }
  }

  lemma {:induction false} FirstSeenOrder<T>(s: seq<T>, i: nat, j: nat)
    requires i < j < |FirstSeen(s)|
    ensures SeenBefore(s, FirstSeen(s)[i], FirstSeen(s)[j])
  {
    var rest, last := s[..|s| - 1], s[|s| - 1];
    var before, all := FirstSeen(rest), FirstSeen(s);
    if j < |before| {
      FirstSeenOrder(rest, i, j);
      SeenStays(s, rest, before[i], before[j]);
    } else {
      FirstSeenMembers(rest, before[i]);
      FirstSeenMembers(rest, last);
      var p :| 0 <= p < |rest| && rest[p] == before[i];
      forall q | 0 <= q <= p ensures s[q] != all[j] { assert s[q] == rest[q] && rest[q] in rest; }
      assert s[p] == all[i];
    }
  }

  lemma SeenStays<T>(s: seq<T>, rest: seq<T>, a: T, b: T)
    requires s != [] && rest == s[..|s| - 1] && SeenBefore(rest, a, b)
    ensures SeenBefore(s, a, b)
  {
    var p :| 0 <= p < |rest| && rest[p] == a && forall q :: 0 <= q <= p ==> rest[q] != b;
    assert s[p] == a && forall q :: 0 <= q <= p ==> s[q] == rest[q];
  }
}
