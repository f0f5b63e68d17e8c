/** Small shared vocabulary: options, element sets, counting and filtering of sequences. */
module Basics {

  datatype Option<+T> = None | Some(value: T)

  /** The set of values a sequence holds. */
  function Elems<T>(s: seq<T>): set<T> {
    set x | x in s
  }

  /** How many entries satisfy p. */
  function Count<T>(s: seq<T>, p: T -> bool): nat {
    if s == [] then 0
    else Count(s[..|s| - 1], p) + if p(s[|s| - 1]) then 1 else 0
  }

  /** The entries that satisfy p, in order. */
  function Filter<T>(s: seq<T>, p: T -> bool): seq<T> {
    if s == [] then []
    else Filter(s[..|s| - 1], p) + if p(s[|s| - 1]) then [s[|s| - 1]] else []
  }

  ghost predicate IsSuffix<T>(a: seq<T>, b: seq<T>) {
    |a| <= |b| && b[|b| - |a|..] == a
  }

  ghost predicate Distinct<T>(s: seq<T>) {
    forall i, j :: 0 <= i < j < |s| ==> s[i] != s[j]
  }

  lemma CountSnoc<T>(s: seq<T>, x: T, p: T -> bool)
    ensures Count(s + [x], p) == Count(s, p) + if p(x) then 1 else 0
  {
    assert (s + [x])[..|s + [x]| - 1] == s;
  }

  lemma {:induction false} CountConcat<T>(s: seq<T>, t: seq<T>, p: T -> bool)
    ensures Count(s + t, p) == Count(s, p) + Count(t, p)
  {
    if t == [] {
      assert s + t == s;
    } else {
      var init, last := t[..|t| - 1], t[|t| - 1];
      assert s + t == (s + init) + [last] && t == init + [last];
      CountSnoc(s + init, last, p);
      CountConcat(s, init, p);
    }
  }

  lemma FilterSnoc<T>(s: seq<T>, x: T, p: T -> bool)
    ensures Filter(s + [x], p) == Filter(s, p) + if p(x) then [x] else []
  {
    assert (s + [x])[..|s + [x]| - 1] == s;
  }

  lemma {:induction false} FilterConcat<T>(s: seq<T>, t: seq<T>, p: T -> bool)
    ensures Filter(s + t, p) == Filter(s, p) + Filter(t, p)
  {
    if t == [] {
      assert s + t == s;
    } else {
      var init, last := t[..|t| - 1], t[|t| - 1];
      assert s + t == (s + init) + [last] && t == init + [last];
      FilterSnoc(s + init, last, p);
      FilterConcat(s, init, p);
    }
  }

  lemma {:induction false} FilterMembers<T>(s: seq<T>, p: T -> bool)
    ensures forall x :: x in Filter(s, p) <==> x in s && p(x)
  {
    if s != [] {
      var init, last := s[..|s| - 1], s[|s| - 1];
      assert s == init + [last];
      FilterMembers(init, p);
    }
  }

  /** Counting entries by a name no two counted entries share is the size of the set of those names. */
  lemma {:induction false} CountByName<T, U(!new)>(s: seq<T>, p: T -> bool, f: T -> U, names: set<U>)
    requires forall i, j :: 0 <= i < j < |s| && p(s[i]) && p(s[j]) ==> f(s[i]) != f(s[j])
    requires forall i :: 0 <= i < |s| && p(s[i]) ==> f(s[i]) in names
    requires forall u :: u in names ==> exists i :: 0 <= i < |s| && p(s[i]) && f(s[i]) == u
    ensures Count(s, p) == |names|
  {
    if s == [] {
      assert names == {};
    } else {
      var init, last := s[..|s| - 1], s[|s| - 1];
      var rest := if p(last) then names - {f(last)} else names;
      forall u | u in rest
        ensures exists i :: 0 <= i < |init| && p(init[i]) && f(init[i]) == u
      {
        var i :| 0 <= i < |s| && p(s[i]) && f(s[i]) == u;
        assert init[i] == s[i];
      }
      CountByName(init, p, f, rest);
      assert p(last) ==> names == rest + {f(last)};
    }
  }
}
