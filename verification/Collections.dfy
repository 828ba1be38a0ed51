/** Notions about sequences that several modules share. */
module Collections {

  datatype Option<+T> = None | Some(value: T)

  ghost predicate NoDuplicates<T>(s: seq<T>) {
    forall a, b :: 0 <= a < b < |s| ==> s[a] != s[b]
  }

  function Elements<T(==)>(s: seq<T>): set<T> {
    set x | x in s
  }

  /** An order in which a map or set may be visited: every key once. */
  ghost predicate Lists<T(!new)>(order: seq<T>, keys: set<T>) {
    NoDuplicates(order) && forall x :: x in order <==> x in keys
  }

  /** `std::find` followed by `erase`: the first occurrence goes, if there is one. */
  function Erase<T(==)>(s: seq<T>, x: T): (r: seq<T>)
    ensures x !in s ==> r == s
    ensures x in s ==> |r| == |s| - 1
  {
    if s == [] then []
    else if s[0] == x then s[1..]
    else [s[0]] + Erase(s[1..], x)
  }

  lemma {:induction false} EraseFromDistinct<T>(s: seq<T>, x: T)
    requires NoDuplicates(s)
    ensures NoDuplicates(Erase(s, x)) && x !in Erase(s, x)
    ensures forall k :: 0 <= k < |Erase(s, x)| ==> Erase(s, x)[k] in s
    ensures forall y :: y in Erase(s, x) <==> y in s && y != x
  {
    if s != [] {
      EraseFromDistinct(s[1..], x);
      assert s == [s[0]] + s[1..];
      assert s[0] !in s[1..];
    }
  }

  lemma {:induction false} EraseKeepsOthers<T>(s: seq<T>, x: T)
    ensures forall y :: y != x ==> (y in Erase(s, x) <==> y in s)
  {
    if s != [] {
      EraseKeepsOthers(s[1..], x);
      assert s == [s[0]] + s[1..];
    }
  }

  lemma AppendDistinct<T>(s: seq<T>, x: T)
    requires NoDuplicates(s) && x !in s
    ensures NoDuplicates(s + [x])
  {
  }

  lemma AppendAllDistinct<T>(s: seq<T>, t: seq<T>)
    requires NoDuplicates(s) && NoDuplicates(t) && forall x :: x in t ==> x !in s
    ensures NoDuplicates(s + t)
  {
    forall a, b | 0 <= a < b < |s + t| ensures (s + t)[a] != (s + t)[b] {
      if a < |s| <= b { assert t[b - |s|] in t; }
    }
  }
}
