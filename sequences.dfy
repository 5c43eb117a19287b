/** Order-preserving selection from a sequence, shared by the filter and the joins. */
module Sequences {

  /** Regrouping a three-part concatenation. */
  lemma AppendAssoc<T>(a: seq<T>, b: seq<T>, c: seq<T>)
    ensures a + b + c == a + (b + c)
  {
  }

  /** Regrouping a four-part concatenation. */
  lemma ConcatAssoc<T>(a: seq<T>, b: seq<T>, c: seq<T>, d: seq<T>)
    ensures (a + b + c) + d == a + (b + c + d)
  {
  }

  /** The elements of `s` that satisfy `p`, in their original order. */
  function Keep<T>(p: T -> bool, s: seq<T>): (r: seq<T>)
    ensures |r| <= |s|
    decreases |s|
  {
    if s == [] then []
    else if p(s[0]) then [s[0]] + Keep(p, s[1..])
    else Keep(p, s[1..])
  }

  /** Selection distributes over concatenation. */
  lemma {:induction false} KeepAppend<T>(p: T -> bool, a: seq<T>, b: seq<T>)
    ensures Keep(p, a + b) == Keep(p, a) + Keep(p, b)
    decreases |a|
  {
    if a == [] {
      assert a + b == b;
    } else {
      assert (a + b)[0] == a[0];
      assert (a + b)[1..] == a[1..] + b;
      KeepAppend(p, a[1..], b);
    }
  }

  /** Everything selected satisfies `p` and comes from `s`. */
  lemma {:induction false} KeepSound<T>(p: T -> bool, s: seq<T>)
    ensures forall x | x in Keep(p, s) :: p(x) && x in s
    decreases |s|
  {
    if s != [] {
      KeepSound(p, s[1..]);
    }
  }

  /** Nothing that satisfies `p` is dropped, and each element keeps its multiplicity. */
  lemma {:induction false} KeepComplete<T>(p: T -> bool, s: seq<T>)
    ensures forall x | p(x) :: multiset(Keep(p, s))[x] == multiset(s)[x]
    ensures forall x | !p(x) :: multiset(Keep(p, s))[x] == 0
    decreases |s|
  {
    if s != [] {
      KeepComplete(p, s[1..]);
      assert s == [s[0]] + s[1..];
    }
  }

  /** If every element satisfies `p`, nothing is dropped. */
  lemma {:induction false} KeepAll<T>(p: T -> bool, s: seq<T>)
    requires forall x | x in s :: p(x)
    ensures Keep(p, s) == s
    decreases |s|
  {
    if s != [] {
      KeepAll(p, s[1..]);
      assert s == [s[0]] + s[1..];
    }
  }
}
