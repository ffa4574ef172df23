/** Facts about finite sequences that several parts of the model share. */
module Sequences {

  /** The concatenation of a list of byte strings, built from the left. */
  function Flatten<T>(xss: seq<seq<T>>): seq<T> {
    if xss == [] then [] else Flatten(xss[..|xss| - 1]) + xss[|xss| - 1]
  }

  lemma FlattenSnoc<T>(xss: seq<seq<T>>, x: seq<T>)
    ensures Flatten(xss + [x]) == Flatten(xss) + x
  {
    assert (xss + [x])[..|xss|] == xss;
  }

  lemma {:induction false} FlattenConcat<T>(a: seq<seq<T>>, b: seq<seq<T>>)
    ensures Flatten(a + b) == Flatten(a) + Flatten(b)
  {
    if b == [] {
      assert a + b == a;
    } else {
      FlattenConcat(a, b[..|b| - 1]);
      assert (a + b)[..|a + b| - 1] == a + b[..|b| - 1];
    }
  }

  /** A shorter list of pieces flattens to a prefix of the whole. */
  lemma {:induction false} FlattenPrefix<T>(xss: seq<seq<T>>, i: nat, j: nat)
    requires i <= j <= |xss|
    ensures Flatten(xss[..i]) <= Flatten(xss[..j])
  {
    if i < j {
      FlattenPrefix(xss, i, j - 1);
      assert xss[..j][..j - 1] == xss[..j - 1];
    }
  }

  function Elements(s: seq<int>): set<int> {
    set x | x in s
  }

  ghost predicate Distinct(s: seq<int>) {
    forall i, j :: 0 <= i < j < |s| ==> s[i] != s[j]
  }

  lemma {:induction false} ElementsSize(s: seq<int>)
    ensures |Elements(s)| <= |s|
    ensures Distinct(s) ==> |Elements(s)| == |s|
  {
    if s != [] {
      var init, last := s[..|s| - 1], s[|s| - 1];
      ElementsSize(init);
      assert Elements(s) == Elements(init) + {last};
      if Distinct(s) {
        assert last !in Elements(init);
      }
    }
  }

  lemma SubsetSize(a: set<int>, b: set<int>)
    requires a <= b
    ensures |a| <= |b|
  {
    assert b == a + (b - a);
  }

  /** A sequence longer than the set its elements come from repeats one of them. */
  lemma Pigeonhole(s: seq<int>, nodes: seq<int>) returns (i: nat, j: nat)
    requires |nodes| < |s|
    requires forall x :: x in s ==> x in nodes
    ensures i < j < |s| && s[i] == s[j]
  {
    if Distinct(s) {
      ElementsSize(s);
      ElementsSize(nodes);
      forall x | x in Elements(s)
        ensures x in Elements(nodes)
      {
        assert x in s;
      }
      SubsetSize(Elements(s), Elements(nodes));
      assert false;
    }
    i, j :| 0 <= i < j < |s| && s[i] == s[j];
  }
}
