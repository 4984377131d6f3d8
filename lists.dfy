/** Python list operations shared by the university classes and the analyzer. */
module Lists {

  /** No element occurs twice. */
  predicate Distinct<T(==)>(s: seq<T>) {
    forall i, j :: 0 <= i < j < |s| ==> s[i] != s[j]
  }

  /** `len(s) != len(set(s))`: some element occurs twice. */
  predicate HasRepeat<T(==)>(s: seq<T>) {
    |s| != |set x | x in s|
  }

  /** The set of a list is never larger than the list, and as large exactly when no element repeats. */
  lemma {:induction false} SetSize<T>(s: seq<T>)
    ensures |set x | x in s| <= |s|
    ensures |set x | x in s| == |s| <==> Distinct(s)
    decreases |s|
  {
    if s != [] {
      SetSize(s[1..]);
      var rest := set x | x in s[1..];
      assert (set x | x in s) == {s[0]} + rest;
      if s[0] in rest {
        assert (set x | x in s) == rest;
        var k :| 0 <= k < |s[1..]| && s[1..][k] == s[0];
        assert s[0] == s[k + 1];
      } else {
        assert Distinct(s) <==> Distinct(s[1..]) by {
          if Distinct(s[1..]) {
            forall i, j | 0 <= i < j < |s| ensures s[i] != s[j] {
              if i == 0 {
                assert s[j] == s[1..][j - 1];
              } else {
                assert s[i] == s[1..][i - 1] && s[j] == s[1..][j - 1];
              }
            }
          }
        }
      }
    }
  }

  /** `HasRepeat` holds exactly when two positions hold the same element. */
  lemma RepeatIffNotDistinct<T>(s: seq<T>)
    ensures HasRepeat(s) <==> !Distinct(s)
  {
    SetSize(s);
  }

  /** `xs.remove(x)` guarded by `x in xs`: the first occurrence of `x` goes, if there is one. */
  function RemoveFirst<T(==)>(xs: seq<T>, x: T): (r: seq<T>)
    ensures |r| == if x in xs then |xs| - 1 else |xs|
  {
    if xs == [] then []
    else if xs[0] == x then xs[1..]
    else [xs[0]] + RemoveFirst(xs[1..], x)
  }

  /** With `x` first found at `i`, removal cuts out position `i` and keeps everything else in order. */
  lemma {:induction false} RemoveFirstAt<T>(xs: seq<T>, x: T, i: nat)
    requires i < |xs| && xs[i] == x && x !in xs[..i]
    ensures RemoveFirst(xs, x) == xs[..i] + xs[i + 1..]
  {
    if i > 0 {
      assert xs[0] in xs[..i];
      assert xs[1..][i - 1] == x && xs[1..][..i - 1] == xs[..i][1..];
      RemoveFirstAt(xs[1..], x, i - 1);
      assert xs[..i] == [xs[0]] + xs[1..][..i - 1];
      assert xs[i + 1..] == xs[1..][i..];
    }
  }

  /** Removing an absent element changes nothing. */
  lemma {:induction false} RemoveFirstAbsent<T>(xs: seq<T>, x: T)
    requires x !in xs
    ensures RemoveFirst(xs, x) == xs
  {
    if xs != [] {
      assert x !in xs[1..];
      RemoveFirstAbsent(xs[1..], x);
    }
  }

  /** Removal takes exactly one copy of `x` out of the list's multiset, when there is one. */
  lemma {:induction false} RemoveFirstMultiset<T>(xs: seq<T>, x: T)
    ensures multiset(RemoveFirst(xs, x)) == multiset(xs) - multiset{x}
  {
    if xs != [] {
      assert xs == [xs[0]] + xs[1..];
      if xs[0] != x {
        RemoveFirstMultiset(xs[1..], x);
      }
    }
  }

  /** The position of the first `x` in `s`, or `|s|` when there is none: what a linear search stops at. */
  function IndexOf<T(==)>(s: seq<T>, x: T): (r: nat)
    ensures r <= |s|
    ensures r < |s| ==> s[r] == x
    ensures forall i :: 0 <= i < r ==> s[i] != x
    ensures r == |s| <==> x !in s
  {
    if s == [] then 0 else if s[0] == x then 0 else 1 + IndexOf(s[1..], x)
  }

  /** Appending an absent element keeps a list duplicate-free. */
  lemma AppendAbsent<T>(s: seq<T>, x: T)
    requires Distinct(s) && x !in s
    ensures Distinct(s + [x])
  {
    forall i, j | 0 <= i < j < |s + [x]| ensures (s + [x])[i] != (s + [x])[j] {
      if j == |s| {
        assert (s + [x])[i] == s[i];
      }
    }
  }

  /** In a duplicate-free list the search for an element stops at its own position. */
  lemma IndexOfDistinct<T>(s: seq<T>, i: nat)
    requires Distinct(s) && i < |s|
    ensures IndexOf(s, s[i]) == i
  {
  }

  /** A non-empty list is its front followed by its last element. */
  lemma FrontLast<T>(s: seq<T>)
    requires s != []
    ensures s[..|s| - 1] + [s[|s| - 1]] == s
  {
  }
}
