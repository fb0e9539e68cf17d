/** Which relay lists the program takes for the same: the comparison of sorted copies. */
module RelaySets {
  import opened TextOrder

  function InsertText(sorted: seq<string>, x: string): seq<string> {
    if sorted == [] || NotAfter(sorted[|sorted| - 1], x) then sorted + [x]
    else InsertText(sorted[..|sorted| - 1], x) + [sorted[|sorted| - 1]]
  }

  function SortTexts(xs: seq<string>): seq<string> {
    if xs == [] then [] else InsertText(SortTexts(xs[..|xs| - 1]), xs[|xs| - 1])
  }

  predicate SameRelaySet(a: seq<string>, b: seq<string>) {
    |a| == |b| && SortTexts(a) == SortTexts(b)
  }

  ghost predicate Sorted(xs: seq<string>) {
    forall i, j :: 0 <= i < j < |xs| ==> NotAfter(xs[i], xs[j])
  }

  lemma AppendsLast(inner: seq<string>, front: seq<string>, x: string, last: string)
    requires Sorted(inner) && multiset(inner) == multiset(front) + multiset{x}
    requires NotAfter(x, last) && forall i :: 0 <= i < |front| ==> NotAfter(front[i], last)
    ensures Sorted(inner + [last])
  {
    forall i | 0 <= i < |inner| ensures NotAfter(inner[i], last) {
      assert inner[i] in multiset(inner);
      assert inner[i] in front || inner[i] == x;
    }
  }

  lemma {:induction false} InsertTextIs(sorted: seq<string>, x: string)
    requires Sorted(sorted)
    ensures Sorted(InsertText(sorted, x)) && multiset(InsertText(sorted, x)) == multiset(sorted) + multiset{x}
  {
    if sorted != [] {
      var front, last := sorted[..|sorted| - 1], sorted[|sorted| - 1];
      assert sorted == front + [last];
      if NotAfter(last, x) {
        forall i | 0 <= i < |front| ensures NotAfter(sorted[i], x) {
          NotAfterTransitive(sorted[i], last, x);
        }
      } else {
        InsertTextIs(front, x);
        NotAfterTotal(last, x);
        AppendsLast(InsertText(front, x), front, x, last);
      }
    }
  }

  lemma {:induction false} SortTextsIs(xs: seq<string>)
    ensures Sorted(SortTexts(xs)) && multiset(SortTexts(xs)) == multiset(xs)
  {
    if xs != [] {
      hide Sorted, InsertText;
      var front, last := xs[..|xs| - 1], xs[|xs| - 1];
      SortTextsIs(front);
      InsertTextIs(SortTexts(front), last);
      assert xs == front + [last];
      assert multiset(front + [last]) == multiset(front) + multiset{last};
    }
  }

  lemma LastIsGreatest(a: seq<string>, b: seq<string>)
    requires Sorted(a) && multiset(a) == multiset(b) && b != []
    ensures a != [] && NotAfter(b[|b| - 1], a[|a| - 1])
  {
    var last := b[|b| - 1];
    assert last in multiset(a);
    var i :| 0 <= i < |a| && a[i] == last;
    if i == |a| - 1 {
      NotAfterTotal(last, last);
    }
  }

  lemma SameLast(a: seq<string>, b: seq<string>)
    requires Sorted(a) && Sorted(b) && multiset(a) == multiset(b) && b != []
    ensures a != [] && a[|a| - 1] == b[|b| - 1]
  {
    LastIsGreatest(a, b);
    LastIsGreatest(b, a);
    NotAfterAntisymmetric(a[|a| - 1], b[|b| - 1]);
  }

  lemma FrontsAgree(a: seq<string>, b: seq<string>)
    requires multiset(a) == multiset(b) && a != [] && b != [] && a[|a| - 1] == b[|b| - 1]
    ensures multiset(a[..|a| - 1]) == multiset(b[..|b| - 1])
  {
    var x := a[|a| - 1];
    assert a == a[..|a| - 1] + [x];
    assert b == b[..|b| - 1] + [x];
    assert multiset(a[..|a| - 1]) == multiset(a) - multiset{x};
    assert multiset(b[..|b| - 1]) == multiset(b) - multiset{x};
  }

  lemma {:induction false} SortedUnique(a: seq<string>, b: seq<string>)
    requires Sorted(a) && Sorted(b) && multiset(a) == multiset(b)
    ensures a == b
  {
    if b == [] {
      assert |multiset(a)| == 0;
    } else {
      SameLast(a, b);
      FrontsAgree(a, b);
      SortedUnique(a[..|a| - 1], b[..|b| - 1]);
      assert a == a[..|a| - 1] + [a[|a| - 1]] && b == b[..|b| - 1] + [b[|b| - 1]];
    }
  }

  /** Two relay lists count as the same exactly when one is a reordering of the other. */
  lemma SameRelaySetIff(a: seq<string>, b: seq<string>)
    ensures SameRelaySet(a, b) <==> multiset(a) == multiset(b)
  {
    SortTextsIs(a);
    SortTextsIs(b);
    if multiset(a) == multiset(b) {
      assert |a| == |multiset(a)| && |b| == |multiset(b)|;
      SortedUnique(SortTexts(a), SortTexts(b));
    }
  }
}
