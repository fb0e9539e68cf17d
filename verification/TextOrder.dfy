/** The order of texts, byte by byte. */
module TextOrder {
  predicate NotAfter(a: string, b: string) {
    a == "" || (b != "" && (a[0] < b[0] || (a[0] == b[0] && NotAfter(a[1..], b[1..]))))
  }

  lemma {:induction false} NotAfterTotal(a: string, b: string)
    ensures NotAfter(a, b) || NotAfter(b, a)
  {
    if a != "" && b != "" && a[0] == b[0] {
      NotAfterTotal(a[1..], b[1..]);
    }
  }

  lemma {:induction false} NotAfterAntisymmetric(a: string, b: string)
    requires NotAfter(a, b) && NotAfter(b, a)
    ensures a == b
  {
    if a != "" && b != "" {
      NotAfterAntisymmetric(a[1..], b[1..]);
      assert a == [a[0]] + a[1..] && b == [b[0]] + b[1..];
    }
  }

  lemma {:induction false} NotAfterTransitive(a: string, b: string, c: string)
    requires NotAfter(a, b) && NotAfter(b, c)
    ensures NotAfter(a, c)
  {
    if a != "" && a[0] == b[0] && b[0] == c[0] {
      NotAfterTransitive(a[1..], b[1..], c[1..]);
    }
  }

  /** Where two texts first differ the smaller byte decides; a text comes before its continuations. */
  ghost predicate FirstDiffers(a: string, b: string, i: nat) {
    i < |a| && i < |b| && a[..i] == b[..i] && a[i] < b[i]
  }

  lemma SameStart(a: string, b: string, i: nat)
    requires FirstDiffers(a, b, i)
    ensures i > 0 ==> a[0] == b[0]
  {
    if i > 0 { assert a[..i][0] == b[..i][0]; }
  }

  lemma {:induction false} NotAfterIff(a: string, b: string)
    ensures NotAfter(a, b) <==> a <= b || exists i: nat :: FirstDiffers(a, b, i)
  {
    if a != "" && b != "" {
      NotAfterIff(a[1..], b[1..]);
      assert a == [a[0]] + a[1..] && b == [b[0]] + b[1..];
      if a[0] < b[0] {
        assert FirstDiffers(a, b, 0);
      } else if a[0] == b[0] {
        if i: nat :| FirstDiffers(a[1..], b[1..], i) {
          assert a[..i + 1] == [a[0]] + a[1..][..i] && b[..i + 1] == [b[0]] + b[1..][..i];
          assert FirstDiffers(a, b, i + 1);
        }
        if i: nat :| FirstDiffers(a, b, i) {
          assert a[1..][..i - 1] == a[1..i] == b[1..i] == b[1..][..i - 1];
          assert FirstDiffers(a[1..], b[1..], i - 1);
        }
      } else {
        forall i: nat | FirstDiffers(a, b, i) ensures i == 0 { SameStart(a, b, i); }
      }
    }
  }
}
