/** File names of the manifest cache. A name is the hash of length-prefixed parts; the hash is taken
    to be injective, so the model keeps the preimage itself as the name. */
module ManifestNames {
  const TWO_64: nat := 0x1_0000_0000_0000_0000

  /** Text that fits in memory: its length fits the eight-byte prefix. */
  type Text = s: string | |s| < TWO_64 witness ""

  datatype Key = Key(npub: Text, slug: Text)

  /** `Json` is any file ending in `.json`, `Staged` a file being written beside its final name. */
  datatype Name = Json(preimage: seq<int>) | Staged(serial: nat) | Marker

  /** The low `width` bytes of `n`, least significant first. */
  function LittleEndian(n: nat, width: nat): (b: seq<int>)
    ensures |b| == width
  {
    if width == 0 then [] else [n % 256] + LittleEndian(n / 256, width - 1)
  }

  function Bytes(s: string): (b: seq<int>)
    ensures |b| == |s|
  {
    seq(|s|, i requires 0 <= i < |s| => s[i] as int)
  }

  function Preimage(parts: seq<Text>): seq<int> {
    if parts == [] then [] else LittleEndian(|parts[0]|, 8) + Bytes(parts[0]) + Preimage(parts[1..])
  }

  /** The name an entry for `k` is stored under. */
  function Canonical(k: Key): Name {
    Json(Preimage([k.npub, k.slug]))
  }

  /** The name older builds gave an entry: they hashed the fingerprint too. */
  function LegacyName(k: Key, fingerprint: Text): Name {
    Json(Preimage([k.npub, k.slug, fingerprint]))
  }

  function Power256(width: nat): nat {
    if width == 0 then 1 else 256 * Power256(width - 1)
  }

  lemma {:induction false} LittleEndianInjective(m: nat, n: nat, width: nat)
    requires m < Power256(width) && n < Power256(width)
    requires LittleEndian(m, width) == LittleEndian(n, width)
    ensures m == n
  {
    if width > 0 {
      var a, b := LittleEndian(m, width), LittleEndian(n, width);
      assert a[0] == m % 256 && b[0] == n % 256;
      assert a[1..] == LittleEndian(m / 256, width - 1) && b[1..] == LittleEndian(n / 256, width - 1);
      LittleEndianInjective(m / 256, n / 256, width - 1);
    }
  }

  lemma BytesInjective(s: string, t: string)
    requires Bytes(s) == Bytes(t)
    ensures s == t
  {
    assert |s| == |t|;
    forall i | 0 <= i < |s| ensures s[i] == t[i] {
      assert Bytes(s)[i] == Bytes(t)[i];
    }
  }

  lemma PrefixPower()
    ensures Power256(8) == TWO_64
  {
    assert Power256(4) == 0x1_0000_0000;
    assert Power256(8) == 256 * (256 * (256 * (256 * Power256(4))));
  }

  /** The preimage determines its parts, however many there are: lengths first make it readable in
      only one way. */
  lemma {:induction false} PreimageInjective(p: seq<Text>, q: seq<Text>)
    requires Preimage(p) == Preimage(q)
    ensures p == q
  {
    if p != [] && q != [] {
      var x, y := Preimage(p), Preimage(q);
      assert x[..8] == LittleEndian(|p[0]|, 8) && y[..8] == LittleEndian(|q[0]|, 8);
      PrefixPower();
      LittleEndianInjective(|p[0]|, |q[0]|, 8);
      var n := 8 + |p[0]|;
      assert x[8..n] == Bytes(p[0]) && y[8..n] == Bytes(q[0]);
      BytesInjective(p[0], q[0]);
      assert x[n..] == Preimage(p[1..]) && y[n..] == Preimage(q[1..]);
      PreimageInjective(p[1..], q[1..]);
      assert p == [p[0]] + p[1..] && q == [q[0]] + q[1..];
    }
  }

  /** Different collections never share a file. */
  lemma CanonicalInjective(a: Key, b: Key)
    ensures Canonical(a) == Canonical(b) ==> a == b
  {
    if Canonical(a) == Canonical(b) {
      var p, q := [a.npub, a.slug], [b.npub, b.slug];
      PreimageInjective(p, q);
      assert p[0] == q[0] && p[1] == q[1];
    }
  }

  /** A name of the old scheme is never a name of the new one. */
  lemma LegacyNeverCanonical(a: Key, fingerprint: Text, b: Key)
    ensures LegacyName(a, fingerprint) != Canonical(b)
  {
    var p, q := [a.npub, a.slug, fingerprint], [b.npub, b.slug];
    if Preimage(p) == Preimage(q) {
      PreimageInjective(p, q);
    }
    assert p != q by { assert |p| != |q|; }
  }

  lemma CanonicalsDiffer()
    ensures forall a: Key, b: Key {:trigger Canonical(a), Canonical(b)} :: Canonical(a) == Canonical(b) ==> a == b
  {
    forall a: Key, b: Key {:trigger Canonical(a), Canonical(b)} ensures Canonical(a) == Canonical(b) ==> a == b {
      CanonicalInjective(a, b);
    }
  }
}
