/** Byte strings under the unsigned lexicographic order every key store iterates in. */
module ByteOrder {

  type Byte = x: int | 0 <= x < 256

  type Bytes = seq<Byte>

  /** The strings agree before position `i` and differ there. */
  ghost predicate DivergeAt(a: Bytes, b: Bytes, i: nat) {
    i < |a| && i < |b| && a[..i] == b[..i] && a[i] != b[i]
  }

  /** `a` comes first, decided by a byte both have: whatever follows either, the order stands. */
  ghost predicate Before(a: Bytes, b: Bytes) {
    exists i: nat :: DivergeAt(a, b, i) && a[i] < b[i]
  }

  /** The unsigned lexicographic order: decided by a byte, or a proper prefix first. */
  ghost predicate Less(a: Bytes, b: Bytes) {
    Before(a, b) || a < b
  }

  /** Negative, zero or positive as `a` comes before, is, or comes after `b`. */
  method CompareBytes(a: Bytes, b: Bytes) returns (c: int)
    ensures c < 0 <==> Less(a, b)
    ensures c > 0 <==> Less(b, a)
    ensures c == 0 <==> a == b
  {
    var len := if |a| < |b| then |a| else |b|;
    for i := 0 to len
      invariant a[..i] == b[..i]
    {
      if a[i] != b[i] {
        assert DivergeAt(a, b, i) && DivergeAt(b, a, i);
        OneSided(a, b, i);
        var x: int, y: int := a[i], b[i];
        return x - y;
      }
    }
    NoDivergence(a, b, len);
    assert |a| <= |b| ==> a == b[..len];
    c := |a| - |b|;
  }

  /** Strings diverge at one place only. */
  lemma OneSided(a: Bytes, b: Bytes, i: nat)
    requires DivergeAt(a, b, i)
    ensures Before(a, b) <==> a[i] < b[i]
    ensures Before(b, a) <==> b[i] < a[i]
    ensures !(a <= b) && !(b <= a)
  {
    assert DivergeAt(b, a, i);
    assert forall j :: 0 <= j < i ==> a[j] == b[j] by {
      assert forall j :: 0 <= j < i ==> a[..i][j] == b[..i][j];
    }
    forall j: nat | i < j <= |a| && j <= |b| ensures a[..j] != b[..j] {
      assert a[..j][i] != b[..j][i];
    }
    assert forall j: nat :: DivergeAt(a, b, j) || DivergeAt(b, a, j) ==> j == i;
    assert !(a <= b) && !(b <= a);
  }

  lemma NoDivergence(a: Bytes, b: Bytes, len: nat)
    requires len <= |a| && len <= |b| && a[..len] == b[..len] && (len == |a| || len == |b|)
    ensures !Before(a, b) && !Before(b, a)
  {
    assert forall i :: 0 <= i < len ==> a[..len][i] == b[..len][i];
  }

  lemma BeforeIsStrict(a: Bytes, b: Bytes)
    requires Before(a, b)
    ensures !Before(b, a) && a != b && !(a <= b) && !(b <= a)
  {
    var i: nat :| DivergeAt(a, b, i) && a[i] < b[i];
    OneSided(a, b, i);
  }

  /** Decided once, decided for good: appending changes nothing. */
  lemma BeforeExtends(a: Bytes, b: Bytes, s: Bytes, t: Bytes)
    requires Before(a, b)
    ensures Before(a + s, b + t)
  {
    var i: nat :| DivergeAt(a, b, i) && a[i] < b[i];
    assert (a + s)[..i] == a[..i] && (b + t)[..i] == b[..i];
    assert DivergeAt(a + s, b + t, i);
  }

  lemma BeforePrefixed(p: Bytes, a: Bytes, b: Bytes)
    ensures Before(p + a, p + b) <==> Before(a, b)
  {
    if Before(a, b) {
      var i: nat :| DivergeAt(a, b, i) && a[i] < b[i];
      assert (p + a)[..|p| + i] == p + a[..i] && (p + b)[..|p| + i] == p + b[..i];
      assert DivergeAt(p + a, p + b, |p| + i);
    }
    if Before(p + a, p + b) {
      var i: nat :| DivergeAt(p + a, p + b, i) && (p + a)[i] < (p + b)[i];
      assert i >= |p|;
      assert (p + a)[..i] == p + a[..i - |p|] && (p + b)[..i] == p + b[..i - |p|];
      assert a[..i - |p|] == (p + a[..i - |p|])[|p|..] && b[..i - |p|] == (p + b[..i - |p|])[|p|..];
      assert DivergeAt(a, b, i - |p|);
    }
  }

  /** The order, one byte at a time. */
  lemma LessByHead(a: Bytes, b: Bytes)
    requires a != [] && b != []
    ensures Less(a, b) <==> a[0] < b[0] || (a[0] == b[0] && Less(a[1..], b[1..]))
  {
    if a[0] != b[0] {
      assert DivergeAt(a, b, 0);
      OneSided(a, b, 0);
    } else {
      assert a == [a[0]] + a[1..] && b == [a[0]] + b[1..];
      BeforePrefixed([a[0]], a[1..], b[1..]);
      assert a < b <==> a[1..] < b[1..];
    }
  }

  lemma {:induction false} LessIsTotal(a: Bytes, b: Bytes)
    ensures a == b || Less(a, b) || Less(b, a)
    decreases |a|
  {
    if a != [] && b != [] {
      LessIsTotal(a[1..], b[1..]);
      LessByHead(a, b);
      LessByHead(b, a);
      assert a == [a[0]] + a[1..] && b == [b[0]] + b[1..];
    }
  }

  lemma LessIsStrict(a: Bytes, b: Bytes)
    requires Less(a, b)
    ensures a != b && !Less(b, a)
  {
    if Before(a, b) {
      BeforeIsStrict(a, b);
    } else {
      NoDivergence(a, b, |a|);
    }
  }

  lemma {:induction false} LessIsTransitive(a: Bytes, b: Bytes, c: Bytes)
    requires Less(a, b) && Less(b, c)
    ensures Less(a, c)
    decreases |a|
  {
    assert b != [] && c != [];
    if a != [] {
      LessByHead(a, b);
      LessByHead(b, c);
      LessByHead(a, c);
      if a[0] == b[0] == c[0] {
        LessIsTransitive(a[1..], b[1..], c[1..]);
      }
    }
  }

  // ---- bit inversion ----------------------------------------------------------------------------

  function Inverted(a: Bytes): (r: Bytes)
    ensures |r| == |a| && forall i :: 0 <= i < |a| ==> r[i] == 255 - a[i]
  {
    seq(|a|, i requires 0 <= i < |a| => (255 - a[i]) as Byte)
  }

  /** Inverting every bit reverses the order. */
  lemma InversionReverses(a: Bytes, b: Bytes)
    requires Before(a, b)
    ensures Before(Inverted(b), Inverted(a))
  {
    var i: nat :| DivergeAt(a, b, i) && a[i] < b[i];
    assert forall j :: 0 <= j < i ==> a[..i][j] == b[..i][j];
    assert DivergeAt(Inverted(b), Inverted(a), i);
  }

  // ---- big-endian numbers -----------------------------------------------------------------------

  function Pow256(w: nat): nat {
    if w == 0 then 1 else 256 * Pow256(w - 1)
  }

  /** The `w` low bytes of `x`, most significant first. */
  function BigEndian(w: nat, x: nat): (r: Bytes)
    ensures |r| == w
  {
    if w == 0 then [] else BigEndian(w - 1, x / 256) + [x % 256]
  }

  function FromBigEndian(a: Bytes): nat {
    if a == [] then 0 else FromBigEndian(a[..|a| - 1]) * 256 + a[|a| - 1]
  }

  lemma {:induction false} BigEndianRoundTrip(w: nat, x: nat)
    requires x < Pow256(w)
    ensures FromBigEndian(BigEndian(w, x)) == x
  {
    if w > 0 {
      BigEndianRoundTrip(w - 1, x / 256);
      assert BigEndian(w, x)[..w - 1] == BigEndian(w - 1, x / 256);
    }
  }

  lemma {:induction false} BigEndianOfWord(a: Bytes)
    ensures FromBigEndian(a) < Pow256(|a|) && BigEndian(|a|, FromBigEndian(a)) == a
  {
    if a != [] {
      BigEndianOfWord(a[..|a| - 1]);
      assert a == a[..|a| - 1] + [a[|a| - 1]];
    }
  }

  /** The top bit tells the upper half of the range from the lower. */
  lemma {:induction false} TopBit(w: nat, x: nat)
    requires 0 < w && x < Pow256(w)
    ensures BigEndian(w, x)[0] < 128 <==> x < Pow256(w) / 2
  {
    if w == 1 {
      assert BigEndian(1, x) == BigEndian(0, x / 256) + [x % 256];
    } else {
      TopBit(w - 1, x / 256);
    }
  }

  /** Fixed-width big-endian bytes order as the numbers do. */
  lemma {:induction false} BigEndianOrders(w: nat, x: nat, y: nat)
    requires x < y < Pow256(w)
    ensures Before(BigEndian(w, x), BigEndian(w, y))
  {
    var a, b := BigEndian(w - 1, x / 256), BigEndian(w - 1, y / 256);
    if x / 256 < y / 256 {
      BigEndianOrders(w - 1, x / 256, y / 256);
      BeforeExtends(a, b, [x % 256], [y % 256]);
    } else {
      assert DivergeAt(BigEndian(w, x), BigEndian(w, y), w - 1) by {
        assert BigEndian(w, x)[..w - 1] == a && BigEndian(w, y)[..w - 1] == b;
      }
    }
  }

  /** Inverting the bytes is subtracting from all ones. */
  lemma {:induction false} InvertedBigEndian(w: nat, x: nat)
    requires x < Pow256(w)
    ensures Inverted(BigEndian(w, x)) == BigEndian(w, Pow256(w) - 1 - x)
  {
    if w > 0 {
      var rest := Pow256(w) - 1 - x;
      InvertedBigEndian(w - 1, x / 256);
      assert rest / 256 == Pow256(w - 1) - 1 - x / 256 && rest % 256 == 255 - x % 256;
      assert Inverted(BigEndian(w, x)) == Inverted(BigEndian(w - 1, x / 256)) + [255 - x % 256];
    }
  }

  /** Flipping the top bit of the first byte adds half the range, around. */
  lemma {:induction false} TopBitFlipped(w: nat, x: nat)
    requires 0 < w && x < Pow256(w)
    ensures Pow256(w) % 2 == 0
    ensures var flipped := if x < Pow256(w) / 2 then x + Pow256(w) / 2 else x - Pow256(w) / 2;
            BigEndian(w, x)[0 := Flip(BigEndian(w, x)[0])] == BigEndian(w, flipped)
  {
    if w == 1 {
      var flipped := if x < 128 then x + 128 else x - 128;
      assert BigEndian(0, x / 256) == [] && BigEndian(0, flipped / 256) == [];
      assert BigEndian(1, x) == [x % 256] && BigEndian(1, flipped) == [flipped % 256];
    } else {
      TopBitFlipped(w - 1, x / 256);
      FlipCarries(x, Pow256(w - 1) / 2);
      var high := BigEndian(w - 1, x / 256);
      assert BigEndian(w, x) == high + [x % 256] && BigEndian(w, x)[0] == high[0];
      assert (high + [x % 256])[0 := Flip(high[0])] == high[0 := Flip(high[0])] + [x % 256];
    }
  }

  lemma FlipCarries(x: nat, h: nat)
    ensures var flipped := if x < 256 * h then x + 256 * h else x - 256 * h;
            flipped % 256 == x % 256 && flipped / 256 == if x / 256 < h then x / 256 + h else x / 256 - h
  {
  }

  /** The byte with its top bit flipped. */
  function Flip(b: Byte): Byte {
    if b < 128 then b + 128 else b - 128
  }
}
