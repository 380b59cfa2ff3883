/** The 17-byte numeric key: a tag, the nearest double in sortable form, and the exact residual. */
module NumericKey {
  import opened Rows
  import opened ByteOrder
  import opened Doubles

  const TYPE_NUMERIC: Byte := 1

  /** The sortable form of a double: the sign bit set when it was clear, every bit flipped when it was set. */
  function Sortable(p: int): (s: int)
    requires -(INFINITE as int) < p < INFINITE
    ensures 0 <= s < TWO64
  {
    if p >= 0 then TWO63 + p else TWO63 - 1 + p
  }

  /** Tag, sortable nearest double, residual with its sign bit flipped, in words of `w` bytes. */
  function SplitKey(sp: Split, w: nat): Bytes
    requires Fits(sp)
  {
    [TYPE_NUMERIC] + BigEndian(w, Sortable(sp.rank)) + BigEndian(w, sp.residual + TWO63)
  }

  function NumberKey(v: Numeric, g: nat): Bytes
    requires Valid(v) && g <= 1074
  {
    SplitFits(v, g);
    SplitKey(SplitOf(v, g), 8)
  }

  lemma EightBytes()
    ensures Pow256(8) == TWO64
  {
    assert Pow256(4) == 0x1_0000_0000;
  }

  lemma PairOrders(tag: Bytes, w: nat, x: nat, y: nat, r: nat, s: nat)
    requires x < Pow256(w) && y < Pow256(w) && r < Pow256(w) && s < Pow256(w) && (x < y || (x == y && r < s))
    ensures Before(tag + BigEndian(w, x) + BigEndian(w, r), tag + BigEndian(w, y) + BigEndian(w, s))
  {
    var a, b, c, d := BigEndian(w, x), BigEndian(w, y), BigEndian(w, r), BigEndian(w, s);
    if x < y {
      BigEndianOrders(w, x, y);
      BeforeExtends(a, b, c, d);
      BeforePrefixed(tag, a + c, b + d);
      assert tag + (a + c) == tag + a + c && tag + (b + d) == tag + b + d;
    } else {
      BigEndianOrders(w, r, s);
      BeforePrefixed(tag + a, c, d);
    }
  }

  lemma SplitKeyOrders(a: Split, b: Split, w: nat)
    requires Fits(a) && Fits(b) && Pow256(w) == TWO64 && Precedes(a, b)
    ensures Before(SplitKey(a, w), SplitKey(b, w))
  {
    PairOrders([TYPE_NUMERIC], w, Sortable(a.rank), Sortable(b.rank), a.residual + TWO63, b.residual + TWO63);
  }

  /** The earlier split has the earlier key, and only equal splits share one. */
  lemma SplitKeysAgree(a: Split, b: Split, w: nat)
    requires Fits(a) && Fits(b) && Pow256(w) == TWO64
    ensures Before(SplitKey(a, w), SplitKey(b, w)) <==> Precedes(a, b)
    ensures SplitKey(a, w) == SplitKey(b, w) <==> a == b
  {
    if Precedes(a, b) {
      SplitKeyOrders(a, b, w);
      BeforeIsStrict(SplitKey(a, w), SplitKey(b, w));
    } else if Precedes(b, a) {
      SplitKeyOrders(b, a, w);
      BeforeIsStrict(SplitKey(b, w), SplitKey(a, w));
    } else {
      assert a == b;
      assert !Before(SplitKey(a, w), SplitKey(a, w));
    }
  }

  /** Byte order of the keys is numeric order across both kinds, and equal keys mean equal numbers. */
  lemma KeyOrderIsNumericOrder(a: Numeric, b: Numeric, g: nat)
    requires Valid(a) && Valid(b) && g <= 1074
    ensures Before(NumberKey(a, g), NumberKey(b, g)) <==> Exact(a, g) < Exact(b, g)
    ensures NumberKey(a, g) == NumberKey(b, g) <==> Exact(a, g) == Exact(b, g)
  {
    EightBytes();
    SplitFits(a, g);
    SplitFits(b, g);
    SplitOrders(a, b, g);
    SplitOrders(b, a, g);
    SplitKeysAgree(SplitOf(a, g), SplitOf(b, g), 8);
  }

  // ---- decoding ---------------------------------------------------------------------------------

  /** What a key decodes to: whole numbers come back as integers, whatever they were encoded from. */
  datatype Number = WholeNumber(i: int) | Fraction(bits: nat)

  /** The pattern of the double of rank `p`. */
  function Pattern(p: int): nat
    requires -(TWO63 as int) < p < TWO63
  {
    if p >= 0 then p else TWO63 - p
  }

  predicate IsWhole(p: int, g: nat) {
    (if p >= 0 then Magnitude(p) else Magnitude(-p)) % Pow2(g) == 0
  }

  predicate Finite(p: int) {
    -(INFINITE as int) < p < INFINITE
  }

  function Rebuilt(p: int, residual: int, g: nat): Number
    requires -(TWO63 as int) < p < TWO63
  {
    if residual != 0 || (Finite(p) && IsWhole(p, g)) then WholeNumber(Whole(p, g) + residual) else Fraction(Pattern(p))
  }

  /** `r` is the number `v`: an integer exactly when `v` is one. */
  ghost predicate IsNumber(r: Number, v: Numeric, g: nat)
    requires Valid(v)
  {
    match r
    case WholeNumber(i) => Scaled(i, g) == Exact(v, g)
    case Fraction(bits) => ValueAt(Rank(bits)) == Exact(v, g) && Exact(v, g) % Pow2(g) != 0
  }

  /** Putting the parts together finds the number again. */
  lemma RebuiltIsExact(v: Numeric, g: nat)
    requires Valid(v) && g <= 1074
    ensures Finite(Primary(v, g)) && IsNumber(Rebuilt(Primary(v, g), Residual(v, g), g), v, g)
  {
    SplitFits(v, g);
    SplitIsExact(v, g);
    var p, r := Primary(v, g), Residual(v, g);
    WholeParts(p, g);
    if v.Int64? {
      WholeOfRounded(v.n, g);
    }
    if r == 0 && !IsWhole(p, g) {
      FractionsAreNotWhole(p, g);
    } else {
      Distributes(Whole(p, g) + r, r, Pow2(g));
    }
  }

  lemma FractionsAreNotWhole(p: int, g: nat)
    requires !IsWhole(p, g)
    ensures ValueAt(p) % Pow2(g) != 0
  {
    if ValueAt(p) % Pow2(g) == 0 && p < 0 {
      var m, grid := Magnitude(-p), Pow2(g);
      var d := ValueAt(p) / grid;
      assert ValueAt(p) == d * grid;
      NegativeProduct(d, grid);
      if d > 0 {
        MulBound(1, d, grid);
      }
      MultipleOf(-d, grid);
    }
  }

  lemma WholeParts(p: int, g: nat)
    ensures IsWhole(p, g) <==> ValueAt(p) == Whole(p, g) * Pow2(g)
  {
    var m: nat := if p >= 0 then Magnitude(p) else Magnitude(-p);
    DivisionParts(m, Pow2(g));
    NegativeProduct(-((m / Pow2(g)) as int), Pow2(g));
  }

  lemma DivisionParts(m: nat, grid: nat)
    requires grid > 0
    ensures m % grid == 0 <==> m == (m / grid) * grid
  {
    assert m == (m / grid) * grid + m % grid;
  }

  // ---- the byte buffers -------------------------------------------------------------------------

  /** Flips every bit of `a[from..to]`. */
  method InvertInPlace(a: array<Byte>, from: nat, to: nat)
    requires from <= to <= a.Length
    modifies a
    ensures a[from..to] == Inverted(old(a[from..to]))
    ensures a[..from] == old(a[..from]) && a[to..] == old(a[to..])
  {
    for i := from to to
      invariant forall j :: from <= j < i ==> a[j] == 255 - old(a[j])
      invariant forall j :: 0 <= j < a.Length && !(from <= j < i) ==> a[j] == old(a[j])
    {
      a[i] := 255 - a[i];
    }
  }

  /** Writes a big-endian 64-bit word, as a data view does. */
  method SetWord(a: array<Byte>, offset: nat, x: nat)
    requires offset + 8 <= a.Length && x < TWO64
    modifies a
    ensures a[offset..offset + 8] == BigEndian(8, x)
    ensures a[..offset] == old(a[..offset]) && a[offset + 8..] == old(a[offset + 8..])
  {
    var bytes := BigEndian(8, x);
    for i := 0 to 8
      invariant a[offset..offset + i] == bytes[..i]
      invariant forall j :: 0 <= j < a.Length && !(offset <= j < offset + i) ==> a[j] == old(a[j])
    {
      a[offset + i] := bytes[i];
      assert bytes[..i + 1] == bytes[..i] + [bytes[i]];
    }
    assert bytes[..8] == bytes;
  }

  /** The sortable double, built in place: the pattern, then all bits flipped for a negative, the sign bit for any
      other. */
  method WriteSortableDouble(a: array<Byte>, offset: nat, p: int)
    requires offset + 8 <= a.Length && -(INFINITE as int) < p < INFINITE
    modifies a
    ensures a[offset..offset + 8] == BigEndian(8, Sortable(p))
    ensures a[..offset] == old(a[..offset]) && a[offset + 8..] == old(a[offset + 8..])
  {
    EightBytes();
    SetWord(a, offset, Pattern(p));
    if p < 0 {
      InvertedBigEndian(8, Pattern(p));
      InvertInPlace(a, offset, offset + 8);
    } else {
      FlipTop(a, offset, Pattern(p));
    }
  }

  /** Flips the top bit of a word already in place. */
  method FlipTop(a: array<Byte>, offset: nat, ghost x: nat)
    requires offset + 8 <= a.Length && x < TWO64 && a[offset..offset + 8] == BigEndian(8, x)
    modifies a
    ensures a[offset..offset + 8] == BigEndian(8, if x < TWO63 then x + TWO63 else x - TWO63)
    ensures a[..offset] == old(a[..offset]) && a[offset + 8..] == old(a[offset + 8..])
  {
    EightBytes();
    TopBitFlipped(8, x);
    assert a[offset] == a[offset..offset + 8][0];
    ghost var word := a[offset..offset + 8];
    a[offset] := Flip(a[offset]);
    assert a[offset..offset + 8] == word[0 := Flip(word[0])];
  }

  /** An int64 in two's complement. */
  function TwosComplement(r: int): nat
    requires -(TWO63 as int) <= r < TWO63
  {
    if r >= 0 then r else TWO64 + r
  }

  method EncodeNumeric(v: Numeric, g: nat) returns (key: array<Byte>)
    requires Valid(v) && g <= 1074
    ensures fresh(key) && key[..] == NumberKey(v, g)
  {
    SplitFits(v, g);
    key := WriteSplit(SplitOf(v, g));
  }

  method WriteSplit(sp: Split) returns (key: array<Byte>)
    requires Fits(sp)
    ensures fresh(key) && key[..] == SplitKey(sp, 8)
  {
    key := new Byte[17];
    key[0] := TYPE_NUMERIC;
    WriteSortableDouble(key, 1, sp.rank);
    assert key[..1] == [TYPE_NUMERIC];
    ghost var head := key[..9];
    assert head == [TYPE_NUMERIC] + BigEndian(8, Sortable(sp.rank)) by {
      assert key[..9] == key[..1] + key[1..9];
    }
    SetWord(key, 9, TwosComplement(sp.residual));
    FlipTop(key, 9, TwosComplement(sp.residual));
    assert key[..9] == head;
    assert key[..] == key[..9] + key[9..17];
  }

  function Unsorted(s: int): int {
    if s >= TWO63 then s - TWO63 else s - (TWO63 - 1)
  }

  /** Undoes the sortable form: a clear top bit means the double was negative. */
  method ReadSortable(word: Bytes) returns (p: int)
    requires |word| == 8
    ensures -(TWO63 as int) < p < TWO63 && p == Unsorted(FromBigEndian(word))
  {
    ghost var s := FromBigEndian(word);
    EightBytes();
    BigEndianOfWord(word);
    TopBit(8, s);
    var a := new Byte[8](i requires 0 <= i < 8 => word[i]);
    assert a[0..8] == word;
    if word[0] < 128 {
      InvertedBigEndian(8, s);
      InvertInPlace(a, 0, 8);
      BigEndianRoundTrip(8, TWO64 - 1 - s);
    } else {
      FlipTop(a, 0, s);
      BigEndianRoundTrip(8, s - TWO63);
    }
    assert a[..] == a[0..8];
    p := Rank(FromBigEndian(a[..]));
  }

  /** Undoes the flipped sign bit of a two's-complement word. */
  method ReadResidual(word: Bytes) returns (r: int)
    requires |word| == 8
    ensures r == FromBigEndian(word) - TWO63
  {
    ghost var s := FromBigEndian(word);
    EightBytes();
    BigEndianOfWord(word);
    var a := new Byte[8](i requires 0 <= i < 8 => word[i]);
    assert a[0..8] == word;
    FlipTop(a, 0, s);
    BigEndianRoundTrip(8, if s < TWO63 then s + TWO63 else s - TWO63);
    assert a[..] == a[0..8];
    var x := FromBigEndian(a[..]);
    r := if x < TWO63 then x else x - TWO64;
  }

  /** The two words of a key. */
  method ReadSplit(key: Bytes, ghost sp: Split) returns (p: int, residual: int)
    requires |key| == 17 && Fits(sp)
    ensures -(TWO63 as int) < p < TWO63
    ensures key == SplitKey(sp, 8) ==> p == sp.rank && residual == sp.residual
  {
    p := ReadSortable(key[1..9]);
    residual := ReadResidual(key[9..17]);
    if key == SplitKey(sp, 8) {
      EightBytes();
      var x, r := Sortable(sp.rank), sp.residual + TWO63;
      BigEndianRoundTrip(8, x);
      BigEndianRoundTrip(8, r);
      assert key[1..9] == BigEndian(8, x) && key[9..17] == BigEndian(8, r);
    }
  }

  /** Reads a numeric key at `offset`: none on a short buffer, or when a residual is attached to no finite
      double. The key of a number gives back that number. */
  method DecodeNumeric(buffer: Bytes, offset: nat, g: nat, ghost v: Numeric) returns (r: Option<Number>)
    requires Valid(v) && g <= 1074
    ensures offset + 17 > |buffer| ==> r == None
    ensures offset + 17 <= |buffer| && buffer[offset..offset + 17] == NumberKey(v, g) ==>
            r.Some? && IsNumber(r.value, v, g)
  {
    if offset + 17 > |buffer| {
      return None;
    }
    SplitFits(v, g);
    ghost var sp := SplitOf(v, g);
    var p, residual := ReadSplit(buffer[offset..offset + 17], sp);
    if residual != 0 && !Finite(p) {
      return None;
    }
    r := Some(Rebuilt(p, residual, g));
    RebuiltIsExact(v, g);
  }
}
