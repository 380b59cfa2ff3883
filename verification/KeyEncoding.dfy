/** Order-preserving keys: escaped, self-terminating parts, concatenated, with bits inverted where a column
    descends. Text arrives normalised by its collation and as UTF-8 bytes, objects as canonical JSON. */
module KeyEncoding {
  import opened Rows
  import opened ByteOrder
  import opened Doubles
  import opened NumericKey

  datatype Part =
    | NullPart
    | NumberPart(v: Numeric)
    | TextPart(utf8: Bytes)
    | BlobPart(raw: Bytes)
    | ObjectPart(json: Bytes)

  const TYPE_NULL: Byte := 0
  const TYPE_TEXT: Byte := 3
  const TYPE_BLOB: Byte := 4
  const TYPE_OBJECT: Byte := 5
  const TAGS: set<Byte> := {TYPE_NULL, TYPE_NUMERIC, TYPE_TEXT, TYPE_BLOB, TYPE_OBJECT}

  predicate ValidPart(p: Part) {
    p.NumberPart? ==> Doubles.Valid(p.v)
  }

  // ---- escaping ---------------------------------------------------------------------------------

  function Code(b: Byte): Bytes {
    if b == 0 then [1, 1] else if b == 1 then [1, 2] else [b]
  }

  function Codes(bytes: Bytes): Bytes {
    if bytes == [] then [] else Code(bytes[0]) + Codes(bytes[1..])
  }

  /** Content with 0 and 1 escaped, closed by a 0. */
  function Escaped(bytes: Bytes): Bytes {
    Codes(bytes) + [0]
  }

  lemma CodeOrders(x: Byte, y: Byte)
    requires x < y
    ensures Before(Code(x), Code(y))
  {
    if x == 0 && y == 1 {
      assert DivergeAt(Code(x), Code(y), 1);
    } else {
      assert DivergeAt(Code(x), Code(y), 0);
    }
  }

  lemma EscapedUnfolds(a: Bytes)
    requires a != []
    ensures Escaped(a) == Code(a[0]) + Escaped(a[1..])
  {
  }

  /** Escaping turns the lexicographic order into one that a byte always decides. */
  lemma {:induction false} EscapeOrders(a: Bytes, b: Bytes)
    requires Less(a, b)
    ensures Before(Escaped(a), Escaped(b))
    decreases |a|
  {
    if a == [] {
      EscapedUnfolds(b);
      assert DivergeAt(Escaped(a), Escaped(b), 0);
    } else {
      LessByHead(a, b);
      EscapedUnfolds(a);
      EscapedUnfolds(b);
      if a[0] < b[0] {
        CodeOrders(a[0], b[0]);
        BeforeExtends(Code(a[0]), Code(b[0]), Escaped(a[1..]), Escaped(b[1..]));
      } else {
        EscapeOrders(a[1..], b[1..]);
        BeforePrefixed(Code(a[0]), Escaped(a[1..]), Escaped(b[1..]));
      }
    }
  }

  // ---- one part ---------------------------------------------------------------------------------

  function TagOf(p: Part): Byte {
    match p
    case NullPart => TYPE_NULL
    case NumberPart(_) => TYPE_NUMERIC
    case TextPart(_) => TYPE_TEXT
    case BlobPart(_) => TYPE_BLOB
    case ObjectPart(_) => TYPE_OBJECT
  }

  function Content(p: Part): Bytes {
    match p
    case TextPart(b) => b
    case BlobPart(b) => b
    case ObjectPart(b) => b
    case _ => []
  }

  function Encode(p: Part, g: nat): Bytes
    requires ValidPart(p) && g <= 1074
  {
    match p
    case NullPart => [TYPE_NULL]
    case NumberPart(v) => NumberKey(v, g)
    case _ => [TagOf(p)] + Escaped(Content(p))
  }

  /** The order of the kinds, whatever their bytes: NULL, numbers, text, blobs, objects. */
  function KindRank(p: Part): nat {
    match p
    case NullPart => 0
    case NumberPart(_) => 1
    case TextPart(_) => 2
    case BlobPart(_) => 3
    case ObjectPart(_) => 4
  }

  /** NULL, then numbers by value, then text, blobs and objects by bytes. */
  ghost predicate PartLess(a: Part, b: Part, g: nat)
    requires ValidPart(a) && ValidPart(b)
  {
    match (a, b)
    case (NumberPart(x), NumberPart(y)) => Exact(x, g) < Exact(y, g)
    case (TextPart(x), TextPart(y)) => Less(x, y)
    case (BlobPart(x), BlobPart(y)) => Less(x, y)
    case (ObjectPart(x), ObjectPart(y)) => Less(x, y)
    case _ => KindRank(a) < KindRank(b)
  }

  /** One key for both: the same number in either kind, or the same part. */
  ghost predicate SamePart(a: Part, b: Part, g: nat)
    requires ValidPart(a) && ValidPart(b)
  {
    if a.NumberPart? && b.NumberPart? then Exact(a.v, g) == Exact(b.v, g) else a == b
  }

  /** The stored tag bytes, and the bytes an escaped 0, an escaped 1 and the terminator are stored as. */
  lemma StoredForm(v: Numeric, g: nat)
    requires Doubles.Valid(v) && g <= 1074
    ensures Encode(NullPart, g) == [0x00]
    ensures Encode(NumberPart(v), g)[0] == 0x01 && |Encode(NumberPart(v), g)| == 17
    ensures Encode(TextPart([0x00, 0x01, 0x61]), g) == [0x03, 0x01, 0x01, 0x01, 0x02, 0x61, 0x00]
    ensures Encode(BlobPart([]), g) == [0x04, 0x00] && Encode(ObjectPart([]), g) == [0x05, 0x00]
  {
    assert Codes([0x01, 0x61]) == [0x01, 0x02] + Codes([0x61]);
    assert Codes([0x00, 0x01, 0x61]) == [0x01, 0x01] + Codes([0x01, 0x61]);
  }

  lemma EncodeStartsWithTag(p: Part, g: nat)
    requires ValidPart(p) && g <= 1074
    ensures Encode(p, g) != [] && Encode(p, g)[0] == TagOf(p)
  {
  }

  lemma LesserPartFirst(a: Part, b: Part, g: nat)
    requires ValidPart(a) && ValidPart(b) && g <= 1074 && PartLess(a, b, g)
    ensures Before(Encode(a, g), Encode(b, g))
  {
    EncodeStartsWithTag(a, g);
    EncodeStartsWithTag(b, g);
    if KindRank(a) != KindRank(b) {
      assert DivergeAt(Encode(a, g), Encode(b, g), 0);
    } else if a.NumberPart? {
      KeyOrderIsNumericOrder(a.v, b.v, g);
    } else {
      EscapeOrders(Content(a), Content(b));
      BeforePrefixed([TagOf(a)], Escaped(Content(a)), Escaped(Content(b)));
    }
  }

  lemma PartsAreOrdered(a: Part, b: Part, g: nat)
    requires ValidPart(a) && ValidPart(b)
    ensures SamePart(a, b, g) || PartLess(a, b, g) || PartLess(b, a, g)
  {
    LessIsTotal(Content(a), Content(b));
  }

  lemma SamePartsShareKey(a: Part, b: Part, g: nat)
    requires ValidPart(a) && ValidPart(b) && g <= 1074 && SamePart(a, b, g)
    ensures Encode(a, g) == Encode(b, g)
  {
    if a.NumberPart? {
      KeyOrderIsNumericOrder(a.v, b.v, g);
    }
  }

  /** No part's key is a prefix of a different part's: keys that differ differ at a byte both have. */
  lemma EncodingsArePrefixFree(a: Part, b: Part, g: nat)
    requires ValidPart(a) && ValidPart(b) && g <= 1074
    ensures Encode(a, g) <= Encode(b, g) <==> SamePart(a, b, g)
    ensures Before(Encode(a, g), Encode(b, g)) <==> PartLess(a, b, g)
  {
    PartsAreOrdered(a, b, g);
    if PartLess(a, b, g) {
      LesserPartFirst(a, b, g);
      BeforeIsStrict(Encode(a, g), Encode(b, g));
    } else if PartLess(b, a, g) {
      LesserPartFirst(b, a, g);
      BeforeIsStrict(Encode(b, g), Encode(a, g));
    } else {
      SamePartsShareKey(a, b, g);
    }
    if SamePart(a, b, g) {
      SamePartsShareKey(a, b, g);
      NoDivergence(Encode(a, g), Encode(b, g), |Encode(a, g)|);
    }
  }

  // ---- the composite key ------------------------------------------------------------------------

  function Descends(desc: seq<bool>): bool {
    desc != [] && desc[0]
  }

  function Rest(desc: seq<bool>): seq<bool> {
    if desc == [] then [] else desc[1..]
  }

  function Piece(p: Part, descending: bool, g: nat): Bytes
    requires ValidPart(p) && g <= 1074
  {
    if descending then Inverted(Encode(p, g)) else Encode(p, g)
  }

  ghost predicate ValidParts(parts: seq<Part>) {
    forall i :: 0 <= i < |parts| ==> ValidPart(parts[i])
  }

  /** Directions past the end ascend. */
  ghost function CompositeKey(parts: seq<Part>, desc: seq<bool>, g: nat): Bytes
    requires ValidParts(parts) && g <= 1074
  {
    if parts == [] then [] else Piece(parts[0], Descends(desc), g) + CompositeKey(parts[1..], Rest(desc), g)
  }

  /** Column `i` is the first unequal one, and `a` comes first there, the other way round where it descends. */
  ghost predicate DecidedAt(a: seq<Part>, b: seq<Part>, desc: seq<bool>, g: nat, i: nat)
    requires ValidParts(a) && ValidParts(b) && |a| == |b|
  {
    && i < |a| && SameTuple(a[..i], b[..i], g)
    && if i < |desc| && desc[i] then PartLess(b[i], a[i], g) else PartLess(a[i], b[i], g)
  }

  ghost predicate TupleLess(a: seq<Part>, b: seq<Part>, desc: seq<bool>, g: nat)
    requires ValidParts(a) && ValidParts(b) && |a| == |b|
  {
    exists i: nat :: DecidedAt(a, b, desc, g, i)
  }

  ghost predicate SameTuple(a: seq<Part>, b: seq<Part>, g: nat)
    requires ValidParts(a) && ValidParts(b) && |a| == |b|
  {
    forall i :: 0 <= i < |a| ==> SamePart(a[i], b[i], g)
  }

  lemma PieceOrders(a: Part, b: Part, descending: bool, g: nat)
    requires ValidPart(a) && ValidPart(b) && g <= 1074 && !SamePart(a, b, g)
    ensures if (if descending then PartLess(b, a, g) else PartLess(a, b, g))
            then Before(Piece(a, descending, g), Piece(b, descending, g))
            else Before(Piece(b, descending, g), Piece(a, descending, g))
  {
    PartsAreOrdered(a, b, g);
    EncodingsArePrefixFree(a, b, g);
    EncodingsArePrefixFree(b, a, g);
    if PartLess(a, b, g) {
      InversionReverses(Encode(a, g), Encode(b, g));
      BeforeIsStrict(Encode(a, g), Encode(b, g));
    } else {
      InversionReverses(Encode(b, g), Encode(a, g));
    }
  }

  /** For keys of equal arity, byte order is the lexicographic order of the columns with each descending one
      reversed; equal keys mean equal columns. */
  lemma {:induction false} CompositeOrder(a: seq<Part>, b: seq<Part>, desc: seq<bool>, g: nat)
    requires ValidParts(a) && ValidParts(b) && |a| == |b| && g <= 1074
    ensures Before(CompositeKey(a, desc, g), CompositeKey(b, desc, g)) <==> TupleLess(a, b, desc, g)
    ensures CompositeKey(a, desc, g) == CompositeKey(b, desc, g) <==> SameTuple(a, b, g)
    decreases |a|
  {
    if a == [] {
      assert !Before([], []);
    } else {
      CompositeOrder(a[1..], b[1..], Rest(desc), g);
      if SamePart(a[0], b[0], g) {
        SameFirstColumn(a, b, desc, g);
        DecidedLater(a, b, desc, g);
      } else {
        FirstColumnDecides(a, b, desc, g);
        DecidedAtOnce(a, b, desc, g);
      }
    }
  }

  /** Past an equal first column the rest of the tuple decides. */
  lemma DecidedLater(a: seq<Part>, b: seq<Part>, desc: seq<bool>, g: nat)
    requires ValidParts(a) && ValidParts(b) && |a| == |b| && a != [] && SamePart(a[0], b[0], g)
    ensures TupleLess(a, b, desc, g) <==> TupleLess(a[1..], b[1..], Rest(desc), g)
  {
    if i: nat :| DecidedAt(a, b, desc, g, i) {
      assert i > 0 by { SameIsNotLess(a[0], b[0], g); }
      DecidedShifts(a, b, desc, g, i - 1);
    }
    if i: nat :| DecidedAt(a[1..], b[1..], Rest(desc), g, i) {
      DecidedShifts(a, b, desc, g, i);
    }
  }

  lemma DecidedShifts(a: seq<Part>, b: seq<Part>, desc: seq<bool>, g: nat, i: nat)
    requires ValidParts(a) && ValidParts(b) && |a| == |b| && a != [] && SamePart(a[0], b[0], g)
    ensures DecidedAt(a, b, desc, g, i + 1) <==> DecidedAt(a[1..], b[1..], Rest(desc), g, i)
  {
    if i + 1 < |a| {
      SameTupleUnfolds(a[..i + 1], b[..i + 1], g);
      assert a[..i + 1][1..] == a[1..][..i] && b[..i + 1][1..] == b[1..][..i];
    }
  }

  lemma DecidedAtOnce(a: seq<Part>, b: seq<Part>, desc: seq<bool>, g: nat)
    requires ValidParts(a) && ValidParts(b) && |a| == |b| && a != [] && !SamePart(a[0], b[0], g)
    ensures TupleLess(a, b, desc, g) <==> if Descends(desc) then PartLess(b[0], a[0], g) else PartLess(a[0], b[0], g)
  {
    forall i: nat | DecidedAt(a, b, desc, g, i) ensures i == 0 {
      if i > 0 {
        SameFromTheStart(a, b, g, i);
      }
    }
    assert SameTuple(a[..0], b[..0], g);
    assert DecidedAt(a, b, desc, g, 0) <==> TupleLess(a, b, desc, g);
  }

  lemma SameFromTheStart(a: seq<Part>, b: seq<Part>, g: nat, i: nat)
    requires ValidParts(a) && ValidParts(b) && 0 < i <= |a| == |b| && SameTuple(a[..i], b[..i], g)
    ensures SamePart(a[0], b[0], g)
  {
    assert a[..i][0] == a[0] && b[..i][0] == b[0];
  }

  lemma SameIsNotLess(a: Part, b: Part, g: nat)
    requires ValidPart(a) && ValidPart(b) && SamePart(a, b, g)
    ensures !PartLess(a, b, g) && !PartLess(b, a, g)
  {
  }

  lemma SameFirstColumn(a: seq<Part>, b: seq<Part>, desc: seq<bool>, g: nat)
    requires ValidParts(a) && ValidParts(b) && |a| == |b| && g <= 1074 && a != [] && SamePart(a[0], b[0], g)
    ensures var x, y := CompositeKey(a[1..], Rest(desc), g), CompositeKey(b[1..], Rest(desc), g);
            && (Before(CompositeKey(a, desc, g), CompositeKey(b, desc, g)) <==> Before(x, y))
            && (CompositeKey(a, desc, g) == CompositeKey(b, desc, g) <==> x == y)
            && (SameTuple(a, b, g) <==> SameTuple(a[1..], b[1..], g))
  {
    var x, y := CompositeKey(a[1..], Rest(desc), g), CompositeKey(b[1..], Rest(desc), g);
    SamePartsShareKey(a[0], b[0], g);
    BeforePrefixed(Piece(a[0], Descends(desc), g), x, y);
    SameHead(Piece(a[0], Descends(desc), g), x, y);
    SameTupleUnfolds(a, b, g);
  }

  lemma FirstColumnDecides(a: seq<Part>, b: seq<Part>, desc: seq<bool>, g: nat)
    requires ValidParts(a) && ValidParts(b) && |a| == |b| && g <= 1074 && a != [] && !SamePart(a[0], b[0], g)
    ensures Before(CompositeKey(a, desc, g), CompositeKey(b, desc, g)) <==>
            if Descends(desc) then PartLess(b[0], a[0], g) else PartLess(a[0], b[0], g)
    ensures CompositeKey(a, desc, g) != CompositeKey(b, desc, g)
  {
    var x, y := CompositeKey(a[1..], Rest(desc), g), CompositeKey(b[1..], Rest(desc), g);
    var p, q := Piece(a[0], Descends(desc), g), Piece(b[0], Descends(desc), g);
    assert CompositeKey(a, desc, g) == p + x && CompositeKey(b, desc, g) == q + y;
    PieceOrders(a[0], b[0], Descends(desc), g);
    if Before(p, q) {
      HeadDecides(p, q, x, y);
    } else {
      HeadDecides(q, p, y, x);
    }
    BeforeExcludes(p, q);
  }

  lemma HeadDecides(p: Bytes, q: Bytes, x: Bytes, y: Bytes)
    requires Before(p, q)
    ensures Before(p + x, q + y) && !Before(q + y, p + x) && p + x != q + y
  {
    BeforeExtends(p, q, x, y);
    BeforeIsStrict(p + x, q + y);
  }

  lemma BeforeExcludes(p: Bytes, q: Bytes)
    ensures !(Before(p, q) && Before(q, p))
  {
    if Before(p, q) {
      BeforeIsStrict(p, q);
    }
  }

  lemma SameHead(p: Bytes, x: Bytes, y: Bytes)
    ensures p + x == p + y <==> x == y
  {
    assert (p + x)[|p|..] == x && (p + y)[|p|..] == y;
  }

  lemma SameTupleUnfolds(a: seq<Part>, b: seq<Part>, g: nat)
    requires ValidParts(a) && ValidParts(b) && |a| == |b| && a != [] && SamePart(a[0], b[0], g)
    ensures SameTuple(a, b, g) <==> SameTuple(a[1..], b[1..], g)
  {
    if SameTuple(a[1..], b[1..], g) {
      forall i | 0 <= i < |a| ensures SamePart(a[i], b[i], g) {
        if i > 0 {
          assert SamePart(a[1..][i - 1], b[1..][i - 1], g);
        }
      }
    }
  }

  // ---- writing ----------------------------------------------------------------------------------

  lemma {:induction false} CodesAppend(a: Bytes, x: Byte)
    ensures Codes(a + [x]) == Codes(a) + Code(x)
  {
    if a == [] {
      assert a + [x] == [x] && [x][1..] == [];
      assert Codes([x]) == Code(x) + Codes([]);
    } else {
      CodesAppend(a[1..], x);
      assert (a + [x])[1..] == a[1..] + [x] && (a + [x])[0] == a[0];
      assert Code(a[0]) + (Codes(a[1..]) + Code(x)) == (Code(a[0]) + Codes(a[1..])) + Code(x);
    }
  }

  function EscapeCount(bytes: Bytes): nat {
    if bytes == [] then 0 else EscapeCount(bytes[..|bytes| - 1]) + if bytes[|bytes| - 1] < 2 then 1 else 0
  }

  lemma {:induction false} CodesLength(bytes: Bytes)
    ensures |Codes(bytes)| == |bytes| + EscapeCount(bytes)
  {
    if bytes != [] {
      var rest, last := bytes[..|bytes| - 1], bytes[|bytes| - 1];
      CodesLength(rest);
      CodesAppend(rest, last);
      assert bytes == rest + [last];
    }
  }

  lemma CodesStep(bytes: Bytes, i: nat)
    requires i < |bytes|
    ensures Codes(bytes[..i + 1]) == Codes(bytes[..i]) + Code(bytes[i])
    ensures EscapeCount(bytes[..i + 1]) == EscapeCount(bytes[..i]) + if bytes[i] < 2 then 1 else 0
  {
    CodesAppend(bytes[..i], bytes[i]);
    assert bytes[..i + 1] == bytes[..i] + [bytes[i]];
    assert bytes[..i + 1][..i] == bytes[..i];
  }

  lemma {:induction false} CodesPrefixFits(bytes: Bytes, i: nat)
    requires i <= |bytes|
    ensures |Codes(bytes[..i])| <= |Codes(bytes)|
    decreases |bytes| - i
  {
    if i < |bytes| {
      CodesStep(bytes, i);
      CodesPrefixFits(bytes, i + 1);
    } else {
      assert bytes[..i] == bytes;
    }
  }

  /** Two passes over the content: count the escapes to size the buffer, then fill it. */
  method WriteEscapedWithTerminator(tag: Byte, bytes: Bytes) returns (result: array<Byte>)
    ensures fresh(result) && result[..] == [tag] + Escaped(bytes)
  {
    var escapes := CountEscapes(bytes);
    CodesLength(bytes);
    result := new Byte[1 + |bytes| + escapes + 1];
    var at := FillCodes(result, tag, bytes);
    ghost var body := result[..at];
    result[at] := 0;
    assert result[..at] == body && result[..] == result[..at] + result[at..];
  }

  /** The second pass: the tag, then each byte's code. One cell is left for the terminator. */
  method FillCodes(result: array<Byte>, tag: Byte, bytes: Bytes) returns (at: nat)
    requires result.Length == 2 + |Codes(bytes)|
    modifies result
    ensures at == result.Length - 1 && result[..at] == [tag] + Codes(bytes)
  {
    result[0] := tag;
    at := 1;
    for i := 0 to |bytes|
      invariant at == 1 + |Codes(bytes[..i])| && at < result.Length
      invariant result[..at] == [tag] + Codes(bytes[..i])
    {
      CodesStep(bytes, i);
      CodesPrefixFits(bytes, i + 1);
      at := WriteCode(result, at, bytes[i]);
    }
    assert bytes[..|bytes|] == bytes;
  }

  method WriteCode(result: array<Byte>, at: nat, b: Byte) returns (next: nat)
    requires at + |Code(b)| <= result.Length
    modifies result
    ensures next == at + |Code(b)| && result[..next] == old(result[..at]) + Code(b)
  {
    if b == 0 {
      result[at], result[at + 1] := 1, 1;
      next := at + 2;
    } else if b == 1 {
      result[at], result[at + 1] := 1, 2;
      next := at + 2;
    } else {
      result[at] := b;
      next := at + 1;
    }
  }

  method CountEscapes(bytes: Bytes) returns (count: nat)
    ensures count == EscapeCount(bytes)
  {
    count := 0;
    for i := 0 to |bytes|
      invariant count == EscapeCount(bytes[..i])
    {
      CodesStep(bytes, i);
      if bytes[i] == 0 || bytes[i] == 1 {
        count := count + 1;
      }
    }
    assert bytes[..|bytes|] == bytes;
  }

  method EncodeValue(p: Part, g: nat) returns (result: array<Byte>)
    requires ValidPart(p) && g <= 1074
    ensures fresh(result) && result[..] == Encode(p, g)
  {
    match p
    case NullPart =>
      result := new Byte[1];
      result[0] := TYPE_NULL;
    case NumberPart(v) => result := EncodeNumeric(v, g);
    case _ => result := WriteEscapedWithTerminator(TagOf(p), Content(p));
  }

  ghost function Joined(pieces: seq<Bytes>): Bytes {
    if pieces == [] then [] else Joined(pieces[..|pieces| - 1]) + pieces[|pieces| - 1]
  }

  lemma JoinStep(pieces: seq<Bytes>, i: nat)
    requires i < |pieces|
    ensures Joined(pieces[..i + 1]) == Joined(pieces[..i]) + pieces[i]
  {
    assert pieces[..i + 1][..i] == pieces[..i];
  }

  lemma {:induction false} JoinPrefixFits(pieces: seq<Bytes>, i: nat)
    requires i <= |pieces|
    ensures |Joined(pieces[..i])| <= |Joined(pieces)|
    decreases |pieces| - i
  {
    if i < |pieces| {
      JoinStep(pieces, i);
      JoinPrefixFits(pieces, i + 1);
    } else {
      assert pieces[..i] == pieces;
    }
  }

  function DescAt(desc: seq<bool>, i: nat): bool {
    i < |desc| && desc[i]
  }

  ghost predicate ArePieces(pieces: seq<Bytes>, parts: seq<Part>, desc: seq<bool>, g: nat)
    requires ValidParts(parts) && g <= 1074
  {
    |pieces| <= |parts| && forall i :: 0 <= i < |pieces| ==> pieces[i] == Piece(parts[i], DescAt(desc, i), g)
  }

  /** Joining the pieces in order is the composite key. */
  lemma {:induction false} PiecesMakeKey(pieces: seq<Bytes>, parts: seq<Part>, desc: seq<bool>, g: nat)
    requires ValidParts(parts) && g <= 1074 && ArePieces(pieces, parts, desc, g) && |pieces| == |parts|
    ensures Joined(pieces) == CompositeKey(parts, desc, g)
    decreases |parts|
  {
    if parts != [] {
      forall i | 0 <= i < |pieces| - 1 ensures pieces[1..][i] == Piece(parts[1..][i], DescAt(Rest(desc), i), g) {
        assert pieces[1..][i] == pieces[i + 1] && parts[1..][i] == parts[i + 1];
      }
      assert ArePieces(pieces[1..], parts[1..], Rest(desc), g);
      PiecesMakeKey(pieces[1..], parts[1..], Rest(desc), g);
      JoinedUnfolds(pieces);
      assert pieces[0] == Piece(parts[0], Descends(desc), g);
    }
  }

  lemma {:induction false} JoinedUnfolds(pieces: seq<Bytes>)
    requires pieces != []
    ensures Joined(pieces) == pieces[0] + Joined(pieces[1..])
    decreases |pieces|
  {
    if |pieces| == 1 {
      assert pieces[..0] == [] && pieces[1..] == [];
    } else {
      var init := pieces[..|pieces| - 1];
      JoinedUnfolds(init);
      assert pieces[1..][..|pieces| - 2] == init[1..];
    }
  }

  /** Encodes each value, inverts the descending ones in place, and copies them into one buffer. */
  method EncodeCompositeKey(parts: seq<Part>, desc: seq<bool>, g: nat) returns (result: array<Byte>)
    requires ValidParts(parts) && g <= 1074
    ensures fresh(result) && result[..] == CompositeKey(parts, desc, g)
  {
    var pieces, total := EncodePieces(parts, desc, g);
    PiecesMakeKey(pieces, parts, desc, g);
    result := JoinPieces(pieces, total);
  }

  method EncodePieces(parts: seq<Part>, desc: seq<bool>, g: nat) returns (pieces: seq<Bytes>, total: nat)
    requires ValidParts(parts) && g <= 1074
    ensures ArePieces(pieces, parts, desc, g) && |pieces| == |parts| && total == |Joined(pieces)|
  {
    pieces, total := [], 0;
    for i := 0 to |parts|
      invariant |pieces| == i && ArePieces(pieces, parts, desc, g) && total == |Joined(pieces)|
    {
      var piece := EncodePiece(parts[i], i < |desc| && desc[i], g);
      PieceAdded(pieces, parts, desc, g, piece);
      pieces, total := pieces + [piece], total + |piece|;
    }
  }

  lemma PieceAdded(pieces: seq<Bytes>, parts: seq<Part>, desc: seq<bool>, g: nat, piece: Bytes)
    requires ValidParts(parts) && g <= 1074 && ArePieces(pieces, parts, desc, g) && |pieces| < |parts|
    requires piece == Piece(parts[|pieces|], DescAt(desc, |pieces|), g)
    ensures ArePieces(pieces + [piece], parts, desc, g) && |Joined(pieces + [piece])| == |Joined(pieces)| + |piece|
  {
    JoinedMore(pieces, piece);
    var more := pieces + [piece];
    forall i | 0 <= i < |more| ensures more[i] == Piece(parts[i], DescAt(desc, i), g) {
      if i < |pieces| {
        assert more[i] == pieces[i];
      }
    }
  }

  lemma JoinedMore(pieces: seq<Bytes>, piece: Bytes)
    ensures Joined(pieces + [piece]) == Joined(pieces) + piece
  {
    assert (pieces + [piece])[..|pieces|] == pieces;
  }

  method EncodePiece(p: Part, descending: bool, g: nat) returns (piece: Bytes)
    requires ValidPart(p) && g <= 1074
    ensures piece == Piece(p, descending, g)
  {
    var encoded := EncodeValue(p, g);
    if descending {
      assert encoded[0..encoded.Length] == encoded[..];
      InvertInPlace(encoded, 0, encoded.Length);
      assert encoded[..] == encoded[0..encoded.Length];
    }
    piece := encoded[..];
  }

  method JoinPieces(pieces: seq<Bytes>, total: nat) returns (result: array<Byte>)
    requires total == |Joined(pieces)|
    ensures fresh(result) && result[..] == Joined(pieces)
  {
    result := new Byte[total];
    var offset := 0;
    for i := 0 to |pieces|
      invariant offset == |Joined(pieces[..i])| <= result.Length && result[..offset] == Joined(pieces[..i])
    {
      JoinStep(pieces, i);
      JoinPrefixFits(pieces, i + 1);
      CopyInto(result, offset, pieces[i]);
      assert result[..offset + |pieces[i]|] == result[..offset] + result[offset..offset + |pieces[i]|];
      offset := offset + |pieces[i]|;
    }
    assert pieces[..|pieces|] == pieces;
    assert result[..offset] == result[..];
  }

  method CopyInto(a: array<Byte>, offset: nat, bytes: Bytes)
    requires offset + |bytes| <= a.Length
    modifies a
    ensures a[offset..offset + |bytes|] == bytes && a[..offset] == old(a[..offset])
  {
    for i := 0 to |bytes|
      invariant a[offset..offset + i] == bytes[..i] && a[..offset] == old(a[..offset])
    {
      a[offset + i] := bytes[i];
    }
  }

  // ---- reading ----------------------------------------------------------------------------------

  /** What the next byte of escaped content says. */
  lemma NextCode(content: Bytes, rest: Bytes)
    requires Escaped(content) <= rest
    ensures rest != []
    ensures content == [] ==> rest[0] == 0
    ensures content != [] ==>
            rest[0] != 0 && Code(content[0]) <= rest && Escaped(content[1..]) <= rest[|Code(content[0])|..]
  {
    if content != [] {
      EscapedUnfolds(content);
      var code, more := Code(content[0]), Escaped(content[1..]);
      assert rest[..|code| + |more|] == code + more;
      assert rest[..|code|] == code;
      assert rest[|code|..][..|more|] == (code + more)[|code|..];
    }
  }

  /** Reads content from after the tag up to its terminator. What was escaped comes back, whatever follows it. */
  method ReadEscapedUntilTerminator(buffer: Bytes, offset: nat, ghost content: Bytes) returns (bytes: Bytes, read: nat)
    requires offset < |buffer|
    ensures 1 <= read <= |buffer| - offset
    ensures Escaped(content) <= buffer[offset + 1..] ==> bytes == content && read == 1 + |Escaped(content)|
  {
    bytes := [];
    var i := offset + 1;
    ghost var j := 0;
    ghost var matched := Escaped(content) <= buffer[offset + 1..];
    assert content[0..] == content;
    while i < |buffer|
      invariant offset + 1 <= i <= |buffer|
      invariant matched ==> Reading(buffer, offset, content, i, j, bytes)
      decreases |buffer| - i
    {
      var byte := buffer[i];
      if matched {
        ReadingStep(buffer, offset, content, i, j, bytes);
      }
      if byte == 0 {
        i := i + 1;
        break;
      }
      var b, next := ReadCode(buffer, i, if j < |content| then content[j] else 0);
      bytes, i := bytes + [b], next;
      j := j + 1;
    }
    read := i - offset;
  }

  /** One byte of content, escaped or not. */
  method ReadCode(buffer: Bytes, i: nat, ghost x: Byte) returns (b: Byte, next: nat)
    requires i < |buffer| && buffer[i] != 0
    ensures i < next <= |buffer|
    ensures Code(x) <= buffer[i..] ==> b == x && next == i + |Code(x)|
  {
    b, next := buffer[i], i + 1;
    if b == 1 && i + 1 < |buffer| {
      if buffer[i + 1] == 1 {
        b, next := 0, i + 2;
      } else if buffer[i + 1] == 2 {
        b, next := 1, i + 2;
      }
    }
    assert Code(x) <= buffer[i..] ==> Code(x)[0] == buffer[i];
    assert Code(x) <= buffer[i..] && x < 2 ==> i + 1 < |buffer| && Code(x)[1] == buffer[i + 1];
  }

  /** The first `j` bytes are read, the rest of the content still lies ahead. */
  ghost predicate Reading(buffer: Bytes, offset: nat, content: Bytes, i: nat, j: nat, bytes: Bytes) {
    && i <= |buffer| && j <= |content| && bytes == content[..j] && Escaped(content[j..]) <= buffer[i..]
    && i + |Escaped(content[j..])| == offset + 1 + |Escaped(content)|
  }

  /** From the next byte on: the terminator, or one escaped byte of content. */
  lemma ReadingStep(buffer: Bytes, offset: nat, content: Bytes, i: nat, j: nat, bytes: Bytes)
    requires i < |buffer| && Reading(buffer, offset, content, i, j, bytes)
    ensures j == |content| ==> buffer[i] == 0 && bytes == content && i + 1 == offset + 1 + |Escaped(content)|
    ensures j < |content| ==> var code := Code(content[j]);
                              buffer[i] != 0 && code <= buffer[i..] &&
                                  Reading(buffer, offset, content, i + |code|, j + 1, bytes + [content[j]])
  {
    NextCode(content[j..], buffer[i..]);
    if j < |content| {
      EscapedUnfolds(content[j..]);
      assert content[j..][1..] == content[j + 1..] && content[..j + 1] == content[..j] + [content[j]];
      var n := |Code(content[j])|;
      assert buffer[i..][n..] == buffer[i + n..];
    }
  }

  datatype DecodedPart =
    | DecodedNull
    | DecodedNumber(n: Number)
    | DecodedText(utf8: Bytes)
    | DecodedBlob(raw: Bytes)
    | DecodedObject(json: Bytes)

  datatype Decoding = Decoded(part: DecodedPart, read: nat) | Malformed

  ghost predicate Restores(d: DecodedPart, p: Part, g: nat)
    requires ValidPart(p)
  {
    match p
    case NullPart => d == DecodedNull
    case NumberPart(v) => d.DecodedNumber? && IsNumber(d.n, v, g)
    case TextPart(b) => d == DecodedText(b)
    case BlobPart(b) => d == DecodedBlob(b)
    case ObjectPart(b) => d == DecodedObject(b)
  }

  /** One value from `offset`. A key followed by anything gives back its value and its own length. */
  method DecodeValue(buffer: Bytes, offset: nat, g: nat, ghost p: Part) returns (r: Decoding)
    requires ValidPart(p) && g <= 1074
    ensures offset >= |buffer| ==> r == Malformed
    ensures offset < |buffer| && buffer[offset] !in TAGS ==> r == Malformed
    ensures r.Decoded? ==> 1 <= r.read <= |buffer| - offset
    ensures offset < |buffer| && Encode(p, g) <= buffer[offset..] ==>
            r.Decoded? && r.read == |Encode(p, g)| && Restores(r.part, p, g)
  {
    if offset >= |buffer| {
      return Malformed;
    }
    EncodeStartsWithTag(p, g);
    var tag := buffer[offset];
    assert Encode(p, g) <= buffer[offset..] ==> tag == TagOf(p);
    if tag == TYPE_NULL {
      r := Decoded(DecodedNull, 1);
    } else if tag == TYPE_NUMERIC {
      ghost var v := if p.NumberPart? then p.v else Int64(0);
      var n := DecodeNumeric(buffer, offset, g, v);
      NumberAtFront(buffer, offset, g, v);
      r := if n.Some? then Decoded(DecodedNumber(n.value), 17) else Malformed;
    } else if tag == TYPE_TEXT || tag == TYPE_BLOB || tag == TYPE_OBJECT {
      var bytes, read := ReadEscapedUntilTerminator(buffer, offset, Content(p));
      ContentAtFront(buffer, offset, tag, Content(p));
      r := Decoded(if tag == TYPE_TEXT then DecodedText(bytes) else if tag ==
          TYPE_BLOB then DecodedBlob(bytes) else DecodedObject(bytes), read);
    } else {
      r := Malformed;
    }
  }

  lemma NumberAtFront(buffer: Bytes, offset: nat, g: nat, v: Numeric)
    requires offset < |buffer| && Doubles.Valid(v) && g <= 1074
    ensures |NumberKey(v, g)| == 17
    ensures NumberKey(v, g) <= buffer[offset..] ==>
            offset + 17 <= |buffer| && buffer[offset..offset + 17] == NumberKey(v, g)
  {
    if NumberKey(v, g) <= buffer[offset..] {
      assert buffer[offset..][..17] == buffer[offset..offset + 17];
    }
  }

  lemma ContentAtFront(buffer: Bytes, offset: nat, tag: Byte, content: Bytes)
    requires offset < |buffer|
    ensures [tag] + Escaped(content) <= buffer[offset..] ==> Escaped(content) <= buffer[offset + 1..]
  {
    if [tag] + Escaped(content) <= buffer[offset..] {
      var n := |Escaped(content)|;
      assert buffer[offset..][..1 + n][1..] == buffer[offset + 1..][..n];
      assert ([tag] + Escaped(content))[1..] == Escaped(content);
    }
  }

  /** How many values a read with this limit returns: a limit of none or too many reads all, and at least one is
      read before the limit is looked at. */
  function ReadCount(limit: Option<nat>, available: nat): nat {
    if limit.None? || available <= limit.value then available else if limit.value == 0 then 1 else limit.value
  }

  /** Splits a concatenation of ascending parts back into exactly those parts. */
  method DecodeCompositeKey(buffer: Bytes, limit: Option<nat>, g: nat, ghost parts: seq<Part>)
                            returns (r: Option<seq<DecodedPart>>)
    requires ValidParts(parts) && g <= 1074
    ensures buffer == CompositeKey(parts, [], g) ==>
            r.Some? && |r.value| == ReadCount(limit, |parts|) && RestoresAll(r.value, parts, g)
  {
    var values: seq<DecodedPart> := [];
    var offset := 0;
    ghost var matched := buffer == CompositeKey(parts, [], g);
    if matched {
      SplitStart(buffer, parts, g);
    }
    while offset < |buffer|
      invariant offset <= |buffer|
      invariant matched ==> Splitting(buffer, parts, g, offset, values)
      invariant limit.Some? ==> |values| == 0 || |values| < limit.value
      decreases |buffer| - offset
    {
      var d := DecodeNext(buffer, offset, g, parts, values, matched);
      if d.Malformed? {
        return None;
      }
      values, offset := values + [d.part], offset + d.read;
      if limit.Some? && |values| >= limit.value {
        break;
      }
    }
    if matched {
      SplitEnd(buffer, parts, g, offset, values);
    }
    r := Some(values);
  }

  method DecodeNext(buffer: Bytes, offset: nat, g: nat, ghost parts: seq<Part>, ghost values: seq<DecodedPart>,
                    ghost matched: bool)
    returns (d: Decoding)
    requires ValidParts(parts) && g <= 1074 && offset < |buffer| &&
             (matched ==> Splitting(buffer, parts, g, offset, values))
    ensures d.Decoded? ==> 1 <= d.read <= |buffer| - offset
    ensures matched ==> d.Decoded? && Splitting(buffer, parts, g, offset + d.read, values + [d.part])
  {
    if matched {
      SplitStep(buffer, parts, g, offset, values);
    }
    ghost var p := if matched then parts[|values|] else NullPart;
    d := DecodeValue(buffer, offset, g, p);
    if matched {
      SplitGrows(buffer, parts, g, offset, values, d.part);
    }
  }

  /** The values read restore the first parts, and the rest of the buffer is the key of the others. */
  ghost predicate Splitting(buffer: Bytes, parts: seq<Part>, g: nat, offset: nat, values: seq<DecodedPart>)
    requires ValidParts(parts) && g <= 1074
  {
    && offset <= |buffer| && |values| <= |parts| && buffer[offset..] == CompositeKey(parts[|values|..], [], g)
    && RestoresAll(values, parts, g)
  }

  ghost predicate RestoresAll(values: seq<DecodedPart>, parts: seq<Part>, g: nat)
    requires ValidParts(parts)
  {
    |values| <= |parts| && forall i :: 0 <= i < |values| ==> Restores(values[i], parts[i], g)
  }

  lemma SplitStart(buffer: Bytes, parts: seq<Part>, g: nat)
    requires ValidParts(parts) && g <= 1074 && buffer == CompositeKey(parts, [], g)
    ensures Splitting(buffer, parts, g, 0, [])
  {
    assert parts[0..] == parts && buffer[0..] == buffer;
  }

  lemma SplitStep(buffer: Bytes, parts: seq<Part>, g: nat, offset: nat, values: seq<DecodedPart>)
    requires ValidParts(parts) && g <= 1074 && offset < |buffer| && Splitting(buffer, parts, g, offset, values)
    ensures |values| < |parts| && Encode(parts[|values|], g) <= buffer[offset..]
    ensures offset + |Encode(parts[|values|], g)| <= |buffer|
    ensures buffer[offset + |Encode(parts[|values|], g)|..] == CompositeKey(parts[|values| + 1..], [], g)
  {
    var k := |values|;
    var left := parts[k..];
    assert left != [] && left[1..] == parts[k + 1..] && left[0] == parts[k];
    AscendingUnfolds(left, g);
    FrontAt(buffer, offset, Encode(parts[k], g), CompositeKey(parts[k + 1..], [], g));
  }

  lemma AscendingUnfolds(parts: seq<Part>, g: nat)
    requires ValidParts(parts) && g <= 1074 && parts != []
    ensures CompositeKey(parts, [], g) == Encode(parts[0], g) + CompositeKey(parts[1..], [], g)
  {
  }

  lemma FrontAt(buffer: Bytes, offset: nat, key: Bytes, more: Bytes)
    requires offset <= |buffer| && buffer[offset..] == key + more
    ensures key <= buffer[offset..] && offset + |key| <= |buffer| && buffer[offset + |key|..] == more
  {
    FrontOf(buffer[offset..], key, more);
    assert buffer[offset..][|key|..] == buffer[offset + |key|..];
  }

  lemma FrontOf(buffer: Bytes, key: Bytes, more: Bytes)
    requires buffer == key + more
    ensures key <= buffer && buffer[|key|..] == more
  {
  }

  lemma SplitGrows(buffer: Bytes, parts: seq<Part>, g: nat, offset: nat, values: seq<DecodedPart>, d: DecodedPart)
    requires ValidParts(parts) && g <= 1074 && offset < |buffer| && Splitting(buffer, parts, g, offset, values)
    requires |values| < |parts| && Restores(d, parts[|values|], g)
    ensures Splitting(buffer, parts, g, offset + |Encode(parts[|values|], g)|, values + [d])
  {
    SplitStep(buffer, parts, g, offset, values);
  }

  lemma SplitEnd(buffer: Bytes, parts: seq<Part>, g: nat, offset: nat, values: seq<DecodedPart>)
    requires ValidParts(parts) && g <= 1074 && Splitting(buffer, parts, g, offset, values)
    ensures offset == |buffer| <==> |values| == |parts|
  {
    if |values| < |parts| {
      EncodeStartsWithTag(parts[|values|], g);
    }
  }
}
