/**
 The text that encoding/json makes of a string: bytes that are no UTF-8 come out as U+FFFD, one for
 each byte.  A text is given by its own UTF-8 encoding.
 */
module Utf8 {

  newtype Byte = x: int | 0 <= x < 256

  type Bytes = seq<Byte>

  /** The encoding of U+FFFD. */
  const REPLACEMENT: Bytes := [0xEF, 0xBF, 0xBD]

  predicate Continues(x: Byte) {
    0x80 <= x <= 0xBF
  }

  /** How many bytes a character with this first byte has; 0 for a byte that begins none. */
  function Width(first: Byte): (w: nat)
    ensures w <= 4
  {
    if first < 0x80 then 1
    else if 0xC2 <= first <= 0xDF then 2
    else if 0xE0 <= first <= 0xEF then 3
    else if 0xF0 <= first <= 0xF4 then 4
    else 0
  }

  /** No overlong form, no surrogate, nothing above U+10FFFF. */
  predicate SecondFits(first: Byte, second: Byte) {
    && Continues(second)
    && (first == 0xE0 ==> second >= 0xA0)
    && (first == 0xED ==> second <= 0x9F)
    && (first == 0xF0 ==> second >= 0x90)
    && (first == 0xF4 ==> second <= 0x8F)
  }

  /** utf8.DecodeRune: the bytes begin with a whole character. */
  predicate BeginsChar(b: Bytes) {
    && b != []
    && var w := Width(b[0]);
       && 1 <= w <= |b|
       && (w > 1 ==> SecondFits(b[0], b[1]))
       && forall i | 2 <= i < w :: Continues(b[i])
  }

  /** The bytes one round of the encoder takes. */
  function Step(b: Bytes): (n: nat)
    requires b != []
    ensures 1 <= n <= |b| && n <= 4
  {
    if BeginsChar(b) then Width(b[0]) else 1
  }

  function Rendered(b: Bytes): Bytes
    requires b != []
  {
    if BeginsChar(b) then b[..Step(b)] else REPLACEMENT
  }

  function Text(b: Bytes): Bytes {
    if b == [] then [] else Rendered(b) + Text(b[Step(b)..])
  }

  /** The encoder comes by this place: no character of b spans it. */
  predicate Boundary(b: Bytes, k: nat) {
    k == 0 || (b != [] && Step(b) <= k && Boundary(b[Step(b)..], k - Step(b)))
  }

  /** UTF-8 throughout. */
  predicate Valid(b: Bytes) {
    b == [] || (BeginsChar(b) && Valid(b[Step(b)..]))
  }

  // ---------- The characters ----------

  /** A Unicode scalar value. */
  predicate IsScalar(c: int) {
    0 <= c < 0xD800 || 0xE000 <= c <= 0x10FFFF
  }

  /** Section 3 of RFC 3629. */
  function Encoding(c: int): Bytes
    requires IsScalar(c)
  {
    if c < 0x80 then [c as Byte]
    else if c < 0x800 then [(0xC0 + c / 64) as Byte, (0x80 + c % 64) as Byte]
    else if c < 0x10000 then [(0xE0 + c / 4096) as Byte, (0x80 + c / 64 % 64) as Byte, (0x80 + c % 64) as Byte]
    else [(0xF0 + c / 262144) as Byte, (0x80 + c / 4096 % 64) as Byte, (0x80 + c / 64 % 64) as Byte,
          (0x80 + c % 64) as Byte]
  }

  lemma EncodingBegins(c: int, b: Bytes)
    requires IsScalar(c) && Encoding(c) <= b
    ensures BeginsChar(b) && b[..Step(b)] == Encoding(c)
  {
    var e := Encoding(c);
    assert forall i | 0 <= i < |e| :: b[i] == e[i];
  }

  /** Sixes of bits, put together and taken apart. */
  lemma Sixes(x: int, y: int, z: int)
    requires 0 <= y < 64 && 0 <= z < 64
    ensures (64 * x + y) / 64 == x && (64 * x + y) % 64 == y
    ensures (4096 * x + 64 * y + z) / 4096 == x && (4096 * x + 64 * y + z) / 64 % 64 == y
    ensures (4096 * x + 64 * y + z) % 64 == z && (4096 * x + 64 * y + z) / 64 == 64 * x + y
  {}

  lemma TwoBytes(x: int, y: int)
    requires 2 <= x < 32 && 0 <= y < 64
    ensures var c := 64 * x + y; IsScalar(c) && Encoding(c) == [(0xC0 + x) as Byte, (0x80 + y) as Byte]
  {
    Sixes(x, y, 0);
  }

  lemma ThreeBytes(x: int, y: int, z: int)
    requires 0 <= x < 16 && 0 <= y < 64 && 0 <= z < 64 && (x == 0 ==> y >= 32) && (x == 13 ==> y < 32)
    ensures var c := 4096 * x + 64 * y + z;
            IsScalar(c) && Encoding(c) == [(0xE0 + x) as Byte, (0x80 + y) as Byte, (0x80 + z) as Byte]
  {
    Sixes(x, y, z);
  }

  lemma FourBytes(w: int, x: int, y: int, z: int)
    requires 0 <= w <= 4 && 0 <= x < 64 && 0 <= y < 64 && 0 <= z < 64 && (w == 0 ==> x >= 16) && (w == 4 ==> x < 16)
    ensures var c := 4096 * (64 * w + x) + 64 * y + z;
            && IsScalar(c)
            && Encoding(c) == [(0xF0 + w) as Byte, (0x80 + x) as Byte, (0x80 + y) as Byte, (0x80 + z) as Byte]
  {
    var c := 4096 * (64 * w + x) + 64 * y + z;
    Sixes(64 * w + x, y, z);
    Sixes(w, x, 0);
    assert c / 262144 == c / 4096 / 64;
  }

  lemma CharOf(b: Bytes) returns (c: int)
    requires BeginsChar(b)
    ensures IsScalar(c) && Encoding(c) == b[..Step(b)]
  {
    var w := Step(b);
    if w == 1 {
      c := b[0] as int;
    } else if w == 2 {
      var x, y := b[0] as int - 0xC0, b[1] as int - 0x80;
      TwoBytes(x, y);
      c := 64 * x + y;
    } else if w == 3 {
      var x, y, z := b[0] as int - 0xE0, b[1] as int - 0x80, b[2] as int - 0x80;
      ThreeBytes(x, y, z);
      c := 4096 * x + 64 * y + z;
    } else {
      var v, x, y, z := b[0] as int - 0xF0, b[1] as int - 0x80, b[2] as int - 0x80, b[3] as int - 0x80;
      FourBytes(v, x, y, z);
      c := 4096 * (64 * v + x) + 64 * y + z;
    }
  }

  /** What the encoder takes for a character is the encoding of a scalar value, and every one is taken for one. */
  lemma BeginsCharIff(b: Bytes)
    ensures BeginsChar(b) <==> exists c :: IsScalar(c) && Encoding(c) <= b
    ensures forall c | IsScalar(c) && Encoding(c) <= b :: Step(b) == |Encoding(c)|
  {
    if BeginsChar(b) {
      var c := CharOf(b);
      assert IsScalar(c) && Encoding(c) <= b;
    }
    forall c | IsScalar(c) && Encoding(c) <= b ensures BeginsChar(b) && Step(b) == |Encoding(c)| {
      EncodingBegins(c, b);
    }
  }

  // ---------- Cuts ----------

  /** What does not reach the end is encoded alike whatever follows. */
  lemma StepInside(a: Bytes, b: Bytes)
    requires a != [] && Step(a + b) <= |a|
    ensures Step(a) == Step(a + b) && Rendered(a) == Rendered(a + b)
    ensures (a + b)[Step(a + b)..] == a[Step(a)..] + b
  {
    assert (a + b)[0] == a[0];
    assert forall i | 0 <= i < |a| :: (a + b)[i] == a[i];
    if BeginsChar(a + b) {
      assert (a + b)[..Step(a)] == a[..Step(a)];
    }
  }

  /** A first byte of a longer character, or a byte that only continues one, is lost on its own. */
  lemma LoneByte(b: Bytes)
    requires b != [] && !BeginsChar(b)
    ensures Text(b) == REPLACEMENT + Text(b[1..])
  {}

  lemma {:induction false} LostBytes(b: Bytes, k: nat)
    requires k <= |b| && forall i | 0 <= i < k :: Continues(b[i])
    ensures |Text(b)| == 3 * k + |Text(b[k..])|
  {
    if k > 0 {
      assert Continues(b[0]);
      LoneByte(b);
      assert forall i | 0 <= i < k - 1 :: b[1..][i] == b[i + 1];
      LostBytes(b[1..], k - 1);
      assert b[1..][k - 1..] == b[k..];
    }
  }

  lemma LostFront(a: Bytes)
    requires a != [] && !BeginsChar(a) && forall i | 1 <= i < |a| :: Continues(a[i])
    ensures |Text(a)| == 3 * |a|
  {
    LoneByte(a);
    assert forall i | 0 <= i < |a| - 1 :: a[1..][i] == a[i + 1];
    LostBytes(a[1..], |a| - 1);
  }

  /** The bytes of a character after its first one are lost without it. */
  lemma RestContinues(a: Bytes, b: Bytes)
    requires a != [] && Step(a + b) > |a|
    ensures BeginsChar(a + b) && !BeginsChar(a)
    ensures forall i | 1 <= i < |a| :: Continues(a[i])
    ensures forall i | 0 <= i < Step(a + b) - |a| :: Continues(b[i])
  {
    var c := a + b;
    assert c[0] == a[0];
    assert forall i | 0 <= i < |a| :: c[i] == a[i];
    assert forall i | 0 <= i < |b| :: c[|a| + i] == b[i];
  }

  lemma WholeChar(c: Bytes)
    requires BeginsChar(c)
    ensures |Text(c)| == Step(c) + |Text(c[Step(c)..])|
  {}

  lemma DropBoth(a: Bytes, b: Bytes, n: nat)
    requires |a| <= n <= |a + b|
    ensures (a + b)[n..] == b[n - |a|..]
  {}

  /** A character cut in two: all its bytes are replaced. */
  lemma CutInside(a: Bytes, b: Bytes)
    requires a != [] && Step(a + b) > |a|
    ensures |Text(a)| + |Text(b)| == |Text(a + b)| + 2 * Step(a + b)
  {
    RestContinues(a, b);
    LostFront(a);
    LostBytes(b, Step(a + b) - |a|);
    DropBoth(a, b, Step(a + b));
    WholeChar(a + b);
  }

  /** Two pieces encoded apart give the text of both exactly when the cut is a boundary; else the text is longer. */
  lemma {:induction false} CutIsCleanIff(a: Bytes, b: Bytes)
    ensures Boundary(a + b, |a|) ==> Text(a) + Text(b) == Text(a + b)
    ensures !Boundary(a + b, |a|) ==> |Text(a)| + |Text(b)| > |Text(a + b)|
  {
    if a == [] {
      assert a + b == b;
    } else if Step(a + b) > |a| {
      CutInside(a, b);
    } else {
      StepInside(a, b);
      CutIsCleanIff(a[Step(a)..], b);
      JoinTexts(Rendered(a), Text(a[Step(a)..]), Text(b));
    }
  }

  lemma JoinTexts(x: Bytes, y: Bytes, z: Bytes)
    ensures (x + y) + z == x + (y + z)
  {}

  /** Boundaries before a boundary do not depend on what follows it. */
  lemma {:induction false} BoundaryBefore(a: Bytes, b: Bytes, k: nat)
    requires Boundary(a + b, |a|) && k <= |a|
    ensures Boundary(a + b, k) <==> Boundary(a, k)
  {
    if k > 0 {
      StepInside(a, b);
      var n := Step(a);
      if n <= k {
        BoundaryBefore(a[n..], b, k - n);
      }
    }
  }

  /** In UTF-8 a place is a boundary unless a continuation byte comes next. */
  lemma {:induction false} BoundaryIff(b: Bytes, k: nat)
    requires Valid(b) && k <= |b|
    ensures Boundary(b, k) <==> k == |b| || !Continues(b[k])
  {
    if k == 0 {
      assert b == [] || !Continues(b[0]);
    } else if Step(b) <= k {
      BoundaryIff(b[Step(b)..], k - Step(b));
    } else {
      assert Continues(b[k]);
    }
  }

  /** UTF-8 is its own text. */
  lemma {:induction false} ValidIsItsText(b: Bytes)
    ensures Valid(b) ==> Text(b) == b
  {
    if b != [] && BeginsChar(b) {
      ValidIsItsText(b[Step(b)..]);
    }
  }

  // ---------- Many pieces ----------

  function Flatten(pieces: seq<Bytes>): Bytes {
    if pieces == [] then [] else Flatten(pieces[..|pieces| - 1]) + pieces[|pieces| - 1]
  }

  /** The pieces' texts one after the other. */
  function Texts(pieces: seq<Bytes>): Bytes {
    if pieces == [] then [] else Texts(pieces[..|pieces| - 1]) + Text(pieces[|pieces| - 1])
  }

  lemma OnePieceMore(pieces: seq<Bytes>, piece: Bytes)
    ensures Flatten(pieces + [piece]) == Flatten(pieces) + piece
    ensures Texts(pieces + [piece]) == Texts(pieces) + Text(piece)
  {
    assert (pieces + [piece])[..|pieces|] == pieces;
  }

  /** No piece ends within a character of the whole. */
  predicate CleanCuts(pieces: seq<Bytes>) {
    forall i | 0 <= i <= |pieces| :: Boundary(Flatten(pieces), |Flatten(pieces[..i])|)
  }

  lemma CleanCutsLast(pieces: seq<Bytes>)
    requires pieces != []
    ensures var most := pieces[..|pieces| - 1];
            CleanCuts(pieces) <==>
            CleanCuts(most) && Boundary(Flatten(pieces), |Flatten(most)|)
              && Boundary(Flatten(pieces), |Flatten(pieces)|)
  {
    var most, last := pieces[..|pieces| - 1], pieces[|pieces| - 1];
    assert pieces[..|pieces|] == pieces;
    forall i | 0 <= i < |pieces|
      ensures pieces[..i] == most[..i] && |Flatten(pieces[..i])| <= |Flatten(most)|
    {
      assert pieces[..i] == most[..i];
      FlattenGrows(most, i);
    }
    if Boundary(Flatten(pieces), |Flatten(most)|) {
      forall i | 0 <= i < |pieces|
        ensures Boundary(Flatten(pieces), |Flatten(pieces[..i])|) <==> Boundary(Flatten(most), |Flatten(most[..i])|)
      {
        BoundaryBefore(Flatten(most), last, |Flatten(most[..i])|);
      }
    }
  }

  lemma {:induction false} FlattenGrows(pieces: seq<Bytes>, i: nat)
    requires i <= |pieces|
    ensures |Flatten(pieces[..i])| <= |Flatten(pieces)|
  {
    if i == |pieces| {
      assert pieces[..i] == pieces;
    } else {
      FlattenGrows(pieces[..|pieces| - 1], i);
      assert pieces[..|pieces| - 1][..i] == pieces[..i];
    }
  }

  lemma {:induction false} EndIsBoundary(b: Bytes)
    ensures Boundary(b, |b|)
  {
    if b != [] {
      EndIsBoundary(b[Step(b)..]);
    }
  }

  /**
   Pieces encoded one by one give the text of the whole exactly when none is cut off within a
   character; otherwise the text comes out longer, by replacement characters.
   */
  lemma {:induction false} TextsJoinIff(pieces: seq<Bytes>)
    ensures |Texts(pieces)| >= |Text(Flatten(pieces))|
    ensures Texts(pieces) == Text(Flatten(pieces)) <==> CleanCuts(pieces)
    ensures |Texts(pieces)| == |Text(Flatten(pieces))| <==> CleanCuts(pieces)
  {
    if pieces != [] {
      var most, last := pieces[..|pieces| - 1], pieces[|pieces| - 1];
      TextsJoinIff(most);
      CutIsCleanIff(Flatten(most), last);
      CleanCutsLast(pieces);
      EndIsBoundary(Flatten(pieces));
    }
  }
}
