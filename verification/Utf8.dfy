/**
 UTF-8 text as the byte sequences that Rust's `String` can hold, and the lossy conversion
 `String::from_utf8_lossy` that every address decoder applies to a domain name.
*/
module Utf8 {
  import opened Bytes

  // U+FFFD REPLACEMENT CHARACTER.
  const REPLACEMENT: seq<byte> := [0xEF, 0xBF, 0xBD]

  datatype Scan = Scan(width: nat, valid: bool)

  predicate Continuation(b: byte) { 0x80 <= b < 0xC0 }

  predicate SecondOfThree(lead: byte, b: byte) {
    || (lead == 0xE0 && 0xA0 <= b <= 0xBF)
    || (0xE1 <= lead <= 0xEC && 0x80 <= b <= 0xBF)
    || (lead == 0xED && 0x80 <= b <= 0x9F)
    || (0xEE <= lead <= 0xEF && 0x80 <= b <= 0xBF)
  }

  predicate SecondOfFour(lead: byte, b: byte) {
    || (lead == 0xF0 && 0x90 <= b <= 0xBF)
    || (0xF1 <= lead <= 0xF3 && 0x80 <= b <= 0xBF)
    || (lead == 0xF4 && 0x80 <= b <= 0x8F)
  }

  // One step of the scanner: a whole code point, or the maximal invalid piece to replace.
  function ScanOne(s: seq<byte>): (r: Scan)
    requires s != []
    ensures 1 <= r.width <= |s| && r.width <= 4 && (!r.valid ==> r.width <= 3)
  {
    var lead := s[0];
    if lead < 0x80 then Scan(1, true)
    else if 0xC2 <= lead <= 0xDF then
      if 1 < |s| && Continuation(s[1]) then Scan(2, true) else Scan(1, false)
    else if 0xE0 <= lead <= 0xEF then
      if !(1 < |s| && SecondOfThree(lead, s[1])) then Scan(1, false)
      else if !(2 < |s| && Continuation(s[2])) then Scan(2, false)
      else Scan(3, true)
    else if 0xF0 <= lead <= 0xF4 then
      if !(1 < |s| && SecondOfFour(lead, s[1])) then Scan(1, false)
      else if !(2 < |s| && Continuation(s[2])) then Scan(2, false)
      else if !(3 < |s| && Continuation(s[3])) then Scan(3, false)
      else Scan(4, true)
    else Scan(1, false)
  }

  predicate ValidUtf8(s: seq<byte>) {
    s == [] || (var r := ScanOne(s); r.valid && ValidUtf8(s[r.width..]))
  }

  // A Rust String: its bytes are always valid UTF-8.
  type Text = s: seq<byte> | ValidUtf8(s)

  function Lossy(s: seq<byte>): (t: Text)
  {
    if s == [] then [] else
    var r := ScanOne(s);
    var head := if r.valid then s[..r.width] else REPLACEMENT;
    PrependValid(head, Lossy(s[r.width..]));
    head + Lossy(s[r.width..])
  }

  lemma PrependValid(head: seq<byte>, tail: seq<byte>)
    requires head != [] && ScanOne(head) == Scan(|head|, true) && ValidUtf8(tail)
    ensures ValidUtf8(head + tail)
  {
    assert (head + tail)[|head|..] == tail;
  }

  // Valid text survives the lossy conversion unchanged, and only valid text does.
  lemma {:induction false} LossyFixesExactlyValidText(s: seq<byte>)
    ensures ValidUtf8(s) <==> Lossy(s) == s
  {
    if s != [] {
      var r := ScanOne(s);
      if r.valid {
        LossyFixesExactlyValidText(s[r.width..]);
        assert s == s[..r.width] + s[r.width..];
        assert Lossy(s) == s[..r.width] + Lossy(s[r.width..]);
        assert Lossy(s)[r.width..] == Lossy(s[r.width..]);
      }
    }
  }

  // Nothing invalid is replaced by less than its own length.
  lemma {:induction false} LossyGrows(s: seq<byte>)
    ensures |s| <= |Lossy(s)|
  {
    if s != [] {
      LossyGrows(s[ScanOne(s).width..]);
    }
  }

  lemma {:induction false} LossyBounded(s: seq<byte>)
    ensures |Lossy(s)| <= 3 * |s|
  {
    if s != [] {
      LossyBounded(s[ScanOne(s).width..]);
    }
  }

  // A code point cut short is one invalid piece.
  lemma CutCodePoint(s: seq<byte>, k: nat)
    requires s != [] && ScanOne(s).valid && 0 < k < ScanOne(s).width
    ensures ScanOne(s[..k]) == Scan(k, false)
  {
  }

  // How much of the first k bytes of valid text is whole code points.
  function WholePart(s: Text, k: nat): (n: nat)
    requires k <= |s|
    ensures n <= k < n + 4
    decreases k
  {
    if k == 0 || k < ScanOne(s).width then 0
    else ScanOne(s).width + WholePart(s[ScanOne(s).width..], k - ScanOne(s).width)
  }

  lemma LossyStep(s: seq<byte>, w: nat)
    requires s != [] && ScanOne(s) == Scan(w, true)
    ensures Lossy(s) == s[..w] + Lossy(s[w..])
  {
  }

  lemma SameSlices(s: seq<byte>, w: nat, k: nat, n: nat)
    requires w <= k <= |s| && n <= k - w
    ensures s[..k][w..] == s[w..][..k - w] && s[..k][..w] == s[..w]
    ensures s[..w] + s[w..][..n] == s[..w + n]
  {
  }

  lemma CutLater(s: seq<byte>, w: nat, k: nat, n: nat, tail: seq<byte>)
    requires s != [] && ScanOne(s) == Scan(w, true) && w <= k <= |s| && n <= k - w
    requires Lossy(s[w..][..k - w]) == s[w..][..n] + tail
    ensures Lossy(s[..k]) == s[..w + n] + tail
  {
    SameFirst(s, k);
    SameSlices(s, w, k, n);
    LossyStep(s[..k], w);
    Assoc(s[..w], s[w..][..n], tail);
  }

  lemma CutFirst(s: seq<byte>, k: nat)
    requires s != [] && ScanOne(s).valid && 0 < k < ScanOne(s).width
    ensures Lossy(s[..k]) == REPLACEMENT == s[..0] + REPLACEMENT
  {
    CutCodePoint(s, k);
    assert s[..k][k..] == [];
    assert Lossy(s[..k]) == REPLACEMENT + Lossy([]);
  }

  // Cutting valid text anywhere keeps every whole code point and puts one replacement character for the one that was cut.
  lemma {:induction false} LossyOfCut(s: Text, k: nat)
    requires k <= |s|
    ensures Lossy(s[..k]) == s[..WholePart(s, k)] + if WholePart(s, k) == k then [] else REPLACEMENT
    decreases k
  {
    if k > 0 {
      var w := ScanOne(s).width;
      if k < w {
        CutFirst(s, k);
      } else {
        LossyOfCut(s[w..], k - w);
        var n := WholePart(s[w..], k - w);
        CutLater(s, w, k, n, if n == k - w then [] else REPLACEMENT);
      }
    }
  }

  lemma SameFirst(s: seq<byte>, k: nat)
    requires s != [] && ScanOne(s).valid && ScanOne(s).width <= k <= |s|
    ensures ScanOne(s[..k]) == ScanOne(s)
  {
  }

  // ---- Against the encoding itself (RFC 3629, section 3) ----

  // A Unicode scalar value.
  type Scalar = c: int | 0 <= c < 0xD800 || 0xE000 <= c < 0x11_0000

  function EncodeScalar(c: Scalar): (b: seq<byte>)
    ensures 1 <= |b| <= 4
  {
    if c < 0x80 then [c]
    else if c < 0x800 then [0xC0 + c / 0x40, 0x80 + c % 0x40]
    else if c < 0x1_0000 then [0xE0 + c / 0x40 / 0x40, 0x80 + c / 0x40 % 0x40, 0x80 + c % 0x40]
    else [0xF0 + c / 0x40 / 0x40 / 0x40, 0x80 + c / 0x40 / 0x40 % 0x40, 0x80 + c / 0x40 % 0x40, 0x80 + c % 0x40]
  }

  function EncodeScalars(cs: seq<Scalar>): seq<byte> {
    if cs == [] then [] else EncodeScalar(cs[0]) + EncodeScalars(cs[1..])
  }

  // The scanner takes exactly the encoding of a scalar value for a code point.
  lemma ScansEncoding(c: Scalar, tail: seq<byte>)
    ensures ScanOne(EncodeScalar(c) + tail) == Scan(|EncodeScalar(c)|, true)
  {
  }

  lemma ScannedIsEncoding(s: seq<byte>) returns (c: Scalar)
    requires s != [] && ScanOne(s).valid
    ensures s[..ScanOne(s).width] == EncodeScalar(c)
  {
    var w := ScanOne(s).width;
    if w == 1 {
      c := s[0];
    } else if w == 2 {
      c := SixBits(s[0] as int - 0xC0, s[1]);
    } else if w == 3 {
      var hi := SixBits(s[0] as int - 0xE0, s[1]);
      c := SixBits(hi, s[2]);
    } else {
      var top := SixBits(s[0] as int - 0xF0, s[1]);
      var hi := SixBits(top, s[2]);
      c := SixBits(hi, s[3]);
    }
  }

  // A continuation byte adds six bits.
  lemma SixBits(hi: nat, b: byte) returns (c: nat)
    requires Continuation(b)
    ensures c == hi * 0x40 + (b as int - 0x80) && c / 0x40 == hi && 0x80 + c % 0x40 == b as int
  {
    c := hi * 0x40 + (b as int - 0x80);
  }

  // Text is valid exactly if it encodes some sequence of scalar values.
  lemma {:induction false} EncodedIsValid(cs: seq<Scalar>)
    ensures ValidUtf8(EncodeScalars(cs))
  {
    if cs != [] {
      EncodedIsValid(cs[1..]);
      ScansEncoding(cs[0], []);
      assert EncodeScalar(cs[0]) + [] == EncodeScalar(cs[0]);
      PrependValid(EncodeScalar(cs[0]), EncodeScalars(cs[1..]));
    }
  }

  lemma {:induction false} ValidIsEncoded(s: seq<byte>) returns (cs: seq<Scalar>)
    requires ValidUtf8(s)
    ensures s == EncodeScalars(cs)
  {
    if s == [] {
      cs := [];
    } else {
      var c := ScannedIsEncoding(s);
      var rest := ValidIsEncoded(s[ScanOne(s).width..]);
      cs := [c] + rest;
      assert cs[1..] == rest;
      assert EncodeScalars(cs) == EncodeScalar(c) + EncodeScalars(rest);
      assert s == s[..ScanOne(s).width] + s[ScanOne(s).width..];
    }
  }

  lemma ValidExactlyWhen(s: seq<byte>)
    ensures ValidUtf8(s) <==> exists cs: seq<Scalar> :: s == EncodeScalars(cs)
  {
    if ValidUtf8(s) {
      var cs := ValidIsEncoded(s);
    }
    forall cs: seq<Scalar> | s == EncodeScalars(cs)
      ensures ValidUtf8(s)
    {
      EncodedIsValid(cs);
    }
  }

  // Begins the encoding of some scalar value.
  ghost predicate Begins(b: seq<byte>) { exists c: Scalar :: b <= EncodeScalar(c) }

  lemma ReplacementIsEncoded()
    ensures EncodeScalar(0xFFFD) == REPLACEMENT
  {
  }

  // What is replaced by one replacement character: the longest piece that begins an encoding, or a single byte that begins none.
  lemma ReplacedPiece(s: seq<byte>)
    requires s != [] && !ScanOne(s).valid
    ensures var w := ScanOne(s).width;
            && w <= |s| && (w > 1 ==> Begins(s[..w])) && (w < |s| && Begins(s[..1]) ==> !Begins(s[..w + 1]))
  {
    var w := ScanOne(s).width;
    if w > 1 {
      var c := Completed(s, w);
      assert s[..w] <= EncodeScalar(c);
    }
    if w < |s| {
      forall c: Scalar
        ensures !(s[..w + 1] <= EncodeScalar(c))
      {
        NotFurther(s, w, c);
      }
    }
  }

  // A scalar value whose encoding begins with the first w bytes.
  lemma Completed(s: seq<byte>, w: nat) returns (c: Scalar)
    requires s != [] && ScanOne(s) == Scan(w, false) && w > 1
    ensures s[..w] <= EncodeScalar(c)
  {
    if s[0] < 0xF0 {
      c := ScannedIsEncoding([s[0], s[1], 0x80]);
    } else if w == 2 {
      c := ScannedIsEncoding([s[0], s[1], 0x80, 0x80]);
    } else {
      c := ScannedIsEncoding([s[0], s[1], s[2], 0x80]);
    }
  }

  lemma NotFurther(s: seq<byte>, w: nat, c: Scalar)
    requires s != [] && ScanOne(s) == Scan(w, false) && w < |s|
    ensures !(s[..w + 1] <= EncodeScalar(c))
  {
    if s[..w + 1] <= EncodeScalar(c) {
      var e := EncodeScalar(c);
      ScansEncoding(c, []);
      assert e + [] == e;
      assert forall i | 0 <= i <= w :: s[i] == s[..w + 1][i] == e[i];
    }
  }
}
