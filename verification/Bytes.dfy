/** Bytes, big-endian integers and flattening: the vocabulary of every codec. */
module Bytes {
  type byte = x: int | 0 <= x < 0x100
  type u16 = x: int | 0 <= x < 0x1_0000
  type u32 = x: int | 0 <= x < 0x1_0000_0000

  datatype Option<+T> = None | Some(value: T)

  function U16Bytes(n: u16): (b: seq<byte>)
    ensures |b| == 2
  {
    [n / 0x100, n % 0x100]
  }

  function U16Of(b: seq<byte>): u16
    requires |b| == 2
  {
    b[0] as int * 0x100 + b[1] as int
  }

  function U32Bytes(n: u32): (b: seq<byte>)
    ensures |b| == 4
  {
    U16Bytes(n / 0x1_0000) + U16Bytes(n % 0x1_0000)
  }

  function U32Of(b: seq<byte>): u32
    requires |b| == 4
  {
    U16Of(b[..2]) as int * 0x1_0000 + U16Of(b[2..]) as int
  }

  lemma U32RoundTrip(n: u32)
    ensures U32Of(U32Bytes(n)) == n
  {
    assert U32Bytes(n)[..2] == U16Bytes(n / 0x1_0000);
    assert U32Bytes(n)[2..] == U16Bytes(n % 0x1_0000);
  }

  lemma U32Digits(n: u32)
    ensures U32Bytes(n) == [n / 0x100_0000, n / 0x1_0000 % 0x100, n / 0x100 % 0x100, n % 0x100]
  {
    assert n / 0x1_0000 / 0x100 == n / 0x100_0000;
    assert n % 0x1_0000 / 0x100 == n / 0x100 % 0x100 && n % 0x1_0000 % 0x100 == n % 0x100;
  }

  lemma U32Back(b: seq<byte>)
    requires |b| == 4
    ensures U32Bytes(U32Of(b)) == b
  {
    U16Back(b[..2]);
    U16Back(b[2..]);
  }

  lemma U16Back(b: seq<byte>)
    requires |b| == 2
    ensures U16Bytes(U16Of(b)) == b
  {
  }

  // The bytes of an ASCII literal.
  function Ascii(s: string): (b: seq<byte>)
    ensures |b| == |s|
  {
    seq(|s|, i requires 0 <= i < |s| => s[i] as int % 0x100)
  }

  function Flatten(chunks: seq<seq<byte>>): seq<byte> {
    if chunks == [] then [] else chunks[0] + Flatten(chunks[1..])
  }

  lemma Assoc<T>(a: seq<T>, b: seq<T>, c: seq<T>)
    ensures (a + b) + c == a + (b + c)
  {
  }

  lemma {:induction false} FlattenConcat(a: seq<seq<byte>>, b: seq<seq<byte>>)
    ensures Flatten(a + b) == Flatten(a) + Flatten(b)
  {
    if a == [] {
      assert a + b == b;
    } else {
      assert (a + b)[1..] == a[1..] + b;
      FlattenConcat(a[1..], b);
    }
  }

  lemma FlattenSnoc(a: seq<seq<byte>>, c: seq<byte>)
    ensures Flatten(a + [c]) == Flatten(a) + c
  {
    FlattenConcat(a, [c]);
    assert Flatten([c]) == c + Flatten([]);
  }

  lemma FlattenPrefix(a: seq<seq<byte>>, b: seq<seq<byte>>)
    requires a <= b
    ensures Flatten(a) <= Flatten(b)
  {
    FlattenConcat(a, b[|a|..]);
    assert b == a + b[|a|..];
  }

  // ---- util::constant_time_eq_bytes ----

  // Bitwise exclusive or, from the lowest bit up.
  function Xor(x: nat, y: nat): nat
    decreases x + y
  {
    if x == 0 && y == 0 then 0 else (if x % 2 == y % 2 then 0 else 1) + 2 * Xor(x / 2, y / 2)
  }

  // Bitwise or.
  function Or(x: nat, y: nat): nat
    decreases x + y
  {
    if x == 0 && y == 0 then 0 else (if x % 2 == 0 && y % 2 == 0 then 0 else 1) + 2 * Or(x / 2, y / 2)
  }

  lemma {:induction false} XorZero(x: nat, y: nat)
    ensures Xor(x, y) == 0 <==> x == y
    decreases x + y
  {
    if x != 0 || y != 0 {
      XorZero(x / 2, y / 2);
    }
  }

  lemma {:induction false} OrZero(x: nat, y: nat)
    ensures Or(x, y) == 0 <==> x == 0 && y == 0
    decreases x + y
  {
    if x != 0 || y != 0 {
      OrZero(x / 2, y / 2);
    }
  }

  // The accumulated difference of the fold; zero means no byte differed so far.
  function Diff(a: seq<byte>, b: seq<byte>): nat
    requires |a| == |b|
  {
    if a == [] then 0 else Or(Diff(a[..|a| - 1], b[..|b| - 1]), Xor(a[|a| - 1], b[|b| - 1]))
  }

  function ConstantTimeEq(a: seq<byte>, b: seq<byte>): bool {
    |a| == |b| && Diff(a, b) == 0
  }

  lemma DiffStep(a: seq<byte>, b: seq<byte>, k: nat)
    requires |a| == |b| == k + 1
    ensures Diff(a, b) == 0 <==> Diff(a[..k], b[..k]) == 0 && a[k] == b[k]
  {
    XorZero(a[k], b[k]);
    OrZero(Diff(a[..k], b[..k]), Xor(a[k], b[k]));
  }

  lemma LastByte(a: seq<byte>, b: seq<byte>, k: nat)
    requires |a| == |b| == k + 1
    ensures a == b <==> a[..k] == b[..k] && a[k] == b[k]
  {
    assert a == a[..k] + [a[k]] && b == b[..k] + [b[k]];
  }

  // Folding the differing bits of all bytes into one decides equality.
  lemma {:induction false} ConstantTimeEqDecidesEquality(a: seq<byte>, b: seq<byte>)
    ensures ConstantTimeEq(a, b) <==> a == b
  {
    if |a| == |b| && a != [] {
      var k := |a| - 1;
      ConstantTimeEqDecidesEquality(a[..k], b[..k]);
      DiffStep(a, b, k);
      LastByte(a, b, k);
    }
  }
}
