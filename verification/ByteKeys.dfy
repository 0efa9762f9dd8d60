/** Keys in byte order: big-endian numbers of fixed width sort like the numbers. */
module ByteKeys {

  type Byte = x: int | 0 <= x < 256

  type Key = seq<Byte>

  const UINT64_LIMIT: nat := 0x1_0000_0000_0000_0000

  /** bytes.Compare(a, b) < 0 */
  predicate Less(a: Key, b: Key) {
    if b == [] then false
    else if a == [] then true
    else if a[0] != b[0] then a[0] < b[0]
    else Less(a[1..], b[1..])
  }

  /** 256 to the power n */
  function Radix(n: nat): (r: nat)
    ensures r > 0
  {
    if n == 0 then 1 else 256 * Radix(n - 1)
  }

  /** The last n bytes of v, the most significant one first. */
  function BigEndian(v: nat, n: nat): (k: Key)
    ensures |k| == n
  {
    if n == 0 then [] else BigEndian(v / 256, n - 1) + [v % 256]
  }

  /** The number a big-endian key stands for. */
  function Number(k: Key): nat {
    if k == [] then 0 else 256 * Number(k[..|k| - 1]) + k[|k| - 1]
  }

  lemma {:induction false} NumberOfBigEndian(v: nat, n: nat)
    requires v < Radix(n)
    ensures Number(BigEndian(v, n)) == v
  {
    if n > 0 {
      NumberOfBigEndian(v / 256, n - 1);
      assert BigEndian(v, n)[..n - 1] == BigEndian(v / 256, n - 1);
    }
  }

  lemma {:induction false} LessBySuffix(a: Key, b: Key, x: Byte, y: Byte)
    requires |a| == |b|
    ensures Less(a + [x], b + [y]) <==> Less(a, b) || (a == b && x < y)
  {
    if a == [] {
      assert a + [x] == [x] && b + [y] == [y];
    } else {
      assert (a + [x])[1..] == a[1..] + [x] && (b + [y])[1..] == b[1..] + [y];
      assert a == [a[0]] + a[1..] && b == [b[0]] + b[1..];
      LessBySuffix(a[1..], b[1..], x, y);
    }
  }

  /** Byte order is numeric order, for all numbers of n bytes. */
  lemma {:induction false} BigEndianOrder(u: nat, v: nat, n: nat)
    requires u < Radix(n) && v < Radix(n)
    ensures Less(BigEndian(u, n), BigEndian(v, n)) <==> u < v
    ensures BigEndian(u, n) == BigEndian(v, n) <==> u == v
  {
    NumberOfBigEndian(u, n);
    NumberOfBigEndian(v, n);
    if n > 0 {
      BigEndianOrder(u / 256, v / 256, n - 1);
      LessBySuffix(BigEndian(u / 256, n - 1), BigEndian(v / 256, n - 1), u % 256, v % 256);
    }
  }

  /** deploy.itob, with binary.BigEndian.PutUint64 spelled out: byte i is v shifted right by 56 - 8 * i bits. */
  method Itob(v: nat) returns (b: array<Byte>)
    requires v < UINT64_LIMIT
    ensures fresh(b) && b[..] == ItobKey(v)
  {
    b := new Byte[8](_ => 0);
    b[0] := v / 0x100_0000_0000_0000 % 256;
    b[1] := v / 0x1_0000_0000_0000 % 256;
    b[2] := v / 0x100_0000_0000 % 256;
    b[3] := v / 0x1_0000_0000 % 256;
    b[4] := v / 0x100_0000 % 256;
    b[5] := v / 0x1_0000 % 256;
    b[6] := v / 0x100 % 256;
    b[7] := v % 256;
    BigEndianBytes(v);
  }

  lemma BigEndianBytes(v: nat)
    ensures BigEndian(v, 8) == [
      v / 0x100_0000_0000_0000 % 256, v / 0x1_0000_0000_0000 % 256, v / 0x100_0000_0000 % 256, v / 0x1_0000_0000 % 256,
      v / 0x100_0000 % 256, v / 0x1_0000 % 256, v / 0x100 % 256, v % 256]
  {
    var u := v / 0x1_0000_0000;
    LastFourBytes(v, 8);
    LastFourBytes(u, 4);
    assert u / 0x100_0000 == v / 0x100_0000_0000_0000 && u / 0x1_0000 == v / 0x1_0000_0000_0000;
    assert u / 0x100 == v / 0x100_0000_0000;
    assert BigEndian(u / 0x1_0000_0000, 0) == [];
  }

  lemma LastFourBytes(v: nat, n: nat)
    requires n >= 4
    ensures BigEndian(v, n) == BigEndian(v / 0x1_0000_0000, n - 4) + [
      v / 0x100_0000 % 256, v / 0x1_0000 % 256, v / 0x100 % 256, v % 256]
  {
    var a, b, c := v / 0x100, v / 0x1_0000, v / 0x100_0000;
    assert a / 256 == b && b / 256 == c && c / 256 == v / 0x1_0000_0000;
    assert BigEndian(v, n) == BigEndian(a, n - 1) + [v % 256];
    assert BigEndian(a, n - 1) == BigEndian(b, n - 2) + [a % 256];
    assert BigEndian(b, n - 2) == BigEndian(c, n - 3) + [b % 256];
    assert BigEndian(c, n - 3) == BigEndian(c / 256, n - 4) + [c % 256];
  }

  /** The key of a history entry. */
  function ItobKey(v: nat): Key
    requires v < UINT64_LIMIT
  {
    BigEndian(v, 8)
  }

  /** The keys of uint64 numbers: distinct, and in byte order exactly when the numbers are in numeric order. */
  lemma ItobOrder(u: nat, v: nat)
    requires u < UINT64_LIMIT && v < UINT64_LIMIT
    ensures Less(ItobKey(u), ItobKey(v)) <==> u < v
    ensures ItobKey(u) == ItobKey(v) <==> u == v
  {
    Radix8();
    BigEndianOrder(u, v, 8);
  }

  lemma Radix8()
    ensures Radix(8) == UINT64_LIMIT
  {
    assert Radix(4) == 0x1_0000_0000;
  }
}
