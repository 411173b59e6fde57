/** The variable-length unsigned integers of `encoding/binary`, as the codecs use them. */
module Varint {
  import opened Keys

  const U64: nat := 0x1_0000_0000_0000_0000

  function PutUvarint(x: nat): (b: Bytes)
    ensures |b| >= 1
  {
    if x < 0x80 then [x] else [x % 0x80 + 0x80] + PutUvarint(x / 0x80)
  }

  /** The value at the front of `buf` and the bytes it takes, where `i` bytes came before;
      `None` where the original reports zero or fewer bytes: buffer too small, or past 64 bits. */
  function Uvarint(buf: Bytes, i: nat := 0): (r: Option<(nat, nat)>)
    ensures r.Some? ==> 1 <= r.value.1 <= |buf|
    decreases |buf|
  {
    if buf == [] then None
    else if buf[0] < 0x80 then
      if i > 9 || (i == 9 && buf[0] > 1) then None else Some((buf[0], 1))
    else
      match Uvarint(buf[1..], i + 1)
      case None => None
      case Some((v, n)) => Some((buf[0] - 0x80 + 0x80 * v, n + 1))
  }

  function Pow128(i: nat): (p: nat)
    ensures p >= 1
  {
    if i == 0 then 1 else 0x80 * Pow128(i - 1)
  }

  /** Seven bits a byte, the least first, each byte but the last marked by its top bit, and no byte more than needed. */
  lemma UvarintBytes(x: nat, i: nat)
    ensures var b := PutUvarint(x);
            && (i < |b| ==> b[i] == x / Pow128(i) % 0x80 + if i < |b| - 1 then 0x80 else 0)
            && x < Pow128(|b|) && (|b| > 1 ==> x >= Pow128(|b| - 1))
  {
    hide PutUvarint, Pow128;
    UvarintSize(x);
    if i < |PutUvarint(x)| {
      UvarintByte(x, i);
    }
  }

  lemma {:induction false} UvarintByte(x: nat, i: nat)
    requires i < |PutUvarint(x)|
    ensures PutUvarint(x)[i] == x / Pow128(i) % 0x80 + if i < |PutUvarint(x)| - 1 then 0x80 else 0
    decreases i
  {
    if i > 0 {
      UvarintByte(x / 0x80, i - 1);
      SevenThen(x, Pow128(i - 1));
    }
  }

  lemma {:induction false} UvarintSize(x: nat)
    ensures x < Pow128(|PutUvarint(x)|) && (|PutUvarint(x)| > 1 ==> x >= Pow128(|PutUvarint(x)| - 1))
  {
    if x >= 0x80 {
      var n := |PutUvarint(x / 0x80)|;
      UvarintSize(x / 0x80);
      NextPower(n);
      if n > 1 {
        NextPower(n - 1);
      } else {
        NextPower(0);
      }
    } else {
      NextPower(0);
    }
  }

  lemma NextPower(i: nat)
    ensures Pow128(i + 1) == 0x80 * Pow128(i) && Pow128(0) == 1
  {
  }

  lemma SevenThen(x: nat, m: nat)
    requires m > 0
    ensures x / 0x80 / m == x / (0x80 * m)
  {
    var q, r := x / (0x80 * m), x % (0x80 * m);
    assert x == 0x80 * (m * q) + r;
    assert x / 0x80 == m * q + r / 0x80 && r / 0x80 < m;
    var d := x / 0x80 / m - q;
    assert m * d == r / 0x80 - x / 0x80 % m;
    assert d >= 1 ==> m * d >= m;
    assert d <= -1 ==> m * d + m <= 0;
  }

  /** What is left of 64 bits after `i` groups of seven. */
  function Room(i: nat): nat
    requires i <= 9
  {
    2 * Pow128(9 - i)
  }

  lemma RoomAtStart()
    ensures Room(0) == U64
  {
    assert Pow128(3) == 0x20_0000;
    assert Pow128(6) == 0x400_0000_0000;
    assert Pow128(9) == 0x8000_0000_0000_0000;
  }

  /** Reading back what was put returns the value and its length, whatever follows. */
  lemma UvarintRoundTrip(x: nat, rest: Bytes)
    requires x < U64
    ensures Uvarint(PutUvarint(x) + rest) == Some((x, |PutUvarint(x)|))
  {
    RoomAtStart();
    RoundTripFrom(x, 0, rest);
  }

  lemma {:induction false} RoundTripFrom(x: nat, i: nat, rest: Bytes)
    requires i <= 9 && x < Room(i)
    ensures Uvarint(PutUvarint(x) + rest, i) == Some((x, |PutUvarint(x)|))
  {
    var b := PutUvarint(x) + rest;
    if x >= 0x80 {
      assert Room(i) == 0x80 * Room(i + 1);
      RoundTripFrom(x / 0x80, i + 1, rest);
      assert b[1..] == PutUvarint(x / 0x80) + rest;
    }
  }

  lemma UvarintLength(x: nat)
    ensures x < 0x80 ==> |PutUvarint(x)| == 1
    ensures x < 0x1_0000_0000 ==> |PutUvarint(x)| <= 5
  {
    if x >= 0x80 {
      UvarintLength(x / 0x80);
      var y := x / 0x80 / 0x80;
      assert |PutUvarint(x)| <= 2 || |PutUvarint(x)| == 2 + |PutUvarint(y)|;
      assert |PutUvarint(y)| <= 2 || |PutUvarint(y)| == 2 + |PutUvarint(y / 0x80 / 0x80)|;
    }
  }

  /** A number below 128 to the power `i` takes at most `i` bytes; one of 64 bits at most ten. */
  lemma {:induction false} UvarintShort(x: nat, i: nat)
    requires 0 < i && x < Pow128(i)
    ensures |PutUvarint(x)| <= i
  {
    if x >= 0x80 {
      assert Pow128(i) == 0x80 * Pow128(i - 1);
      assert Pow128(0) == 1;
      UvarintShort(x / 0x80, i - 1);
    }
  }

  lemma UvarintTen(x: nat)
    requires x < U64
    ensures |PutUvarint(x)| <= 10
  {
    RoomAtStart();
    assert Pow128(10) == 0x80 * Pow128(9);
    UvarintShort(x, 10);
  }
}
