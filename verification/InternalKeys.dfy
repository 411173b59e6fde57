/** Internal keys as bytes: the codec, their order, and the shortened keys of `Separator` and `Successor`. */
module InternalKeys {
  import opened Keys
  import opened MemDb

  // ----- comparer.DefaultComparer

  /** `bytes.Compare`. */
  function LexCompare(a: Bytes, b: Bytes): (c: int) {
    if a == [] then (if b == [] then 0 else -1)
    else if b == [] then 1
    else if a[0] != b[0] then (if a[0] < b[0] then -1 else 1)
    else LexCompare(a[1..], b[1..])
  }

  lemma {:induction false} LexEqual(a: Bytes, b: Bytes)
    ensures LexCompare(a, b) == 0 <==> a == b
    ensures LexCompare(a, b) == -LexCompare(b, a)
  {
    if a != [] && b != [] {
      LexEqual(a[1..], b[1..]);
      assert a[0] == b[0] && a[1..] == b[1..] ==> a == [a[0]] + a[1..] == b;
    }
  }

  lemma {:induction false} LexTransitive(a: Bytes, b: Bytes, c: Bytes)
    requires LexCompare(a, b) < 0 && LexCompare(b, c) < 0
    ensures LexCompare(a, c) < 0
    decreases |a|
  {
    if a != [] && a[0] == b[0] == c[0] {
      LexTransitive(a[1..], b[1..], c[1..]);
    }
  }

  lemma LexIsTotalOrder()
    ensures TotalOrder(LexCompare)
  {
    forall a, b ensures LexCompare(a, b) == 0 <==> a == b ensures LexCompare(a, b) < 0 <==> LexCompare(b, a) > 0 {
      LexEqual(a, b);
    }
    forall a, b, c | LexCompare(a, b) < 0 && LexCompare(b, c) < 0 ensures LexCompare(a, c) < 0 {
      LexTransitive(a, b, c);
    }
  }

  /** Where two strings first differ decides. */
  lemma {:induction false} FirstDifference(a: Bytes, b: Bytes, i: nat)
    requires i <= |a| && i < |b| && a[..i] == b[..i] && (i == |a| || a[i] < b[i])
    ensures LexCompare(a, b) < 0
    decreases i
  {
    if i > 0 {
      assert a[0] == a[..i][0] == b[..i][0] == b[0];
      assert a[1..][..i - 1] == a[..i][1..] == b[1..][..i - 1];
      FirstDifference(a[1..], b[1..], i - 1);
    }
  }

  /** At their first difference, at `i`, the bytes of `a` and `b` leave room for one between them. */
  predicate RoomBetween(a: Bytes, b: Bytes, i: nat) {
    i < |a| && i < |b| && a[..i] == b[..i] && (a[i] as int) + 1 < b[i]
  }

  lemma OnlyDifference(a: Bytes, b: Bytes, i: nat, j: nat)
    requires RoomBetween(a, b, j) && i <= |a| && i <= |b| && a[..i] == b[..i] && (i == |a| || i == |b| || a[i] != b[i])
    ensures i == j
  {
    assert forall k :: 0 <= k < i ==> a[k] == a[..i][k] == b[k];
    assert forall k :: 0 <= k < j ==> a[k] == a[..j][k] == b[k];
  }

  /** The first byte that is not 0xff is at `i`. */
  predicate RoomAbove(b: Bytes, i: nat) {
    i < |b| && b[i] != 0xff && forall j :: 0 <= j < i ==> b[j] == 0xff
  }

  /** `x` up to place `i`, the byte there raised by one. */
  function Raised(x: Bytes, i: nat): Bytes
    requires i < |x| && x[i] < 0xff
  {
    x[..i] + [x[i] + 1]
  }

  /** A key strictly between `a` and `b` that is no longer than `a`, when the first difference leaves room. */
  method Separator(a: Bytes, b: Bytes) returns (r: Option<Bytes>)
    ensures r.Some? ==> |r.value| <= |a| && LexCompare(a, r.value) < 0 && LexCompare(r.value, b) < 0
    ensures r.Some? <==> exists i: nat :: RoomBetween(a, b, i)
    ensures forall i: nat :: RoomBetween(a, b, i) ==> r == Some(Raised(a, i))
  {
    var i, n := 0, |a|;
    if n > |b| {
      n := |b|;
    }
    while i < n && a[i] == b[i]
      invariant i <= n && a[..i] == b[..i]
    {
      assert a[..i + 1] == a[..i] + [a[i]] && b[..i + 1] == b[..i] + [b[i]];
      i := i + 1;
    }
    forall j: nat | RoomBetween(a, b, j)
      ensures j == i
    {
      OnlyDifference(a, b, i, j);
    }
    if i < n {
      var c: int := a[i];
      if c < 0xff && c + 1 < b[i] {
        var dst := a[..i + 1][i := a[i] + 1];
        assert RoomBetween(a, b, i) && dst == Raised(a, i);
        FirstDifference(a, dst, i);
        FirstDifference(dst, b, i);
        return Some(dst);
      }
    }
    return None;
  }

  /** A key after `b` that is no longer than `b`, unless all its bytes are 0xff. */
  method Successor(b: Bytes) returns (r: Option<Bytes>)
    ensures r.Some? ==> |r.value| <= |b| && LexCompare(b, r.value) < 0
    ensures r.Some? <==> exists i :: 0 <= i < |b| && b[i] != 0xff
    ensures forall i: nat :: RoomAbove(b, i) ==> r == Some(Raised(b, i))
  {
    for i := 0 to |b|
      invariant forall j :: 0 <= j < i ==> b[j] == 0xff
    {
      if b[i] != 0xff {
        var dst := b[..i + 1][i := b[i] + 1];
        assert dst == Raised(b, i);
        FirstDifference(b, dst, i);
        return Some(dst);
      }
    }
    return None;
  }

  // ----- the codec

  const KEY_MAX_NUM: nat := KEY_MAX_SEQ * 256 + 1

  /** `binary.LittleEndian.PutUint64`. */
  function PutFixed(x: nat, n: nat): (b: Bytes)
    ensures |b| == n
    decreases n
  {
    if n == 0 then [] else [x % 256] + PutFixed(x / 256, n - 1)
  }

  function Fixed(b: Bytes): (x: nat) {
    if b == [] then 0 else b[0] + 256 * Fixed(b[1..])
  }

  function Pow256(n: nat): (p: nat)
    ensures p >= 1
  {
    if n == 0 then 1 else 256 * Pow256(n - 1)
  }

  /** Least byte first. */
  lemma {:induction false} FixedDigit(x: nat, n: nat, i: nat)
    requires i < n
    ensures PutFixed(x, n)[i] == x / Pow256(i) % 256
    decreases n
  {
    if i > 0 {
      FixedDigit(x / 256, n - 1, i - 1);
      TwoDivisions(x, Pow256(i - 1));
    }
  }

  lemma TwoDivisions(x: nat, m: nat)
    requires m > 0
    ensures x / 256 / m == x / (256 * m)
  {
    var q, r := x / (256 * m), x % (256 * m);
    assert x == 256 * (m * q) + r;
    assert x / 256 == m * q + r / 256 && r / 256 < m;
    var d := x / 256 / m - q;
    assert m * d == r / 256 - x / 256 % m;
    assert d >= 1 ==> m * d >= m;
    assert d <= -1 ==> m * d + m <= 0;
  }

  lemma {:induction false} FixedRoundTrip(x: nat, n: nat)
    requires x < Pow256(n)
    ensures Fixed(PutFixed(x, n)) == x
    decreases n
  {
    if n > 0 {
      FixedRoundTrip(x / 256, n - 1);
    }
  }

  lemma {:induction false} FixedUnique(b: Bytes)
    ensures PutFixed(Fixed(b), |b|) == b && Fixed(b) < Pow256(|b|)
  {
    if b != [] {
      FixedUnique(b[1..]);
      assert Fixed(b) % 256 == b[0] && Fixed(b) / 256 == Fixed(b[1..]);
    }
  }

  function KindNum(kt: KeyType): nat {
    if kt.Val? then 1 else 0
  }

  /** `makeInternalKey`; `None` where the original panics. */
  function MakeInternalKey(ukey: Bytes, sn: nat, kt: KeyType): Option<Bytes> {
    if sn > KEY_MAX_SEQ then None else Some(ukey + PutFixed(sn * 256 + KindNum(kt), 8))
  }

  /** The eight bytes behind the user key: 1 for a value or 0 for a deletion, then the sequence number, least byte first. */
  lemma InternalKeyBytes(ukey: Bytes, sn: nat, kt: KeyType, i: nat)
    requires i < 7
    ensures var k := MakeInternalKey(ukey, sn, kt);
            && (k.Some? <==> sn < 0x100_0000_0000_0000)
            && (k.Some? ==> |k.value| == |ukey| + 8 && k.value[..|ukey|] == ukey
                            && k.value[|ukey|] == (if kt.Val? then 1 else 0) && k.value[|ukey| + 1 + i] == sn / Pow256(i) % 256)
  {
    hide PutFixed, Pow256;
    var num := sn * 256 + KindNum(kt);
    FixedDigit(num, 8, 0);
    FixedDigit(num, 8, i + 1);
    NextDigit(num, i);
    assert num % 256 == KindNum(kt) && num / 256 == sn;
  }

  lemma NextDigit(num: nat, i: nat)
    ensures num / Pow256(0) == num && num / Pow256(i + 1) == num / 256 / Pow256(i)
  {
    TwoDivisions(num, Pow256(i));
  }

  datatype ParsedKey = Parsed(ukey: Bytes, sn: nat, kt: KeyType) | InvalidLength | InvalidType

  function UserKey(ik: Bytes): Bytes
    requires |ik| >= 8
  {
    ik[..|ik| - 8]
  }

  function KeyNum(ik: Bytes): nat
    requires |ik| >= 8
  {
    Fixed(ik[|ik| - 8..])
  }

  function ParseInternalKey(ik: Bytes): ParsedKey {
    if |ik| < 8 then InvalidLength
    else
      var num := KeyNum(ik);
      if num % 256 > 1 then InvalidType else Parsed(UserKey(ik), num / 256, if num % 256 == 1 then Val else Del)
  }

  lemma NumFits(sn: nat, kt: KeyType)
    requires sn <= KEY_MAX_SEQ
    ensures sn * 256 + KindNum(kt) < Pow256(8)
  {
    EightBytes();
  }

  /** What is made is parsed back, and only what parses is a made key. */
  lemma ParseMakeInverse(ukey: Bytes, sn: nat, kt: KeyType, ik: Bytes)
    ensures MakeInternalKey(ukey, sn, kt) == Some(ik) <==> ParseInternalKey(ik) == Parsed(ukey, sn, kt)
  {
    hide *;
    if MakeInternalKey(ukey, sn, kt) == Some(ik) {
      MadeParses(ukey, sn, kt, ik);
    }
    if ParseInternalKey(ik) == Parsed(ukey, sn, kt) {
      ParsedIsMade(ukey, sn, kt, ik);
    }
  }

  lemma MadeParses(ukey: Bytes, sn: nat, kt: KeyType, ik: Bytes)
    requires MakeInternalKey(ukey, sn, kt) == Some(ik)
    ensures ParseInternalKey(ik) == Parsed(ukey, sn, kt)
  {
    hide PutFixed, Fixed, Pow256, UserKey, KeyNum;
    NumFits(sn, kt);
    var num := sn * 256 + KindNum(kt);
    FixedRoundTrip(num, 8);
    assert num % 256 == KindNum(kt) && num / 256 == sn;
    KeyParts(ukey, PutFixed(num, 8));
  }

  lemma KeyParts(ukey: Bytes, tail: Bytes)
    requires |tail| == 8
    ensures UserKey(ukey + tail) == ukey && KeyNum(ukey + tail) == Fixed(tail)
  {
    hide Fixed;
    assert (ukey + tail)[|ukey|..] == tail;
  }

  lemma ParsedIsMade(ukey: Bytes, sn: nat, kt: KeyType, ik: Bytes)
    requires ParseInternalKey(ik) == Parsed(ukey, sn, kt)
    ensures MakeInternalKey(ukey, sn, kt) == Some(ik)
  {
    hide PutFixed, Fixed, Pow256;
    var tail := ik[|ik| - 8..];
    FixedUnique(tail);
    EightBytes();
    assert ik == UserKey(ik) + tail;
    hide UserKey;
    NumberParts(Fixed(tail));
    assert sn * 256 + KindNum(kt) == Fixed(tail);
  }

  lemma NumberParts(num: nat)
    ensures num / 256 * 256 + num % 256 == num
  {
  }

  lemma EightBytes()
    ensures Pow256(8) == 0x1_0000_0000_0000_0000
  {
    assert Pow256(4) == 0x1_0000_0000;
  }

  // ----- the order

  /** `iComparer.Compare`; short keys make the original panic. */
  function ICompare(ucmp: Cmp, a: Bytes, b: Bytes): int
    requires |a| >= 8 && |b| >= 8
  {
    var x := ucmp(UserKey(a), UserKey(b));
    if x == 0 then
      var m, n := KeyNum(a), KeyNum(b);
      if m > n then -1 else if m < n then 1 else x
    else x
  }

  /** `iComparer.Compare` totally orders internal keys. */
  lemma ICompareOrders(ucmp: Cmp, a: Bytes, b: Bytes, c: Bytes)
    requires TotalOrder(ucmp) && |a| >= 8 && |b| >= 8 && |c| >= 8
    ensures ICompare(ucmp, a, b) == 0 <==> a == b
    ensures ICompare(ucmp, a, b) < 0 <==> ICompare(ucmp, b, a) > 0
    ensures ICompare(ucmp, a, b) < 0 && ICompare(ucmp, b, c) < 0 ==> ICompare(ucmp, a, c) < 0
  {
    hide PutFixed, Fixed;
    FixedUnique(a[|a| - 8..]);
    FixedUnique(b[|b| - 8..]);
    assert a == UserKey(a) + a[|a| - 8..] && b == UserKey(b) + b[|b| - 8..];
  }

  /** `ICompare` continued to strings that are no internal keys, which never reach it. */
  function ICompareAll(ucmp: Cmp, a: Bytes, b: Bytes): int {
    if |a| >= 8 && |b| >= 8 then ICompare(ucmp, a, b)
    else if |a| < 8 && |b| < 8 then LexCompare(a, b)
    else if |a| < 8 then -1
    else 1
  }

  /** So the skip list and the manifest may be ordered by internal keys. */
  lemma InternalOrderIsTotal(ucmp: Cmp)
    requires TotalOrder(ucmp)
    ensures TotalOrder((a, b) => ICompareAll(ucmp, a, b))
  {
    hide *;
    LexIsTotalOrder();
    forall a, b, c
      ensures ICompareAll(ucmp, a, b) == 0 <==> a == b
      ensures ICompareAll(ucmp, a, b) < 0 <==> ICompareAll(ucmp, b, a) > 0
      ensures ICompareAll(ucmp, a, b) < 0 && ICompareAll(ucmp, b, c) < 0 ==> ICompareAll(ucmp, a, c) < 0
    {
      AllOrders(ucmp, a, b, c);
    }
    FromLaws((a, b) => ICompareAll(ucmp, a, b));
  }

  lemma FromLaws(cmp: Cmp)
    requires forall a, b :: cmp(a, b) == 0 <==> a == b
    requires forall a, b :: cmp(a, b) < 0 <==> cmp(b, a) > 0
    requires forall a, b, c :: cmp(a, b) < 0 && cmp(b, c) < 0 ==> cmp(a, c) < 0
    ensures TotalOrder(cmp)
  {
  }

  lemma AllOrders(ucmp: Cmp, a: Bytes, b: Bytes, c: Bytes)
    requires TotalOrder(ucmp) && TotalOrder(LexCompare)
    ensures ICompareAll(ucmp, a, b) == 0 <==> a == b
    ensures ICompareAll(ucmp, a, b) < 0 <==> ICompareAll(ucmp, b, a) > 0
    ensures ICompareAll(ucmp, a, b) < 0 && ICompareAll(ucmp, b, c) < 0 ==> ICompareAll(ucmp, a, c) < 0
  {
    hide ICompare, LexCompare;
    if |a| >= 8 && |b| >= 8 {
      ICompareOrders(ucmp, a, b, if |c| >= 8 then c else a);
    }
  }

  /** The rank of a user key among finitely many. */
  ghost function RankIn(ucmp: Cmp, keys: set<Bytes>, u: Bytes): nat {
    |set k | k in keys && ucmp(k, u) < 0|
  }

  lemma RankKeepsOrder(ucmp: Cmp, keys: set<Bytes>, u: Bytes, v: Bytes)
    requires TotalOrder(ucmp) && u in keys && v in keys && ucmp(u, v) < 0
    ensures RankIn(ucmp, keys, u) < RankIn(ucmp, keys, v)
  {
    var below, above := set k | k in keys && ucmp(k, u) < 0, set k | k in keys && ucmp(k, v) < 0;
    assert u in above && u !in below;
    assert below <= above - {u};
    Smaller(below, above - {u});
  }

  lemma {:induction false} Smaller(a: set<Bytes>, b: set<Bytes>)
    requires a <= b
    ensures |a| <= |b|
  {
    if a != {} {
      var x :| x in a;
      Smaller(a - {x}, b - {x});
    }
  }

  /** The store modules' order on entries, whose user keys are ranks, is the order of the encoded keys. */
  lemma RanksKeepInternalOrder(ucmp: Cmp, keys: set<Bytes>, a: Bytes, b: Bytes, pa: ParsedKey, pb: ParsedKey, va: Bytes, vb: Bytes)
    requires TotalOrder(ucmp) && pa == ParseInternalKey(a) && pb == ParseInternalKey(b) && pa.Parsed? && pb.Parsed?
    requires pa.ukey in keys && pb.ukey in keys
    ensures ICompare(ucmp, a, b) < 0 <==>
            Less(Entry(RankIn(ucmp, keys, pa.ukey), pa.sn, pa.kt, va), Entry(RankIn(ucmp, keys, pb.ukey), pb.sn, pb.kt, vb))
  {
    hide RankIn;
    if ucmp(pa.ukey, pb.ukey) < 0 {
      RankKeepsOrder(ucmp, keys, pa.ukey, pb.ukey);
    } else if ucmp(pb.ukey, pa.ukey) < 0 {
      RankKeepsOrder(ucmp, keys, pb.ukey, pa.ukey);
    }
  }

  /** The number of the earliest internal key of a user key. */
  function MaxNumBytes(): (b: Bytes)
    ensures |b| == 8
  {
    PutFixed(KEY_MAX_NUM, 8)
  }

  /** The largest number behind a user key: the first in order. */
  lemma MaxNumIs()
    ensures MaxNumBytes() == [1, 0xff, 0xff, 0xff, 0xff, 0xff, 0xff, 0xff]
  {
    SevenBytes();
    AllOnes(KEY_MAX_SEQ, 7);
    assert PutFixed(KEY_MAX_NUM, 8) == [1] + PutFixed(KEY_MAX_SEQ, 7);
    hide PutFixed, Pow256;
  }

  lemma SevenBytes()
    ensures KEY_MAX_SEQ == Pow256(7) - 1
  {
    assert Pow256(4) == 0x1_0000_0000;
  }

  lemma {:induction false} AllOnes(x: nat, n: nat)
    requires x == Pow256(n) - 1
    ensures forall i :: 0 <= i < n ==> PutFixed(x, n)[i] == 0xff
    decreases n
  {
    if n > 0 {
      assert x % 256 == 0xff && x / 256 == Pow256(n - 1) - 1;
      AllOnes(x / 256, n - 1);
    }
  }

  /** Where some byte is not 0xff there is a first one. */
  lemma {:induction false} FirstAbove(b: Bytes)
    ensures (exists i :: 0 <= i < |b| && b[i] != 0xff) ==> exists i: nat :: RoomAbove(b, i)
  {
    if b != [] {
      if b[0] != 0xff {
        assert RoomAbove(b, 0);
      } else {
        FirstAbove(b[1..]);
        if i: nat :| RoomAbove(b[1..], i) {
          assert RoomAbove(b, i + 1);
        }
      }
    }
  }

  /** `iComparer.Separator` over the default comparer: shorter than `a` and strictly between. */
  method ISeparator(a: Bytes, b: Bytes) returns (r: Option<Bytes>)
    requires |a| >= 8 && |b| >= 8
    ensures r.Some? ==> 8 <= |r.value| < |a| && ICompare(LexCompare, a, r.value) < 0 && ICompare(LexCompare, r.value, b) < 0
    ensures r.Some? ==> LexCompare(UserKey(a), UserKey(r.value)) < 0 && LexCompare(UserKey(r.value), UserKey(b)) < 0
    ensures r.Some? <==> exists i: nat :: i + 1 < |UserKey(a)| && RoomBetween(UserKey(a), UserKey(b), i)
    ensures forall i: nat :: i + 1 < |UserKey(a)| && RoomBetween(UserKey(a), UserKey(b), i) ==>
              r == Some(Raised(UserKey(a), i) + [1, 0xff, 0xff, 0xff, 0xff, 0xff, 0xff, 0xff])
  {
    MaxNumIs();
    var ua, ub := UserKey(a), UserKey(b);
    var dst := Separator(ua, ub);
    if dst.Some? && |dst.value| < |ua| && LexCompare(ua, dst.value) < 0 {
      var s := dst.value + MaxNumBytes();
      assert UserKey(s) == dst.value;
      LexEqual(ua, dst.value);
      return Some(s);
    }
    return None;
  }

  method ISuccessor(b: Bytes) returns (r: Option<Bytes>)
    requires |b| >= 8
    ensures r.Some? ==> 8 <= |r.value| < |b| && ICompare(LexCompare, b, r.value) < 0
    ensures r.Some? <==> exists i: nat :: i + 1 < |UserKey(b)| && RoomAbove(UserKey(b), i)
    ensures forall i: nat :: i + 1 < |UserKey(b)| && RoomAbove(UserKey(b), i) ==>
              r == Some(Raised(UserKey(b), i) + [1, 0xff, 0xff, 0xff, 0xff, 0xff, 0xff, 0xff])
  {
    MaxNumIs();
    FirstAbove(UserKey(b));
    var ub := UserKey(b);
    var dst := Successor(ub);
    if dst.Some? && |dst.value| < |ub| && LexCompare(ub, dst.value) < 0 {
      var s := dst.value + MaxNumBytes();
      assert UserKey(s) == dst.value;
      return Some(s);
    }
    return None;
  }
}
