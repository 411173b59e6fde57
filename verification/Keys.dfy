/** Internal keys and entries, as ordered by `iComparer.Compare`: user key
    ascending, then packed number (sequence number, key type) descending.
    A user key is represented by its rank in the user comparer's order; module
    InternalKeys works on the bytes themselves and shows that ranks keep the order. */
module Keys {

  type Byte = b: int | 0 <= b < 256
  type Bytes = seq<Byte>
  type UKey = int

  datatype Option<+T> = None | Some(value: T)

  datatype KeyType = Del | Val

  /** Largest sequence number that fits beside the 8-bit key type. */
  const KEY_MAX_SEQ: nat := 0xFF_FFFF_FFFF_FFFF

  /** One record of the store; `sn` is its sequence number. */
  datatype Entry = Entry(ukey: UKey, sn: nat, kt: KeyType, value: Bytes)

  /** The packed number stored after the user key. */
  function Num(e: Entry): nat {
    256 * e.sn + if e.kt.Val? then 1 else 0
  }

  /** `Compare(a, b) < 0` on internal keys. */
  predicate Less(a: Entry, b: Entry) {
    a.ukey < b.ukey || (a.ukey == b.ukey && Num(a) > Num(b))
  }

  /** `Compare(a, b) <= 0` on internal keys. */
  predicate AtMost(a: Entry, b: Entry) {
    !Less(b, a)
  }

  /** The key `makeInternalKey(ukey, sn, keyTypeSeek)` used to look up `ukey` as of `sn`. */
  function SeekKey(ukey: UKey, sn: nat): Entry {
    Entry(ukey, sn, Val, [])
  }

  ghost predicate Sorted(es: seq<Entry>) {
    forall i, j :: 0 <= i < j < |es| ==> Less(es[i], es[j])
  }

  function Concat(ts: seq<seq<Entry>>): seq<Entry> {
    if ts == [] then [] else Concat(ts[..|ts| - 1]) + ts[|ts| - 1]
  }

  ghost function Elems(es: seq<Entry>): set<Entry> {
    set e | e in es
  }
}
