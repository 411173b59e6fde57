/** `blockWriter`. */
module BlockWriter {
  import opened Keys
  import opened Varint
  import opened InternalKeys
  import opened MemDb
  import opened BlockFormat

  class BlockWriter {
    const interval: nat
    var buf: Bytes
    var nEntries: nat
    var prevKey: Bytes
    var restarts: seq<nat>
    /** The entries appended since the last reset. */
    ghost var entries: seq<KV>

    ghost predicate Valid()
      reads this
    {
      interval > 0 && nEntries == |entries| && buf == Body(interval, entries) && restarts == Restarts(interval, entries)
      && (entries != [] ==> prevKey == entries[|entries| - 1].key)
    }

    /** Between blocks the last key may be changed. */
    twostate lemma KeyChanged()
      requires old(Valid()) && old(entries) == []
      requires unchanged(this`entries) && unchanged(this`buf) && unchanged(this`restarts) && unchanged(this`nEntries)
      ensures Valid()
    {
      hide Body, Restarts;
    }

    constructor (interval: nat)
      requires interval > 0
      ensures Valid() && entries == [] && prevKey == [] && this.interval == interval
    {
      this.interval := interval;
      buf, nEntries, prevKey, restarts, entries := [], 0, [], [], [];
    }

    /** `append`. */
    method Append(key: Bytes, value: Bytes)
      requires Valid()
      modifies this
      ensures Valid() && entries == old(entries) + [KV(key, value)] && prevKey == key
    {
      hide Body, EntryBytes, Restarts, SharedAt, PutUvarint;
      ghost var e, es := KV(key, value), entries;
      var nShared: nat := 0;
      if nEntries % interval == 0 {
        restarts := restarts + [|buf|];
      } else {
        nShared := SharedPrefixLen(prevKey, key);
      }
      SharedIs(interval, es, e, nShared);
      RestartsNext(interval, es, e);
      BodyNext(interval, es, e);
      EntryIs(nShared, e);
      var head := PutUvarint(nShared) + (PutUvarint(|key| - nShared) + PutUvarint(|value|));
      Joined(buf, PutUvarint(nShared), PutUvarint(|key| - nShared), PutUvarint(|value|), key[nShared..], value);
      buf := buf + head;
      buf := buf + key[nShared..];
      buf := buf + value;
      prevKey := key;
      nEntries := nEntries + 1;
      entries := entries + [e];
    }

    static lemma Joined(b: Bytes, x: Bytes, y: Bytes, z: Bytes, k: Bytes, v: Bytes)
      ensures b + (x + (y + z)) + k + v == b + (x + (y + (z + (k + v))))
    {
    }

    lemma SharedIs(interval: nat, es: seq<KV>, e: KV, n: nat)
      requires interval > 0
      requires n == if |es| % interval == 0 then 0 else if es == [] then 0 else SharedPrefixLen(es[|es| - 1].key, e.key)
      ensures SharedAt(interval, es + [e], |es|) == n <= |e.key|
    {
    }

    /** `finish`: the buffer becomes the whole block. */
    method Finish()
      requires Valid()
      modifies this`buf, this`restarts
      ensures buf == BlockBytes(interval, entries)
    {
      hide Body, Restarts;
      NonEmptyRestarts();
      if nEntries == 0 {
        restarts := restarts + [0];
      }
      restarts := restarts + [|restarts|];
      PutRestarts(restarts);
    }

    /** The restart entries behind the body. */
    method PutRestarts(all: seq<nat>)
      modifies this`buf
      ensures buf == old(buf) + PutAll(all)
    {
      hide PutFixed;
      assert all[..0] == [];
      for i := 0 to |all|
        invariant buf == old(buf) + PutAll(all[..i])
      {
        assert all[..i + 1][..i] == all[..i];
        buf := buf + PutFixed(all[i], 4);
      }
      assert all[..|all|] == all;
    }

    lemma NonEmptyRestarts()
      requires Valid()
      ensures entries == [] ==> restarts == []
    {
    }

    method Reset()
      requires interval > 0
      modifies this
      ensures Valid() && entries == [] && prevKey == old(prevKey)
    {
      buf, nEntries, restarts, entries := [], 0, [], [];
    }

    /** `bytesLen`: the size the block would have if finished now. */
    method BytesLen() returns (n: nat)
      requires Valid()
      ensures n == |BlockBytes(interval, entries)|
    {
      hide Body, Restarts;
      NonEmptyRestarts();
      SomeRestart();
      var restartsLen := |restarts|;
      if restartsLen == 0 {
        restartsLen := 1;
      }
      n := |buf| + 4 * restartsLen + 4;
    }

    lemma SomeRestart()
      requires Valid()
      ensures entries != [] ==> restarts != []
    {
    }
  }
}
