/** The iterator contract: a cursor over one sorted run, standing on an entry, before the first or after the last. */
module Cursors {
  import opened Keys
  import opened Lookup

  /** Positions are -1 (before the first), 0..n-1, and n (after the last). */
  function NextPos(n: nat, pos: int): int {
    if pos >= n then n else pos + 1
  }

  function PrevPos(pos: int): int {
    if pos <= -1 then -1 else pos - 1
  }

  predicate On(n: nat, pos: int) {
    0 <= pos < n
  }

  /** A leaf iterator, such as one over a memdb or a table. */
  class Cursor {
    const es: seq<Entry>
    var pos: int

    ghost predicate Valid()
      reads this
    {
      -1 <= pos <= |es|
    }

    constructor (es: seq<Entry>)
      ensures this.es == es && pos == -1 && Valid()
    {
      this.es := es;
      pos := -1;
    }

    method First() returns (ok: bool)
      modifies this
      ensures Valid() && pos == 0 && ok == On(|es|, pos)
    {
      pos := 0;
      ok := |es| > 0;
    }

    method Last() returns (ok: bool)
      modifies this
      ensures Valid() && pos == |es| - 1 && ok == On(|es|, pos)
    {
      pos := |es| - 1;
      ok := pos >= 0;
    }

    method Seek(key: Entry) returns (ok: bool)
      modifies this
      ensures Valid() && pos == FirstGE(es, key) && ok == On(|es|, pos)
    {
      pos := FirstGE(es, key);
      ok := pos < |es|;
    }

    method Next() returns (ok: bool)
      requires Valid()
      modifies this
      ensures Valid() && pos == NextPos(|es|, old(pos)) && ok == On(|es|, pos)
    {
      pos := NextPos(|es|, pos);
      ok := pos < |es|;
    }

    method Prev() returns (ok: bool)
      requires Valid()
      modifies this
      ensures Valid() && pos == PrevPos(old(pos)) && ok == On(|es|, pos)
    {
      pos := PrevPos(pos);
      ok := On(|es|, pos);
    }

    /** The entry under the cursor, or none. */
    function Key(): Option<Entry>
      reads this
    {
      if On(|es|, pos) then Some(es[pos]) else None
    }
  }
}
