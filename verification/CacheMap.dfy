/** The cache's lazily resized hash table as a step system. Each step is one bucket-lock section or one
    compare-and-swap; a goroutine may act on any bucket it once looked up, however many resizes ago. */
module CacheMap {

  datatype Key = Key(ns: nat, key: nat)
  datatype Node = Node(key: Key, id: nat)
  datatype Bucket = Bucket(nodes: seq<Node>, frozen: bool)

  /** `mNode`; a bucket index not in the map is a bucket not made yet. */
  datatype Table = Table(size: nat, buckets: map<nat, Bucket>, predCleared: bool)

  /** `tables` are all there ever were, the head last and each the predecessor of the next;
      `plain` is the map the cache stands for. */
  datatype State = State(tables: seq<Table>, refs: map<nat, int>, plain: map<Key, nat>)

  type Hash = Key -> nat

  const INITIAL_SIZE: nat := 16

  /** `hash & mask`, sizes being powers of two. */
  function Slot(h: nat, t: Table): (i: nat)
    requires t.size > 0
    ensures i < t.size
  {
    h % t.size
  }

  /** The buckets of the predecessor that bucket `j` is made from: split on growing, merged on shrinking. */
  predicate IsSource(p: Table, t: Table, j: nat, i: nat)
    requires p.size > 0
  {
    if t.size > p.size then i == j % p.size else i == j || i == j + t.size
  }

  function Filter(hash: Hash, t: Table, j: nat, nodes: seq<Node>): (r: seq<Node>)
    requires t.size > 0
    ensures forall n :: n in r <==> n in nodes && Slot(hash(n.key), t) == j
  {
    if nodes == [] then []
    else
      var rest := Filter(hash, t, j, nodes[1..]);
      assert forall n :: n in nodes <==> n == nodes[0] || n in nodes[1..];
      if Slot(hash(nodes[0].key), t) == j then [nodes[0]] + rest else rest
  }

  predicate Ready(p: Table, i: nat) {
    i in p.buckets && p.buckets[i].frozen
  }

  ghost predicate SourcesReady(p: Table, t: Table, j: nat)
    requires p.size > 0
  {
    forall i :: IsSource(p, t, j, i) ==> Ready(p, i)
  }

  /** What `initBucket` puts into bucket `j`, once its sources are frozen. */
  function InitNodes(hash: Hash, p: Table, t: Table, j: nat): seq<Node>
    requires p.size > 0 && t.size > 0 && SourcesReady(p, t, j)
  {
    if t.size > p.size then
      assert IsSource(p, t, j, j % p.size) && Ready(p, j % p.size);
      Filter(hash, t, j, p.buckets[j % p.size].nodes)
    else
      assert IsSource(p, t, j, j) && IsSource(p, t, j, j + t.size) && Ready(p, j) && Ready(p, j + t.size);
      p.buckets[j].nodes + p.buckets[j + t.size].nodes
  }

  datatype Step =
    | Freeze(t: nat, i: nat)
    | Publish(t: nat, j: nat)
    | Find(t: nat, k: Key, n: Node)                // `get` meets the node
    | Miss(t: nat, k: Key)                         // `get` without creating
    | Create(t: nat, k: Key, id: nat)              // `get` that creates
    | Unref(id: nat)
    | Remove(t: nat, k: Key, n: Node)              // `delete` of an unreferenced node
    | Resize(size: nat)
    | ClearPred(t: nat)

  /** The bucket of `k` in table `t` as its lock holder finds it, not frozen. */
  ghost predicate Open(hash: Hash, s: State, t: nat, k: Key) {
    t < |s.tables| && s.tables[t].size > 0 && Slot(hash(k), s.tables[t]) in s.tables[t].buckets
    && !s.tables[t].buckets[Slot(hash(k), s.tables[t])].frozen
  }

  ghost function NodesAt(hash: Hash, s: State, t: nat, k: Key): seq<Node>
    requires Open(hash, s, t, k)
  {
    s.tables[t].buckets[Slot(hash(k), s.tables[t])].nodes
  }

  function WithBucket(s: State, t: nat, i: nat, b: Bucket): State
    requires t < |s.tables|
  {
    s.(tables := s.tables[t := s.tables[t].(buckets := s.tables[t].buckets[i := b])])
  }

  ghost function WithNodes(hash: Hash, s: State, t: nat, k: Key, nodes: seq<Node>): State
    requires Open(hash, s, t, k)
  {
    WithBucket(s, t, Slot(hash(k), s.tables[t]), Bucket(nodes, false))
  }

  /** All buckets are there. */
  ghost predicate Full(t: Table) {
    forall i :: 0 <= i < t.size ==> i in t.buckets
  }

  ghost predicate HasKey(nodes: seq<Node>, k: Key) {
    exists n :: n in nodes && n.key == k
  }

  ghost predicate Next(hash: Hash, s: State, step: Step, s': State) {
    match step
    case Freeze(t, i) =>
      t + 1 < |s.tables| && i in s.tables[t].buckets
      && s' == WithBucket(s, t, i, s.tables[t].buckets[i].(frozen := true))
    case Publish(t, j) =>
      1 <= t < |s.tables|
      && var p, n := s.tables[t - 1], s.tables[t];
         p.size > 0 && n.size > 0 && j < n.size && j !in n.buckets && !n.predCleared
         && SourcesReady(p, n, j)
         && s' == WithBucket(s, t, j, Bucket(InitNodes(hash, p, n, j), false))
    case Find(t, k, n) =>
      Open(hash, s, t, k) && n in NodesAt(hash, s, t, k) && n.key == k
      && n.id in s.refs && s' == s.(refs := s.refs[n.id := s.refs[n.id] + 1])
    case Miss(t, k) =>
      Open(hash, s, t, k) && !HasKey(NodesAt(hash, s, t, k), k) && s' == s
    case Create(t, k, id) =>
      Open(hash, s, t, k) && !HasKey(NodesAt(hash, s, t, k), k) && id !in s.refs
      && s' == WithNodes(hash, s, t, k, NodesAt(hash, s, t, k) + [Node(k, id)]).(refs := s.refs[id := 1], plain := s.plain[k := id])
    case Unref(id) =>
      id in s.refs && s.refs[id] > 0 && s' == s.(refs := s.refs[id := s.refs[id] - 1])
    case Remove(t, k, n) =>
      Open(hash, s, t, k) && n in NodesAt(hash, s, t, k) && n.key == k && n.id in s.refs && s.refs[n.id] == 0
      && s' == WithNodes(hash, s, t, k, Without(NodesAt(hash, s, t, k), n)).(plain := s.plain - {k})
    case Resize(size) =>
      |s.tables| > 0
      && var h := s.tables[|s.tables| - 1];
         (size == 2 * h.size || (h.size > INITIAL_SIZE && size == h.size / 2))
         && s' == s.(tables := s.tables + [Table(size, map[], false)])
    case ClearPred(t) =>
      t < |s.tables| && Full(s.tables[t]) && s' == s.(tables := s.tables[t := s.tables[t].(predCleared := true)])
  }

  /** A bucket without one node. */
  function Without(nodes: seq<Node>, n: Node): (r: seq<Node>)
    requires n in nodes
    ensures |r| == |nodes| - 1
  {
    if nodes[0] == n then nodes[1..] else [nodes[0]] + Without(nodes[1..], n)
  }

  ghost predicate Init(s: State) {
    s.refs == map[] && s.plain == map[] && |s.tables| == 1
    && s.tables[0].size == INITIAL_SIZE && !s.tables[0].predCleared
    && Full(s.tables[0]) && forall i :: i in s.tables[0].buckets ==> i < INITIAL_SIZE && s.tables[0].buckets[i] == Bucket([], false)
  }

  // ----- invariants

  /** Sizes are positive and even from the first on, each half or double the one before. */
  ghost predicate SizesOk(tables: seq<Table>) {
    |tables| > 0 && tables[0].size == INITIAL_SIZE && Full(tables[0])
    && (forall t :: 0 <= t < |tables| ==> PowerOfTwo(tables[t].size) && tables[t].size >= INITIAL_SIZE)
    && (forall t :: 1 <= t < |tables| ==> Neighbours(tables[t - 1], tables[t]))
    && (forall t, i :: 0 <= t < |tables| && i in tables[t].buckets ==> i < tables[t].size)
    && (forall t :: 0 <= t < |tables| && tables[t].predCleared ==> Full(tables[t]))
  }

  predicate PowerOfTwo(n: nat) {
    n == 1 || (n > 1 && n % 2 == 0 && PowerOfTwo(n / 2))
  }

  predicate Neighbours(p: Table, t: Table) {
    t.size == 2 * p.size || p.size == 2 * t.size
  }

  ghost predicate NodesOk(hash: Hash, t: Table, i: nat, nodes: seq<Node>) {
    t.size > 0 && (forall n :: n in nodes ==> Slot(hash(n.key), t) == i)
    && forall a, b :: 0 <= a < b < |nodes| ==> nodes[a].key != nodes[b].key
  }

  /** Each node is in bucket `hash & mask`, and no key twice. */
  ghost predicate Placed(hash: Hash, s: State) {
    forall t, i :: 0 <= t < |s.tables| && i in s.tables[t].buckets ==> NodesOk(hash, s.tables[t], i, s.tables[t].buckets[i].nodes)
  }

  /** A bucket is made only from frozen sources, so nothing may still change below it. */
  ghost predicate Sourced(tables: seq<Table>) {
    forall t :: 1 <= t < |tables| ==> BuiltOn(tables, t)
  }

  ghost predicate BuiltOn(tables: seq<Table>, t: nat)
    requires 1 <= t < |tables|
  {
    tables[t - 1].size > 0 && Joined(tables[t - 1], tables[t])
  }

  ghost predicate Joined(p: Table, n: Table)
    requires p.size > 0
  {
    forall j: nat, i: nat :: j in n.buckets && IsSource(p, n, j, i) ==> Ready(p, i)
  }

  /** Buckets of the head are never frozen: a lookup through the head always gets through. */
  ghost predicate HeadOpen(tables: seq<Table>) {
    |tables| > 0 && AllOpen(tables[|tables| - 1])
  }

  ghost predicate AllOpen(t: Table) {
    forall i :: i in t.buckets ==> !t.buckets[i].frozen
  }

  /** The newest table, up to `t`, that has the bucket of hash `h`. */
  ghost function Owner(tables: seq<Table>, h: nat, t: nat): (o: nat)
    requires SizesOk(tables) && t < |tables|
    ensures o <= t && Slot(h, tables[o]) in tables[o].buckets
    ensures forall u :: o < u <= t ==> Slot(h, tables[u]) !in tables[u].buckets
  {
    if Slot(h, tables[t]) in tables[t].buckets || t == 0 then t else Owner(tables, h, t - 1)
  }

  lemma OwnerUnique(tables: seq<Table>, h: nat, t: nat, o: nat)
    requires SizesOk(tables) && o <= t < |tables| && Slot(h, tables[o]) in tables[o].buckets
    requires forall u :: o < u <= t ==> Slot(h, tables[u]) !in tables[u].buckets
    ensures Owner(tables, h, t) == o
  {
  }

  lemma SourceOfHash(p: Table, t: Table, h: nat)
    requires p.size > 0 && t.size > 0 && Neighbours(p, t)
    ensures IsSource(p, t, Slot(h, t), Slot(h, p))
  {
    if t.size == 2 * p.size {
      ModHalf(h, p.size, t.size);
    } else {
      ModHalf(h, t.size, p.size);
    }
  }

  /** Reducing by half a modulus afterwards. */
  lemma ModHalf(h: nat, n: nat, m: nat)
    requires n > 0 && m == 2 * n
    ensures h % m % n == h % n && (h % m == h % n || h % m == h % n + n)
  {
    var q, r := DivMod(h, m);
    Halves(h, n, m, q, r);
  }

  lemma Halves(h: nat, n: nat, m: nat, q: nat, r: nat)
    requires n > 0 && m == 2 * n && r < m && h == q * m + r
    ensures r % n == h % n && (r == h % n || r == h % n + n)
  {
    Doubling(q, n, m);
    if r < n {
      Remainder(h, n, 2 * q, r);
      Remainder(r, n, 0, r);
    } else {
      Remainder(h, n, 2 * q + 1, r - n);
      Remainder(r, n, 1, r - n);
    }
  }

  lemma Doubling(q: nat, n: nat, m: nat)
    requires m == 2 * n
    ensures q * m == (2 * q) * n && (2 * q + 1) * n == (2 * q) * n + n
  {
  }

  lemma DivMod(h: nat, n: nat) returns (q: nat, r: nat)
    requires n > 0
    ensures r == h % n && r < n && h == q * n + r
  {
    Division(h, n);
    q, r := h / n, h % n;
  }

  lemma Division(h: nat, n: nat)
    requires n > 0
    ensures h == h / n * n + h % n && 0 <= h % n < n && 0 <= h / n
  {
  }

  lemma Remainder(h: nat, n: nat, q: nat, r: nat)
    requires r < n && h == q * n + r
    ensures h % n == r
  {
    Division(h, n);
    Unique(n, q, r, h / n, h % n);
  }

  lemma Unique(n: nat, q: nat, r: nat, q': nat, r': nat)
    requires r < n && r' < n && q * n + r == q' * n + r'
    ensures r == r'
  {
    if q > q' {
      AtLeast(q - q', n);
    } else if q' > q {
      AtLeast(q' - q, n);
    }
  }

  lemma AtLeast(a: nat, n: nat)
    requires a >= 1
    ensures a * n >= n
  {
  }

  // ----- the map the table stands for

  /** Looking up `k` in its owning bucket is looking it up in the plain map. */
  ghost predicate Agrees(hash: Hash, s: State, k: Key)
    requires SizesOk(s.tables)
  {
    var o := Owner(s.tables, hash(k), |s.tables| - 1);
    SameFor(s.tables[o].buckets[Slot(hash(k), s.tables[o])].nodes, s.plain, k)
  }

  ghost predicate SameFor(nodes: seq<Node>, plain: map<Key, nat>, k: Key) {
    (k in plain ==> Node(k, plain[k]) in nodes) && forall n :: n in nodes && n.key == k ==> k in plain && plain[k] == n.id
  }

  ghost predicate Inv(hash: Hash, s: State) {
    SizesOk(s.tables) && Placed(hash, s) && Sourced(s.tables) && HeadOpen(s.tables)
    && (forall k :: k in s.plain ==> s.plain[k] in s.refs)
    && forall k :: Agrees(hash, s, k)
  }

  /** A bucket that is not frozen is where its keys are found through the head, however old its table. */
  lemma OpenIsOwner(hash: Hash, s: State, t: nat, k: Key)
    requires SizesOk(s.tables) && Sourced(s.tables) && Open(hash, s, t, k)
    ensures Owner(s.tables, hash(k), |s.tables| - 1) == t
  {
    var h := hash(k);
    forall u | t < u < |s.tables| ensures Slot(h, s.tables[u]) !in s.tables[u].buckets {
      NothingAbove(s.tables, h, t, u);
    }
    OwnerUnique(s.tables, h, |s.tables| - 1, t);
  }

  lemma {:induction false} NothingAbove(tables: seq<Table>, h: nat, t: nat, u: nat)
    requires SizesOk(tables) && Sourced(tables) && t < u < |tables|
    requires !Ready(tables[t], Slot(h, tables[t]))
    ensures Slot(h, tables[u]) !in tables[u].buckets
    decreases u
  {
    if t < u - 1 {
      NothingAbove(tables, h, t, u - 1);
    }
    assert Neighbours(tables[u - 1], tables[u]) && BuiltOn(tables, u);
    SourceOfHash(tables[u - 1], tables[u], h);
  }

  /** A lookup that meets a node meets the one in the plain map, and one that meets none misses there too. */
  lemma LookupIsPlain(hash: Hash, s: State, t: nat, k: Key)
    requires Inv(hash, s) && Open(hash, s, t, k)
    ensures HasKey(NodesAt(hash, s, t, k), k) <==> k in s.plain
    ensures forall n :: n in NodesAt(hash, s, t, k) && n.key == k ==> n == Node(k, s.plain[k])
  {
    OpenIsOwner(hash, s, t, k);
    assert Agrees(hash, s, k);
  }

  // ----- each step keeps the invariant and changes the map as the plain map changes

  ghost predicate SameShape(a: seq<Table>, b: seq<Table>) {
    |a| == |b| && forall t :: 0 <= t < |a| ==> a[t].size == b[t].size && a[t].buckets.Keys == b[t].buckets.Keys
  }

  lemma {:induction false} OwnerShape(a: seq<Table>, b: seq<Table>, h: nat, t: nat)
    requires SizesOk(a) && SizesOk(b) && SameShape(a, b) && t < |a|
    ensures Owner(a, h, t) == Owner(b, h, t)
  {
    var o := Owner(a, h, t);
    assert forall u :: o < u <= t ==> Slot(h, a[u]) !in a[u].buckets.Keys;
    OwnerUnique(b, h, t, o);
  }

  lemma ShapeKeepsSizes(a: seq<Table>, b: seq<Table>)
    requires SizesOk(a) && SameShape(a, b) && forall t :: 0 <= t < |a| && b[t].predCleared ==> a[t].predCleared || Full(b[t])
    ensures SizesOk(b)
  {
    forall t, i | 0 <= t < |b| && i in b[t].buckets ensures i < b[t].size {
      assert i in a[t].buckets;
    }
    forall t | 1 <= t < |b| ensures Neighbours(b[t - 1], b[t]) {
      assert Neighbours(a[t - 1], a[t]);
    }
    forall i | 0 <= i < b[0].size ensures i in b[0].buckets {
      assert i in a[0].buckets.Keys;
    }
    forall t | 0 <= t < |b| && b[t].predCleared ensures Full(b[t]) {
      if a[t].predCleared {
        forall i | 0 <= i < b[t].size ensures i in b[t].buckets { assert i in a[t].buckets.Keys; }
      }
    }
  }

  lemma JoinedKept(p: Table, n: Table, p': Table, n': Table)
    requires p.size == p'.size > 0 && n.size == n'.size && Joined(p, n)
    requires n'.buckets.Keys <= n.buckets.Keys && forall i :: Ready(p, i) ==> Ready(p', i)
    ensures Joined(p', n')
  {
    forall j: nat, i: nat | j in n'.buckets && IsSource(p', n', j, i) ensures Ready(p', i) {
      assert j in n.buckets.Keys && IsSource(p, n, j, i);
    }
  }

  lemma SourcedKept(a: seq<Table>, b: seq<Table>)
    requires Sourced(a) && SameShape(a, b)
    requires forall t, i :: 0 <= t < |a| && Ready(a[t], i) ==> Ready(b[t], i)
    ensures Sourced(b)
  {
    forall u | 1 <= u < |b| ensures BuiltOn(b, u) {
      assert BuiltOn(a, u);
      JoinedKept(a[u - 1], a[u], b[u - 1], b[u]);
    }
  }

  /** Same buckets with the same nodes: same lookups. */
  lemma SameNodesAgree(hash: Hash, s: State, s': State, k: Key)
    requires SizesOk(s.tables) && SizesOk(s'.tables) && SameShape(s.tables, s'.tables) && Agrees(hash, s, k) && s'.plain == s.plain
    requires forall t, i :: 0 <= t < |s.tables| && i in s.tables[t].buckets ==> i in s'.tables[t].buckets && s'.tables[t].buckets[i].nodes == s.tables[t].buckets[i].nodes
    ensures Agrees(hash, s', k)
  {
    OwnerShape(s.tables, s'.tables, hash(k), |s.tables| - 1);
  }

  ghost predicate SameNodes(a: seq<Table>, b: seq<Table>) {
    |a| == |b| && forall t, i :: 0 <= t < |a| && i in a[t].buckets ==> i in b[t].buckets && b[t].buckets[i].nodes == a[t].buckets[i].nodes
  }

  /** A step that only freezes buckets or lets go of a predecessor keeps the invariant. */
  lemma SameNodesKeep(hash: Hash, s: State, s': State)
    requires Inv(hash, s) && s'.plain == s.plain && s'.refs == s.refs
    requires SameShape(s.tables, s'.tables) && SameNodes(s.tables, s'.tables) && HeadOpen(s'.tables)
    requires forall t :: 0 <= t < |s.tables| && s'.tables[t].predCleared ==> s.tables[t].predCleared || Full(s'.tables[t])
    requires forall t, i :: 0 <= t < |s.tables| && Ready(s.tables[t], i) ==> Ready(s'.tables[t], i)
    ensures Inv(hash, s')
  {
    var a, b := s.tables, s'.tables;
    ShapeKeepsSizes(a, b);
    SourcedKept(a, b);
    hide SizesOk, Sourced, Agrees, HeadOpen, Full, Ready;
    forall t, i | 0 <= t < |b| && i in b[t].buckets ensures NodesOk(hash, b[t], i, b[t].buckets[i].nodes) {
      assert i in a[t].buckets.Keys;
    }
    forall k ensures Agrees(hash, s', k) {
      SameNodesAgree(hash, s, s', k);
    }
  }

  lemma FreezeKeeps(hash: Hash, s: State, t: nat, i: nat, s': State)
    requires Inv(hash, s) && Next(hash, s, Freeze(t, i), s')
    ensures Inv(hash, s')
  {
    hide SizesOk, Sourced, Agrees, Placed, Full;
    SameNodesKeep(hash, s, s');
  }

  /** Changing the nodes of an open bucket changes only lookups of keys in that bucket. */
  lemma NodesKeep(hash: Hash, s: State, t: nat, k: Key, nodes: seq<Node>, s': State)
    requires Inv(hash, s) && Open(hash, s, t, k)
    requires s'.tables == WithNodes(hash, s, t, k, nodes).tables && (forall x :: x in s'.plain ==> s'.plain[x] in s'.refs)
    requires NodesOk(hash, s.tables[t], Slot(hash(k), s.tables[t]), nodes)
    requires SameFor(nodes, s'.plain, k)
    requires forall x :: x != k ==> (x in s'.plain <==> x in s.plain) && (x in s.plain ==> s'.plain[x] == s.plain[x])
                                    && forall n: Node :: n.key == x ==> (n in nodes <==> n in NodesAt(hash, s, t, k))
    ensures Inv(hash, s')
  {
    OpenIsOwner(hash, s, t, k);
    NodesShape(hash, s, t, k, nodes, s');
    ShapeKeepsSizes(s.tables, s'.tables);
    NodesPlaced(hash, s, t, k, nodes, s');
    hide Placed, Sourced, HeadOpen, SizesOk, Open, SameFor, NodesOk, Agrees, SameShape;
    forall x ensures Agrees(hash, s', x) {
      assert Agrees(hash, s, x);
      OtherLookup(hash, s, t, k, nodes, s', x);
    }
  }

  lemma NodesShape(hash: Hash, s: State, t: nat, k: Key, nodes: seq<Node>, s': State)
    requires Open(hash, s, t, k) && s'.tables == WithNodes(hash, s, t, k, nodes).tables
    ensures SameShape(s.tables, s'.tables)
    ensures forall u :: 0 <= u < |s.tables| ==> s'.tables[u].predCleared == s.tables[u].predCleared
  {
  }

  lemma NodesPlaced(hash: Hash, s: State, t: nat, k: Key, nodes: seq<Node>, s': State)
    requires Placed(hash, s) && Sourced(s.tables) && HeadOpen(s.tables) && Open(hash, s, t, k)
    requires s'.tables == WithNodes(hash, s, t, k, nodes).tables && NodesOk(hash, s.tables[t], Slot(hash(k), s.tables[t]), nodes)
    ensures Placed(hash, s') && Sourced(s'.tables) && HeadOpen(s'.tables)
  {
    NodesShape(hash, s, t, k, nodes, s');
    BuiltKept(s.tables, s'.tables, t, Slot(hash(k), s.tables[t]), nodes);
    hide SameShape, Sourced;
    forall u, i | 0 <= u < |s'.tables| && i in s'.tables[u].buckets
      ensures NodesOk(hash, s'.tables[u], i, s'.tables[u].buckets[i].nodes)
    {
      assert i in s.tables[u].buckets;
      assert NodesOk(hash, s.tables[u], i, s.tables[u].buckets[i].nodes);
    }
  }

  lemma BuiltKept(a: seq<Table>, b: seq<Table>, t: nat, i: nat, nodes: seq<Node>)
    requires Sourced(a) && t < |a| && i in a[t].buckets && !a[t].buckets[i].frozen && SameShape(a, b)
    requires b == a[t := a[t].(buckets := a[t].buckets[i := Bucket(nodes, false)])]
    ensures Sourced(b)
  {
    SourcedKept(a, b);
  }

  lemma OtherLookup(hash: Hash, s: State, t: nat, k: Key, nodes: seq<Node>, s': State, x: Key)
    requires SizesOk(s.tables) && SizesOk(s'.tables) && SameShape(s.tables, s'.tables) && Agrees(hash, s, x) && Open(hash, s, t, k)
    requires s'.tables == WithNodes(hash, s, t, k, nodes).tables
    requires Owner(s.tables, hash(k), |s.tables| - 1) == t && SameFor(nodes, s'.plain, k)
    requires x != k ==> (x in s'.plain <==> x in s.plain) && (x in s.plain ==> s'.plain[x] == s.plain[x])
                        && forall n: Node :: n.key == x ==> (n in nodes <==> n in NodesAt(hash, s, t, k))
    ensures Agrees(hash, s', x)
  {
    hide SizesOk, SameShape, Owner, Open, WithNodes, Slot, SameFor;
    OwnerShape(s.tables, s'.tables, hash(x), |s.tables| - 1);
    SameLast(s.tables, s'.tables);
    var o := Owner(s.tables, hash(x), |s.tables| - 1);
    PositiveSize(s.tables, o);
    var i := Slot(hash(x), s.tables[o]);
    BucketAfter(hash, s, t, k, nodes, s', o, i);
    SameSlot(hash(x), s.tables[o], s'.tables[o]);
    if x != k {
      SameForOther(s.tables[o].buckets[i].nodes, s'.tables[o].buckets[i].nodes, s.plain, s'.plain, x);
    }
  }

  lemma SameLast(a: seq<Table>, b: seq<Table>)
    requires SizesOk(a) && SizesOk(b) && SameShape(a, b)
    ensures |a| == |b| > 0
  {
  }

  lemma PositiveSize(a: seq<Table>, t: nat)
    requires SizesOk(a) && t < |a|
    ensures a[t].size > 0
  {
  }

  lemma SameSlot(h: nat, a: Table, b: Table)
    requires a.size == b.size > 0
    ensures Slot(h, a) == Slot(h, b)
  {
  }

  lemma BucketAfter(hash: Hash, s: State, t: nat, k: Key, nodes: seq<Node>, s': State, o: nat, i: nat)
    requires Open(hash, s, t, k) && s'.tables == WithNodes(hash, s, t, k, nodes).tables
    requires o < |s.tables| && i in s.tables[o].buckets
    ensures |s'.tables| == |s.tables| && s'.tables[o].size == s.tables[o].size && i in s'.tables[o].buckets
    ensures s'.tables[o].buckets[i].nodes ==
            if o == t && i == Slot(hash(k), s.tables[t]) then nodes else s.tables[o].buckets[i].nodes
    ensures o == t && i == Slot(hash(k), s.tables[t]) ==> s.tables[o].buckets[i].nodes == NodesAt(hash, s, t, k)
  {
  }

  lemma SameForOther(was: seq<Node>, now: seq<Node>, plain: map<Key, nat>, plain': map<Key, nat>, x: Key)
    requires SameFor(was, plain, x) && (x in plain' <==> x in plain) && (x in plain ==> plain'[x] == plain[x])
    requires forall n: Node :: n.key == x ==> (n in now <==> n in was)
    ensures SameFor(now, plain', x)
  {
  }

  lemma CreateKeeps(hash: Hash, s: State, t: nat, k: Key, id: nat, s': State)
    requires Inv(hash, s) && Next(hash, s, Create(t, k, id), s')
    ensures Inv(hash, s')
  {
    var nodes := NodesAt(hash, s, t, k);
    var i := Slot(hash(k), s.tables[t]);
    assert NodesOk(hash, s.tables[t], i, nodes);
    LookupIsPlain(hash, s, t, k);
    hide Agrees, Sourced, SizesOk, HeadOpen;
    forall a | 0 <= a < |nodes| ensures nodes[a].key != k {
      assert nodes[a] in nodes;
    }
    assert NodesOk(hash, s.tables[t], i, nodes + [Node(k, id)]);
    NodesKeep(hash, s, t, k, nodes + [Node(k, id)], s');
  }

  lemma {:induction false} WithoutMembers(nodes: seq<Node>, n: Node)
    requires n in nodes && forall a, b :: 0 <= a < b < |nodes| ==> nodes[a].key != nodes[b].key
    ensures forall x :: x in Without(nodes, n) <==> x in nodes && x != n
    ensures forall a, b :: 0 <= a < b < |Without(nodes, n)| ==> Without(nodes, n)[a].key != Without(nodes, n)[b].key
  {
    assert forall x :: x in nodes <==> x == nodes[0] || x in nodes[1..];
    if nodes[0] == n {
      assert forall a :: 1 <= a < |nodes| ==> nodes[a] != n;
    } else {
      WithoutMembers(nodes[1..], n);
      var rest := Without(nodes[1..], n);
      forall a | 0 <= a < |rest| ensures rest[a].key != nodes[0].key {
        assert rest[a] in rest;
        var b :| 0 <= b < |nodes| - 1 && nodes[1..][b] == rest[a];
        assert nodes[b + 1] == rest[a];
      }
    }
  }

  lemma RemoveKeeps(hash: Hash, s: State, t: nat, k: Key, n: Node, s': State)
    requires Inv(hash, s) && Next(hash, s, Remove(t, k, n), s')
    ensures Inv(hash, s')
  {
    var nodes := NodesAt(hash, s, t, k);
    var i := Slot(hash(k), s.tables[t]);
    assert NodesOk(hash, s.tables[t], i, nodes);
    LookupIsPlain(hash, s, t, k);
    hide Agrees, Sourced, SizesOk, HeadOpen;
    WithoutMembers(nodes, n);
    NodesKeep(hash, s, t, k, Without(nodes, n), s');
  }

  /** What `initBucket` publishes holds, of each hash, what the bucket's source for that hash holds. */
  lemma InitNodesOf(hash: Hash, s: State, t: nat, j: nat, n: Node)
    requires SizesOk(s.tables) && Placed(hash, s) && 1 <= t < |s.tables| && Slot(hash(n.key), s.tables[t]) == j
    requires s.tables[t - 1].size > 0 && SourcesReady(s.tables[t - 1], s.tables[t], j)
    ensures var p, i := s.tables[t - 1], Slot(hash(n.key), s.tables[t - 1]);
            Ready(p, i) && (n in InitNodes(hash, p, s.tables[t], j) <==> n in p.buckets[i].nodes)
  {
    var p, q := s.tables[t - 1], s.tables[t];
    var h := hash(n.key);
    assert Neighbours(p, q);
    SourceOfHash(p, q, h);
    assert Ready(p, Slot(h, p));
    if q.size > p.size {
      SplitSource(p, q, h);
    } else {
      MergeSources(hash, s, t, j, n);
    }
  }

  lemma MergeSources(hash: Hash, s: State, t: nat, j: nat, n: Node)
    requires Placed(hash, s) && 1 <= t < |s.tables| && s.tables[t - 1].size > 0 && s.tables[t].size > 0
    requires s.tables[t].size <= s.tables[t - 1].size && SourcesReady(s.tables[t - 1], s.tables[t], j)
    requires IsSource(s.tables[t - 1], s.tables[t], j, Slot(hash(n.key), s.tables[t - 1]))
    ensures var p := s.tables[t - 1];
            n in InitNodes(hash, p, s.tables[t], j) <==> Ready(p, Slot(hash(n.key), p)) && n in p.buckets[Slot(hash(n.key), p)].nodes
  {
    var p, q := s.tables[t - 1], s.tables[t];
    assert IsSource(p, q, j, j) && IsSource(p, q, j, j + q.size) && Ready(p, j) && Ready(p, j + q.size);
    if n in p.buckets[j].nodes { OnlyInSlot(hash, s, t - 1, j, n); }
    if n in p.buckets[j + q.size].nodes { OnlyInSlot(hash, s, t - 1, j + q.size, n); }
  }

  lemma PublishJoined(p: Table, n: Table, n': Table, j: nat)
    requires p.size > 0 && n'.size == n.size && Joined(p, n) && SourcesReady(p, n, j) && n'.buckets.Keys == n.buckets.Keys + {j}
    ensures Joined(p, n')
  {
    forall x: nat, i: nat | x in n'.buckets && IsSource(p, n', x, i) ensures Ready(p, i) {
      assert IsSource(p, n, x, i);
      assert x != j ==> x in n.buckets.Keys;
    }
  }

  lemma SplitSource(p: Table, q: Table, h: nat)
    requires p.size > 0 && q.size == 2 * p.size
    ensures Slot(h, q) % p.size == Slot(h, p)
  {
    ModHalf(h, p.size, q.size);
  }

  lemma OnlyInSlot(hash: Hash, s: State, t: nat, i: nat, n: Node)
    requires Placed(hash, s) && t < |s.tables| && i in s.tables[t].buckets && n in s.tables[t].buckets[i].nodes
    ensures s.tables[t].size > 0 && Slot(hash(n.key), s.tables[t]) == i
  {
    assert NodesOk(hash, s.tables[t], i, s.tables[t].buckets[i].nodes);
  }

  lemma {:induction false} FilterDistinct(hash: Hash, t: Table, j: nat, nodes: seq<Node>)
    requires t.size > 0 && forall a, b :: 0 <= a < b < |nodes| ==> nodes[a].key != nodes[b].key
    ensures forall a, b :: 0 <= a < b < |Filter(hash, t, j, nodes)| ==> Filter(hash, t, j, nodes)[a].key != Filter(hash, t, j, nodes)[b].key
  {
    if nodes != [] {
      FilterDistinct(hash, t, j, nodes[1..]);
      var rest := Filter(hash, t, j, nodes[1..]);
      forall b | 0 <= b < |rest| ensures rest[b].key != nodes[0].key {
        assert rest[b] in nodes[1..];
        var c :| 0 <= c < |nodes| - 1 && nodes[1..][c] == rest[b];
        assert nodes[c + 1] == rest[b];
      }
    }
  }

  lemma MergedDistinct(x: seq<Node>, y: seq<Node>)
    requires forall a, b :: 0 <= a < b < |x| ==> x[a].key != x[b].key
    requires forall a, b :: 0 <= a < b < |y| ==> y[a].key != y[b].key
    requires forall m, n :: m in x && n in y ==> m.key != n.key
    ensures forall a, b :: 0 <= a < b < |x + y| ==> (x + y)[a].key != (x + y)[b].key
  {
    forall a, b | 0 <= a < b < |x + y| ensures (x + y)[a].key != (x + y)[b].key {
      if a < |x| && b >= |x| {
        assert x[a] in x && y[b - |x|] in y;
      }
    }
  }

  lemma MergeSlot(h: nat, p: Table, t: Table, j: nat)
    requires t.size > 0 && p.size == 2 * t.size && j < t.size && (Slot(h, p) == j || Slot(h, p) == j + t.size)
    ensures Slot(h, t) == j
  {
    ModHalf(h, t.size, p.size);
    Remainder(j, t.size, 0, j);
    Remainder(j + t.size, t.size, 1, j);
  }

  /** A published bucket is well placed. */
  lemma InitNodesOk(hash: Hash, s: State, t: nat, j: nat)
    requires SizesOk(s.tables) && Placed(hash, s) && 1 <= t < |s.tables| && j < s.tables[t].size
    requires s.tables[t - 1].size > 0 && SourcesReady(s.tables[t - 1], s.tables[t], j)
    ensures NodesOk(hash, s.tables[t], j, InitNodes(hash, s.tables[t - 1], s.tables[t], j))
  {
    var p, q := s.tables[t - 1], s.tables[t];
    assert Neighbours(p, q);
    if q.size > p.size {
      var i := j % p.size;
      assert IsSource(p, q, j, i) && Ready(p, i);
      assert NodesOk(hash, p, i, p.buckets[i].nodes);
      FilterDistinct(hash, q, j, p.buckets[i].nodes);
    } else {
      var i := j + q.size;
      assert IsSource(p, q, j, j) && IsSource(p, q, j, i) && Ready(p, j) && Ready(p, i);
      assert NodesOk(hash, p, j, p.buckets[j].nodes) && NodesOk(hash, p, i, p.buckets[i].nodes);
      hide Placed, SizesOk;
      MergedDistinct(p.buckets[j].nodes, p.buckets[i].nodes);
      forall n | n in p.buckets[j].nodes || n in p.buckets[i].nodes ensures Slot(hash(n.key), q) == j {
        MergeSlot(hash(n.key), p, q, j);
      }
    }
  }

  lemma PublishTables(hash: Hash, s: State, t: nat, j: nat, s': State)
    requires Inv(hash, s) && Next(hash, s, Publish(t, j), s')
    ensures SizesOk(s'.tables) && Placed(hash, s') && Sourced(s'.tables) && HeadOpen(s'.tables)
  {
    InitNodesOk(hash, s, t, j);
    var a, b := s.tables, s'.tables;
    hide InitNodes, Agrees;
    forall u | 1 <= u < |b| ensures BuiltOn(b, u) {
      assert BuiltOn(a, u);
      if u == t {
        PublishJoined(a[u - 1], a[u], b[u], j);
      } else {
        JoinedKept(a[u - 1], a[u], b[u - 1], b[u]);
      }
    }
    PublishPlaced(hash, s, t, j, s');
    PublishSizes(hash, s, t, j, s');
  }

  lemma PublishPlaced(hash: Hash, s: State, t: nat, j: nat, s': State)
    requires Placed(hash, s) && Next(hash, s, Publish(t, j), s')
    requires NodesOk(hash, s.tables[t], j, InitNodes(hash, s.tables[t - 1], s.tables[t], j))
    ensures Placed(hash, s')
  {
    hide InitNodes;
    forall u, i | 0 <= u < |s'.tables| && i in s'.tables[u].buckets
      ensures NodesOk(hash, s'.tables[u], i, s'.tables[u].buckets[i].nodes)
    {
      if !(u == t && i == j) {
        assert i in s.tables[u].buckets;
        assert NodesOk(hash, s.tables[u], i, s.tables[u].buckets[i].nodes);
      }
    }
  }

  lemma PublishSizes(hash: Hash, s: State, t: nat, j: nat, s': State)
    requires SizesOk(s.tables) && Next(hash, s, Publish(t, j), s')
    ensures SizesOk(s'.tables)
  {
    hide InitNodes;
    var a, b := s.tables, s'.tables;
    forall u | 1 <= u < |b| ensures Neighbours(b[u - 1], b[u]) {
      assert Neighbours(a[u - 1], a[u]);
    }
    assert Full(b[0]);
  }

  /** Publishing a bucket moves the keys of its hashes from the old owner to the new one, and loses none. */
  lemma PublishLookup(hash: Hash, s: State, t: nat, j: nat, s': State, k: Key)
    requires Inv(hash, s) && Next(hash, s, Publish(t, j), s') && SizesOk(s'.tables)
    ensures Agrees(hash, s', k)
  {
    var a, b, h, top := s.tables, s'.tables, hash(k), |s.tables| - 1;
    assert Agrees(hash, s, k);
    if Slot(h, a[t]) == j {
      PublishHere(hash, s, t, j, s', k);
    } else {
      var o := Owner(a, h, top);
      hide InitNodes, PowerOfTwo, Neighbours, HeadOpen, Sourced, SameFor;
      OwnerUnique(b, h, top, o);
    }
  }

  /** The published bucket is the one the key is now found in, with the nodes it was found among before. */
  lemma PublishHere(hash: Hash, s: State, t: nat, j: nat, s': State, k: Key)
    requires Inv(hash, s) && Next(hash, s, Publish(t, j), s') && SizesOk(s'.tables)
    requires t < |s.tables| && s.tables[t].size > 0 && Slot(hash(k), s.tables[t]) == j
    ensures Agrees(hash, s', k)
  {
    var a, b, h, top := s.tables, s'.tables, hash(k), |s.tables| - 1;
    assert Agrees(hash, s, k);
    hide InitNodes, PowerOfTwo, Neighbours, HeadOpen, Sourced, SameFor;
    forall u | t < u <= top ensures Slot(h, a[u]) !in a[u].buckets {
      NothingAbove(a, h, t, u);
    }
    InitNodesOf(hash, s, t, j, Node(k, 0));
    OwnerUnique(a, h, top, t - 1);
    OwnerUnique(b, h, top, t);
    forall n: Node | n.key == k ensures n in b[t].buckets[j].nodes <==> n in a[t - 1].buckets[Slot(h, a[t - 1])].nodes {
      InitNodesOf(hash, s, t, j, n);
    }
    SameForOther(a[t - 1].buckets[Slot(h, a[t - 1])].nodes, b[t].buckets[j].nodes, s.plain, s'.plain, k);
  }

  lemma PublishKeeps(hash: Hash, s: State, t: nat, j: nat, s': State)
    requires Inv(hash, s) && Next(hash, s, Publish(t, j), s')
    ensures Inv(hash, s')
  {
    PublishTables(hash, s, t, j, s');
    forall k ensures Agrees(hash, s', k) {
      PublishLookup(hash, s, t, j, s', k);
    }
    hide SizesOk, Placed, Sourced, HeadOpen, Agrees, InitNodes;
  }

  lemma HalfOfPower(n: nat)
    requires PowerOfTwo(n) && n > INITIAL_SIZE
    ensures n % 2 == 0 && n / 2 >= INITIAL_SIZE && PowerOfTwo(n / 2) && PowerOfTwo(2 * n)
  {
    hide PowerOfTwo;
    HalfPower(n);
    DoublePower(n);
    EightIsPower();
    NextPower(n / 2, 8);
  }

  lemma HalfPower(n: nat)
    requires PowerOfTwo(n) && n > 1
    ensures n % 2 == 0 && PowerOfTwo(n / 2)
  {
  }

  lemma DoublePower(n: nat)
    requires PowerOfTwo(n)
    ensures PowerOfTwo(2 * n)
  {
    assert 2 * n / 2 == n;
  }

  lemma EightIsPower()
    ensures PowerOfTwo(8)
  {
    assert PowerOfTwo(1) && PowerOfTwo(2) && PowerOfTwo(4);
  }

  lemma {:induction false} NextPower(n: nat, m: nat)
    requires PowerOfTwo(n) && PowerOfTwo(m) && n > m
    ensures n >= 2 * m
    decreases n
  {
    if m > 1 {
      NextPower(n / 2, m / 2);
    }
  }

  lemma ResizeKeeps(hash: Hash, s: State, size: nat, s': State)
    requires Inv(hash, s) && Next(hash, s, Resize(size), s')
    ensures Inv(hash, s')
  {
    var a, b, n := s.tables, s'.tables, |s.tables|;
    assert PowerOfTwo(a[n - 1].size);
    if a[n - 1].size > INITIAL_SIZE {
      HalfOfPower(a[n - 1].size);
    }
    assert b[..n] == a && Neighbours(b[n - 1], b[n]);
    ResizeTables(hash, s, size, s');
    hide SizesOk, Placed, Sourced, HeadOpen;
    forall k ensures Agrees(hash, s', k) {
      assert Agrees(hash, s, k);
      EmptyOnTop(a, b, hash(k));
    }
  }

  /** A table without buckets owns nothing. */
  lemma EmptyOnTop(a: seq<Table>, b: seq<Table>, h: nat)
    requires SizesOk(a) && SizesOk(b) && |b| == |a| + 1 && b[..|a|] == a && b[|a|].buckets == map[]
    ensures Owner(b, h, |a|) == Owner(a, h, |a| - 1) && b[Owner(b, h, |a|)] == a[Owner(a, h, |a| - 1)]
  {
    var o := Owner(a, h, |a| - 1);
    assert forall u :: 0 <= u < |a| ==> b[u] == a[u];
    hide SizesOk;
    OwnerUnique(b, h, |a|, o);
  }

  lemma ResizeTables(hash: Hash, s: State, size: nat, s': State)
    requires SizesOk(s.tables) && Placed(hash, s) && Sourced(s.tables)
    requires s'.tables == s.tables + [Table(size, map[], false)] && PowerOfTwo(size) && size >= INITIAL_SIZE
    requires Neighbours(s.tables[|s.tables| - 1], s'.tables[|s.tables|])
    ensures SizesOk(s'.tables) && Placed(hash, s') && Sourced(s'.tables) && HeadOpen(s'.tables)
  {
    var a, b, n := s.tables, s'.tables, |s.tables|;
    forall u | 1 <= u < |b| ensures BuiltOn(b, u) && Neighbours(b[u - 1], b[u]) {
      if u < n { assert BuiltOn(a, u) && Neighbours(a[u - 1], a[u]) && b[u - 1] == a[u - 1] && b[u] == a[u]; }
    }
    forall u, i | 0 <= u < |b| && i in b[u].buckets ensures NodesOk(hash, b[u], i, b[u].buckets[i].nodes) && i < b[u].size {
      assert u < n && i in a[u].buckets && NodesOk(hash, a[u], i, a[u].buckets[i].nodes);
    }
  }

  lemma ClearPredKeeps(hash: Hash, s: State, t: nat, s': State)
    requires Inv(hash, s) && Next(hash, s, ClearPred(t), s')
    ensures Inv(hash, s')
  {
    hide SizesOk, Sourced, Agrees, Placed;
    assert Full(s'.tables[t]);
    hide Full;
    SameNodesKeep(hash, s, s');
  }

  lemma NextKeeps(hash: Hash, s: State, step: Step, s': State)
    requires Inv(hash, s) && Next(hash, s, step, s')
    ensures Inv(hash, s')
  {
    match step
    case Freeze(t, i) => hide *; FreezeKeeps(hash, s, t, i, s');
    case Publish(t, j) => hide *; PublishKeeps(hash, s, t, j, s');
    case Create(t, k, id) => hide *; CreateKeeps(hash, s, t, k, id, s');
    case Remove(t, k, n) => hide *; RemoveKeeps(hash, s, t, k, n, s');
    case Resize(size) => hide *; ResizeKeeps(hash, s, size, s');
    case ClearPred(t) => hide *; ClearPredKeeps(hash, s, t, s');
    case _ => assert s'.tables == s.tables && s'.plain == s.plain; SameTables(hash, s, s');
  }

  lemma SameTables(hash: Hash, s: State, s': State)
    requires Inv(hash, s) && s'.tables == s.tables && s'.plain == s.plain && forall id :: id in s.refs ==> id in s'.refs
    ensures Inv(hash, s')
  {
    forall k ensures Agrees(hash, s', k) { assert Agrees(hash, s, k); }
  }

  /** A node that somebody holds is not taken out: only an unreferenced one is. */
  lemma HeldNodeStays(hash: Hash, s: State, step: Step, s': State, k: Key)
    requires Inv(hash, s) && Next(hash, s, step, s') && k in s.plain && s.refs[s.plain[k]] > 0
    ensures k in s'.plain && s'.plain[k] == s.plain[k] && s'.refs[s.plain[k]] >= s.refs[s.plain[k]] - 1
  {
    if (step.Remove? || step.Create?) && step.k == k {
      LookupIsPlain(hash, s, step.t, k);
    }
    assert s.plain[k] in s.refs;
    hide Inv, Open, SourcesReady, Full;
  }

  // ----- whole runs

  ghost predicate Run(hash: Hash, ss: seq<State>, steps: seq<Step>) {
    |ss| == |steps| + 1 && Init(ss[0]) && forall i :: 0 <= i < |steps| ==> Next(hash, ss[i], steps[i], ss[i + 1])
  }

  lemma {:induction false} RunKeeps(hash: Hash, ss: seq<State>, steps: seq<Step>, n: nat)
    requires Run(hash, ss, steps) && n < |ss|
    ensures Inv(hash, ss[n])
  {
    if n == 0 {
      InitInv(hash, ss[0]);
    } else {
      hide Inv, Next;
      RunKeeps(hash, ss, steps, n - 1);
      NextKeeps(hash, ss[n - 1], steps[n - 1], ss[n]);
    }
  }

  lemma InitInv(hash: Hash, s: State)
    requires Init(s)
    ensures Inv(hash, s)
  {
    assert PowerOfTwo(1) && PowerOfTwo(2) && PowerOfTwo(4) && PowerOfTwo(8) && PowerOfTwo(16);
  }

  /** In every run, whatever bucket a goroutine gets hold of, if it is not frozen then a lookup there finds exactly
      what a plain map holds, and every key of the plain map is found through the head. */
  lemma AlwaysThePlainMap(hash: Hash, ss: seq<State>, steps: seq<Step>, n: nat, t: nat, k: Key)
    requires Run(hash, ss, steps) && n < |ss| && Open(hash, ss[n], t, k)
    ensures HasKey(NodesAt(hash, ss[n], t, k), k) <==> k in ss[n].plain
    ensures forall x :: x in NodesAt(hash, ss[n], t, k) && x.key == k ==> x == Node(k, ss[n].plain[k])
  {
    RunKeeps(hash, ss, steps, n);
    LookupIsPlain(hash, ss[n], t, k);
  }

  /** Once frozen a bucket never changes, so what `initBucket` read may be published at any later time. */
  lemma {:induction false} FrozenForever(hash: Hash, ss: seq<State>, steps: seq<Step>, m: nat, n: nat, t: nat, i: nat)
    requires Run(hash, ss, steps) && m <= n < |ss| && t < |ss[m].tables| && Ready(ss[m].tables[t], i)
    ensures t < |ss[n].tables| && Ready(ss[n].tables[t], i) && ss[n].tables[t].buckets[i] == ss[m].tables[t].buckets[i]
    decreases n
  {
    if m < n {
      FrozenForever(hash, ss, steps, m, n - 1, t, i);
      FrozenStays(hash, ss[n - 1], steps[n - 1], ss[n], t, i);
    }
  }

  lemma FrozenStays(hash: Hash, s: State, step: Step, s': State, t: nat, i: nat)
    requires Next(hash, s, step, s') && t < |s.tables| && Ready(s.tables[t], i)
    ensures t < |s'.tables| && Ready(s'.tables[t], i) && s'.tables[t].buckets[i] == s.tables[t].buckets[i]
  {
    hide InitNodes;
  }

  /** Through the head a lookup is never turned away, as soon as its bucket is initialised. */
  lemma HeadLetsThrough(hash: Hash, ss: seq<State>, steps: seq<Step>, n: nat, k: Key)
    requires Run(hash, ss, steps) && n < |ss|
    ensures |ss[n].tables| > 0
    ensures var s, top := ss[n], |ss[n].tables| - 1; s.tables[top].size > 0 && (Slot(hash(k), s.tables[top]) in s.tables[top].buckets ==> Open(hash, s, top, k))
  {
    RunKeeps(hash, ss, steps, n);
  }
}
