/** The memory of a pool whose block headers lie between the blocks: which bytes a header
    write reaches, and that writes to headers spare the payloads of live blocks. Shared by
    memheap.c and mem.c. */
module HeapMemory {
  import opened RingList
  import opened Segments

  /** The fixed part of a pool: its first block, the used end marker, the header size, and
      the address of a header outside the pool (the head of a free list, if there is one). */
  datatype Pool = Pool(start: int, tail: int, h: nat, head: int)

  ghost function ToSet(s: seq<int>): set<int> {
    set x | x in s
  }

  ghost predicate PoolOk(p: Pool) {
    && p.h > 0
    && p.start + p.h <= p.tail
    && (p.head + p.h <= p.start || p.tail + p.h <= p.head)
  }

  /** A row of segments that tiles the pool. */
  ghost predicate RowOk(p: Pool, segs: seq<Seg>) {
    PoolOk(p) && Tiled(segs, p.start, p.tail, p.h)
  }

  /** What a byte of the pool holds: user data, or a piece of a header. */
  datatype Cell = Data(b: int) | Header

  /** Writing to the header at a overwrites h bytes from a on. */
  function Stamp(b: map<int, Cell>, a: int, h: nat): map<int, Cell> {
    map k | k in b :: if a <= k < a + h then Header else b[k]
  }

  lemma StampKeys(b: map<int, Cell>, a: int, h: nat)
    ensures forall k :: k in Stamp(b, a, h) <==> k in b
  {
  }

  /** Byte k belongs to none of the headers w. */
  ghost predicate Clear(k: int, w: set<int>, h: nat) {
    forall a :: a in w ==> k < a || a + h <= k
  }

  /** Nothing outside the headers w changed. */
  ghost predicate Untouched(b: map<int, Cell>, b': map<int, Cell>, w: set<int>, h: nat) {
    b'.Keys == b.Keys && forall k :: k in b && Clear(k, w, h) ==> b'[k] == b[k]
  }

  /** A header write inside the allowed headers. */
  lemma UntouchedStamp(b: map<int, Cell>, b': map<int, Cell>, w: set<int>, a: int, h: nat)
    requires Untouched(b, b', w, h) && a in w
    ensures Untouched(b, Stamp(b', a, h), w, h)
  {
  }

  lemma StartUntouched(b: map<int, Cell>, w: set<int>, h: nat)
    ensures Untouched(b, b, w, h)
  {
  }

  lemma KeysKept(b: map<int, Cell>, b': map<int, Cell>, w: set<int>, h: nat)
    requires Untouched(b, b', w, h)
    ensures b'.Keys == b.Keys && forall k :: k in b <==> k in b'
  {
    assert forall k :: k in b <==> k in b.Keys;
  }

  /** The headers of a row of segments, the end marker and the free list head. */
  ghost function Row(p: Pool, segs: seq<Seg>): set<int> {
    ToSet(Addrs(segs)) + {p.tail, p.head}
  }

  lemma BlockRow(p: Pool, segs: seq<Seg>, i: nat)
    requires i < |segs|
    ensures segs[i].addr in Row(p, segs) && StartOf(segs, p.tail, i + 1) in Row(p, segs)
  {
    assert Addrs(segs)[i] in Addrs(segs);
    if i + 1 < |segs| { assert Addrs(segs)[i + 1] in Addrs(segs); }
  }

  lemma TailRow(p: Pool, segs: seq<Seg>)
    ensures p.tail in Row(p, segs) && p.head in Row(p, segs)
  {
  }

  lemma RowMark(p: Pool, segs: seq<Seg>, i: nat, used: bool)
    requires i < |segs|
    ensures Row(p, Mark(segs, i, used)) == Row(p, segs)
  {
    AddrsChange(segs, p.h, i, 0, used);
  }

  lemma RowMerge(p: Pool, segs: seq<Seg>, i: nat)
    requires i + 1 < |segs|
    ensures Row(p, Merge(segs, i, p.h)) <= Row(p, segs)
  {
    AddrsChange(segs, p.h, i, 0, true);
    var a, r := Addrs(segs), RemoveAt(Addrs(segs), i + 1);
    forall x | x in r ensures x in a {
      var k :| 0 <= k < |r| && r[k] == x;
      assert x == if k <= i then a[k] else a[k + 1];
    }
  }

  /** A payload byte lies in no header. */
  lemma PayloadClear(p: Pool, segs: seq<Seg>, i: nat, k: int)
    requires RowOk(p, segs) && i < |segs|
    requires segs[i].addr + p.h <= k < segs[i].addr + p.h + segs[i].size
    ensures Clear(k, Row(p, segs), p.h) && p.start <= k < p.tail
  {
    StartsFirst(segs, p.start, p.tail, p.h, i);
    Ordered(segs, p.start, p.tail, p.h, i, |segs|);
    forall a | a in Row(p, segs)
      ensures k < a || a + p.h <= k
    {
      if a in Addrs(segs) {
        var j :| 0 <= j < |segs| && Addrs(segs)[j] == a;
        if i != j { Disjoint(segs, p.start, p.tail, p.h, i, j); }
      }
    }
  }

  /** The payload of s holds the same bytes in both memories. */
  ghost predicate SamePayload(b: map<int, Cell>, b': map<int, Cell>, a: int, size: nat) {
    forall k :: a <= k < a + size ==> k in b && k in b' && b'[k] == b[k]
  }

  /** Writes to headers of the rows before and after an operation spare the payload bytes
      that belong to segment i before and to segment j after. */
  lemma PayloadSpared(p: Pool, segs: seq<Seg>, segs': seq<Seg>, b: map<int, Cell>, b': map<int, Cell>,
                      i: nat, j: nat, n: nat)
    requires RowOk(p, segs) && RowOk(p, segs')
    requires i < |segs| && j < |segs'| && segs[i].addr == segs'[j].addr && n <= segs[i].size && n <= segs'[j].size
    requires Untouched(b, b', Row(p, segs) + Row(p, segs'), p.h)
    requires forall k :: p.start <= k < p.tail ==> k in b
    ensures SamePayload(b, b', segs[i].addr + p.h, n)
  {
    forall k | segs[i].addr + p.h <= k < segs[i].addr + p.h + n
      ensures k in b && k in b' && b'[k] == b[k]
    {
      PayloadClear(p, segs, i, k);
      PayloadClear(p, segs', j, k);
      assert Clear(k, Row(p, segs) + Row(p, segs'), p.h);
    }
  }

  /** Every segment that is live before and after keeps its bytes. */
  ghost predicate Spared(p: Pool, segs: seq<Seg>, segs': seq<Seg>, b: map<int, Cell>, b': map<int, Cell>) {
    forall s :: s in Live(segs) && s in Live(segs') ==> SamePayload(b, b', s.addr + p.h, s.size)
  }

  lemma AllSpared(p: Pool, segs: seq<Seg>, segs': seq<Seg>, b: map<int, Cell>, b': map<int, Cell>)
    requires RowOk(p, segs) && RowOk(p, segs')
    requires Untouched(b, b', Row(p, segs) + Row(p, segs'), p.h)
    requires forall k :: p.start <= k < p.tail ==> k in b
    ensures Spared(p, segs, segs', b, b')
  {
    forall s | s in Live(segs) && s in Live(segs')
      ensures SamePayload(b, b', s.addr + p.h, s.size)
    {
      var i :| 0 <= i < |segs| && segs[i] == s;
      var j :| 0 <= j < |segs'| && segs'[j] == s;
      PayloadSpared(p, segs, segs', b, b', i, j, s.size);
    }
  }

  lemma NothingTouched(p: Pool, segs: seq<Seg>, b: map<int, Cell>)
    requires RowOk(p, segs)
    requires forall k :: p.start <= k < p.tail ==> k in b
    ensures Spared(p, segs, segs, b, b)
  {
    AllSpared(p, segs, segs, b, b);
  }

  /** Segment i was resized to hold n bytes: it is segment j now, its first bytes are as
      before, and every other live block kept its place, size and bytes. */
  ghost predicate Resized(p: Pool, segs: seq<Seg>, segs': seq<Seg>, b: map<int, Cell>, b': map<int, Cell>,
                          i: nat, j: nat, n: nat)
  {
    && i < |segs| && j < |segs'| && segs'[j].used && segs'[j].size >= n
    && Live(segs') == Live(segs) - {segs[i]} + {segs'[j]}
    && Spared(p, segs, segs', b, b')
    && SameStart(b, b', segs[i].addr + p.h, segs'[j].addr + p.h, if segs[i].size < n then segs[i].size else n)
  }

  /** The n bytes at a in b are the n bytes at a' in b'. */
  ghost predicate SameStart(b: map<int, Cell>, b': map<int, Cell>, a: int, a': int, n: nat) {
    forall k :: 0 <= k < n ==> SameByte(b, b', a, a', k)
  }

  ghost predicate SameByte(b: map<int, Cell>, b': map<int, Cell>, a: int, a': int, k: nat) {
    a + k in b && a' + k in b' && b'[a' + k] == b[a + k]
  }

  lemma SameStartInPlace(b: map<int, Cell>, b': map<int, Cell>, a: int, n: nat)
    requires SamePayload(b, b', a, n)
    ensures SameStart(b, b', a, a, n)
  {
  }

  /** Header writes that leave segment i in its place resize it. */
  lemma InPlace(p: Pool, segs: seq<Seg>, segs': seq<Seg>, b: map<int, Cell>, b': map<int, Cell>, w: set<int>,
                i: nat, n: nat)
    requires RowOk(p, segs) && RowOk(p, segs')
    requires i < |segs| && i < |segs'| && segs'[i] == Seg(segs[i].addr, n, true)
    requires Live(segs') == Live(segs) - {segs[i]} + {segs'[i]}
    requires w == Row(p, segs) + Row(p, segs') && Untouched(b, b', w, p.h)
    requires forall k :: p.start <= k < p.tail + p.h ==> k in b
    ensures Resized(p, segs, segs', b, b', i, i, n)
    ensures forall k :: p.start <= k < p.tail + p.h ==> k in b'
  {
    hide Row, Tiled, Untouched, SameStart, Spared, Live;
    AllSpared(p, segs, segs', b, b');
    var m := if segs[i].size < n then segs[i].size else n;
    PayloadSpared(p, segs, segs', b, b', i, i, m);
    SameStartInPlace(b, b', segs[i].addr + p.h, m);
    KeysKept(b, b', w, p.h);
  }

  lemma StillThere(segs: seq<Seg>, i: nat, segs': seq<Seg>) returns (j: nat)
    requires i < |segs| && segs[i].used && segs[i] in Live(segs')
    ensures j < |segs'| && segs'[j] == segs[i]
  {
    j :| 0 <= j < |segs'| && segs'[j] == segs[i];
  }

  lemma LiveHas(segs: seq<Seg>, i: nat)
    requires i < |segs| && segs[i].used
    ensures segs[i] in Live(segs)
  {
  }

  lemma KeptAsIs(p: Pool, segs: seq<Seg>, b: map<int, Cell>, i: nat, n: nat)
    requires RowOk(p, segs) && i < |segs| && segs[i].used && n <= segs[i].size
    requires forall k :: p.start <= k < p.tail ==> k in b
    ensures Resized(p, segs, segs, b, b, i, i, n)
  {
    NothingTouched(p, segs, b);
    PayloadSpared(p, segs, segs, b, b, i, i, n);
    SameStartInPlace(b, b, segs[i].addr + p.h, n);
    assert segs[i] in Live(segs);
  }

  lemma ResizedLess(p: Pool, segs: seq<Seg>, segs': seq<Seg>, b: map<int, Cell>, b': map<int, Cell>,
                    i: nat, j: nat, n: nat, n': nat)
    requires Resized(p, segs, segs', b, b', i, j, n) && n' <= n
    ensures Resized(p, segs, segs', b, b', i, j, n')
  {
    hide Live, Spared;
  }

  lemma ResizedSize(p: Pool, segs: seq<Seg>, segs': seq<Seg>, b: map<int, Cell>, b': map<int, Cell>,
                    i: nat, j: nat, n: nat)
    requires Resized(p, segs, segs', b, b', i, j, n)
    ensures j < |segs'| && segs'[j].size >= n
  {
  }

  /** Allocate, copy and free together resize a block. */
  lemma MoveResized(p: Pool, s0: seq<Seg>, s1: seq<Seg>, s2: seq<Seg>, b0: map<int, Cell>, b1: map<int, Cell>,
                    b2: map<int, Cell>, b3: map<int, Cell>, i: nat, i1: nat, a: nat, j: nat, n: nat, len: nat)
    requires RowOk(p, s1)
    requires i < |s0| && i1 < |s1| && a < |s1| && j < |s2|
    requires s0[i].used && s1[i1] == s0[i] && s2[j] == s1[a] && s1[a].used
    requires n <= s1[a].size && len == if s0[i].size < n then s0[i].size else n
    requires Live(s1) == Live(s0) + {s1[a]} && s1[a] !in Live(s0) && Live(s2) == Live(s1) - {s1[i1]}
    requires Spared(p, s0, s1, b0, b1) && Spared(p, s1, s2, b2, b3)
    requires b2.Keys == b1.Keys && SameStart(b1, b2, s0[i].addr + p.h, s1[a].addr + p.h, len)
    requires forall k :: k in b2 && !(s1[a].addr + p.h <= k < s1[a].addr + p.h + len) ==> b2[k] == b1[k]
    ensures Resized(p, s0, s2, b0, b3, i, j, n)
  {
    hide Tiled, Live, SamePayload, SameStart;
    var x, y := s0[i], s1[a];
    LiveHas(s0, i);
    LiveHas(s1, a);
    forall s | s in Live(s0) && s in Live(s2)
      ensures SamePayload(b0, b3, s.addr + p.h, s.size)
    {
      assert s in Live(s1) && s != y;
      LiveApart(p, s1, s, a);
      OverCopy(b0, b1, b2, b3, s.addr + p.h, s.size, y.addr + p.h, len);
    }
    StartChain(b0, b1, b2, b3, x.addr + p.h, y.addr + p.h, len, x.size, y.size);
  }

  lemma StartChain(b0: map<int, Cell>, b1: map<int, Cell>, b2: map<int, Cell>, b3: map<int, Cell>,
                   a: int, a': int, n: nat, m: nat, m': nat)
    requires SamePayload(b0, b1, a, m) && SameStart(b1, b2, a, a', n) && SamePayload(b2, b3, a', m')
    requires n <= m && n <= m'
    ensures SameStart(b0, b3, a, a', n)
  {
    forall k: nat | 0 <= k < n ensures SameByte(b0, b3, a, a', k) {
      assert SameByte(b1, b2, a, a', k);
    }
  }

  lemma LiveApart(p: Pool, segs: seq<Seg>, s: Seg, a: nat)
    requires RowOk(p, segs) && a < |segs| && s in Live(segs) && s != segs[a]
    ensures s.addr + p.h + s.size <= segs[a].addr || segs[a].addr + p.h + segs[a].size <= s.addr
  {
    var m :| 0 <= m < |segs| && segs[m] == s;
    Disjoint(segs, p.start, p.tail, p.h, m, a);
  }

  /** Bytes outside the target of a copy survive allocation, copy and free. */
  lemma OverCopy(b0: map<int, Cell>, b1: map<int, Cell>, b2: map<int, Cell>, b3: map<int, Cell>,
                 a: int, n: nat, dst: int, len: nat)
    requires SamePayload(b0, b1, a, n) && SamePayload(b2, b3, a, n)
    requires a + n <= dst || dst + len <= a
    requires b2.Keys == b1.Keys && forall k :: k in b2 && !(dst <= k < dst + len) ==> b2[k] == b1[k]
    ensures SamePayload(b0, b3, a, n)
  {
  }

  /** rt_memcpy between two disjoint payloads. */
  method CopyBytes(bytes: map<int, Cell>, dst: int, src: int, n: nat) returns (r: map<int, Cell>)
    requires dst + n <= src || src + n <= dst
    requires forall k :: src <= k < src + n ==> k in bytes
    requires forall k :: dst <= k < dst + n ==> k in bytes
    ensures r.Keys == bytes.Keys
    ensures SameStart(bytes, r, src, dst, n)
    ensures forall k :: k in r && !(dst <= k < dst + n) ==> r[k] == bytes[k]
  {
    r := bytes;
    var i := 0;
    while i < n
      invariant 0 <= i <= n && r.Keys == bytes.Keys
      invariant SameStart(bytes, r, src, dst, i)
      invariant forall k :: k in r && !(dst <= k < dst + i) ==> r[k] == bytes[k]
    {
      ghost var b := r;
      assert src + i in r && dst + i in r;
      r := r[dst + i := r[src + i]];
      i := i + 1;
      forall k: nat | 0 <= k < i ensures SameByte(bytes, r, src, dst, k) {
        if k < i - 1 { assert SameByte(bytes, b, src, dst, k); }
      }
    }
  }
}
