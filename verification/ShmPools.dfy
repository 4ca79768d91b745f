/** Shared-memory pools and buffers (the wl_shm interface of the Wayland protocol): reference
    counts, the trapping of bus faults, and the place of every pixel in its pool. */
module ShmPools {
  import opened Common
  import opened BusfaultTree

  /** A mapping of size bytes at data.  Reading a pool marked cannotSigbus never faults; holds
      says that the client still has the pool's resource. */
  datatype Pool = Pool(size: nat, refcount: int, cannotSigbus: bool, data: int, held: bool)

  /** bpp is the number of bits that a pixel takes up. */
  datatype Layout = Layout(offset: int, width: int, height: int, stride: int, bpp: nat)

  datatype Buffer = Buffer(pool: nat, refcount: int, layout: Layout)

  datatype Shm = Shm(pools: map<nat, Pool>, buffers: map<nat, Buffer>, faults: Tree)

  const TWO_32 := 0x1_0000_0000
  const TWO_64 := 0x1_0000_0000_0000_0000

  function PoolRange(p: Pool): Range { Range(p.data, p.size) }

  // ----- layouts -----

  function AsUnsigned32(x: int): nat {
    x % TWO_32
  }

  /** The stride of rows of the given width, padded to pad bits. */
  function WantedStride(width: nat, bpp: nat, pad: nat): nat
    requires pad > 0
  {
    ((width * bpp + (pad - 1)) / pad) * (pad / 8)
  }

  /** ValidateShmParams, where pad is the scanline pad for the depth of the format. */
  predicate ValidParams(width: nat, height: nat, offset: int, stride: int, bpp: nat, pad: nat, poolSize: nat)
    requires pad > 0
  {
    && offset >= 0 && stride >= 0
    && stride * height < TWO_64
    && offset + stride * height < TWO_64
    && stride == WantedStride(width, bpp, pad)
    && offset + stride * height <= poolSize
  }

  /** The checks of CreateBuffer. */
  predicate Acceptable(l: Layout, pad: nat, poolSize: nat)
    requires pad > 0
  {
    && ValidParams(AsUnsigned32(l.width), AsUnsigned32(l.height), l.offset, l.stride, l.bpp, pad, poolSize)
    && l.width <= 32768 && l.height <= 32768
    && l.width >= 1 && l.height >= 1
  }

  /** Every pixel of the layout lies between the start and the end of size bytes, and in a row
      of its own. */
  ghost predicate Inside(l: Layout, size: nat) {
    forall x, y :: 0 <= x < l.width && 0 <= y < l.height ==>
      PixelInside(l, x, y, size)
  }

  ghost predicate PixelInside(l: Layout, x: int, y: int, size: nat) {
    && 0 <= l.offset + y * l.stride + x * l.bpp / 8
    && x * l.bpp / 8 + l.bpp / 8 <= l.stride
    && l.offset + y * l.stride + x * l.bpp / 8 + l.bpp / 8 <= size
  }

  lemma CeilDiv(n: nat, d: nat)
    requires d > 0
    ensures var q := (n + (d - 1)) / d; q * d >= n && (q > 0 ==> (q - 1) * d < n)
  {
    var q := (n + (d - 1)) / d;
    assert q * d <= n + (d - 1) < q * d + d;
    assert (q - 1) * d == q * d - d;
  }

  /** The wanted stride is the least multiple of the pad that covers a row. */
  lemma WantedStrideIsLeast(width: nat, bpp: nat, pad: nat, k: nat)
    requires pad > 0 && pad % 8 == 0
    ensures var s := WantedStride(width, bpp, pad);
      && s * 8 % pad == 0 && s * 8 >= width * bpp
      && (k * pad >= width * bpp ==> s * 8 <= k * pad)
  {
    var n := width * bpp;
    var q := (n + (pad - 1)) / pad;
    var e := pad / 8;
    CeilDiv(n, pad);
    assert pad == e * 8;
    assert q * e * 8 == q * (e * 8) by { Associative(q, e, 8); }
    assert q * pad % pad == 0 by { MultipleMod(q, pad); }
    if k * pad >= n && k < q {
      Monotone(k, q - 1, pad);
    } else if k >= q {
      Monotone(q, k, pad);
    }
  }

  lemma Associative(a: int, b: int, c: int)
    ensures a * b * c == a * (b * c)
  {
  }

  lemma MultipleMod(q: nat, d: nat)
    requires d > 0
    ensures q * d % d == 0
  {
    var x := q * d;
    var k, r := x / d, x % d;
    assert x == k * d + r && 0 <= r < d;
    assert (k + 1) * d == k * d + d;
    if q > k {
      Monotone(k + 1, q, d);
    } else if q < k {
      Monotone(q, k, d);
    }
  }

  lemma Monotone(a: int, b: int, c: nat)
    requires a <= b
    ensures a * c <= b * c
  {
  }

  /** Pixel x of a row of b-byte pixels ends within the row. */
  lemma RowHolds(x: nat, width: nat, b: nat, stride: nat)
    requires x < width && width * (b * 8) <= stride * 8
    ensures x * (b * 8) / 8 == x * b && x * b + b <= stride
  {
    assert x * b * 8 == x * (b * 8) by { Associative(x, b, 8); }
    assert width * b * 8 == width * (b * 8) by { Associative(width, b, 8); }
    Monotone(x + 1, width, b);
    assert (x + 1) * b == x * b + b;
  }

  /** Row y ends before the end of the last row. */
  lemma RowsFollow(y: nat, height: nat, stride: nat)
    requires y < height
    ensures 0 <= y * stride && y * stride + stride <= stride * height
  {
    Monotone(y + 1, height, stride);
    assert (y + 1) * stride == y * stride + stride;
  }

  /** Every pixel of an accepted buffer lies in the pool. */
  lemma AcceptedIsInside(l: Layout, pad: nat, size: nat)
    requires pad > 0 && pad % 8 == 0 && l.bpp % 8 == 0 && Acceptable(l, pad, size)
    ensures Inside(l, size)
  {
    WantedStrideIsLeast(l.width, l.bpp, pad, 0);
    AcceptedIs(l, pad, size);
    hide Acceptable, WantedStride, Inside;
    AllInside(l, size, l.bpp / 8);
  }

  lemma AcceptedIs(l: Layout, pad: nat, size: nat)
    requires pad > 0 && Acceptable(l, pad, size)
    ensures l.offset >= 0 && l.stride >= 0 && l.width > 0 && l.height > 0
    ensures l.stride == WantedStride(l.width, l.bpp, pad) && l.offset + l.stride * l.height <= size
  {
    assert AsUnsigned32(l.width) == l.width && AsUnsigned32(l.height) == l.height;
    hide WantedStride;
  }

  lemma AllInside(l: Layout, size: nat, b: nat)
    requires l.offset >= 0 && l.stride >= 0 && l.width > 0 && l.height > 0 && l.bpp == b * 8
    requires l.width * l.bpp <= l.stride * 8 && l.offset + l.stride * l.height <= size
    ensures Inside(l, size)
  {
    forall x, y | 0 <= x < l.width && 0 <= y < l.height
      ensures PixelInside(l, x, y, size)
    {
      RowHolds(x, l.width, b, l.stride);
      RowsFollow(y, l.height, l.stride);
    }
  }

  // ----- pools and buffers -----

  /** What the system answers: where a mapping is placed, or None, and whether the file is sealed
      against shrinking and large enough. */
  datatype Mapping = Mapping(at: Option<int>, sealed: bool)

  /** XLRecordBusfault, unless the pool cannot fault. */
  function Trap(faults: Tree, p: Pool): (t: Tree)
    requires Exact(faults)
    ensures Exact(t)
  {
    if p.cannotSigbus then faults else Insert(faults, PoolRange(p))
  }

  /** XLRemoveBusfault, unless the pool cannot fault; None is a call to abort. */
  function Untrap(faults: Tree, p: Pool): (t: Option<Tree>)
    requires Exact(faults)
    ensures t.Some? ==> Exact(t.value)
  {
    if p.cannotSigbus then Some(faults) else Remove(faults, p.data)
  }

  function CreatePool(s: Shm, id: nat, size: int, m: Mapping): (s': Shm)
    requires Exact(s.faults)
    ensures Exact(s'.faults)
  {
    if size <= 0 || m.at.None? then s
    else
      var p := Pool(size, 1, m.sealed, m.at.value, true);
      Shm(s.pools[id := p], s.buffers, Trap(s.faults, p))
  }

  /** The size is compared as an unsigned 64-bit number. */
  function AsUnsigned64(x: int): nat {
    x % TWO_64
  }

  function ResizePool(s: Shm, id: nat, size: int, m: Mapping): (r: Option<Shm>)
    requires Exact(s.faults) && id in s.pools
    ensures r.Some? ==> Exact(r.value.faults)
  {
    var p, size' := s.pools[id], AsUnsigned64(size);
    if size' <= p.size || m.at.None? then Some(s)
    else
      var p' := p.(size := size', data := m.at.value, cannotSigbus := m.sealed);
      match Untrap(s.faults, p)
      case None => None
      case Some(t) => Some(Shm(s.pools[id := p'], s.buffers, Trap(t, p')))
  }

  function CreateBuffer(s: Shm, id: nat, b: nat, l: Layout, pad: nat): Shm
    requires id in s.pools && pad > 0
  {
    if !Acceptable(l, pad, s.pools[id].size) then s
    else Shm(s.pools[id := s.pools[id].(refcount := s.pools[id].refcount + 1)],
             s.buffers[b := Buffer(id, 1, l)], s.faults)
  }

  function RetainBuffer(s: Shm, b: nat): Shm
    requires b in s.buffers
  {
    s.(buffers := s.buffers[b := s.buffers[b].(refcount := s.buffers[b].refcount + 1)])
  }

  function DereferencePool(s: Shm, id: nat): (r: Option<Shm>)
    requires Exact(s.faults) && id in s.pools
    ensures r.Some? ==> Exact(r.value.faults)
  {
    var p := s.pools[id];
    if p.refcount != 1 then Some(s.(pools := s.pools[id := p.(refcount := p.refcount - 1)]))
    else
      match Untrap(s.faults, p)
      case None => None
      case Some(t) => Some(Shm(s.pools - {id}, s.buffers, t))
  }

  /** None also stands for the use of a pool that has been freed. */
  function DereferenceBuffer(s: Shm, b: nat): (r: Option<Shm>)
    requires Exact(s.faults) && b in s.buffers
    ensures r.Some? ==> Exact(r.value.faults)
  {
    var x := s.buffers[b];
    if x.refcount != 1 then Some(s.(buffers := s.buffers[b := x.(refcount := x.refcount - 1)]))
    else if x.pool !in s.pools then None
    else DereferencePool(s.(buffers := s.buffers - {b}), x.pool)
  }

  /** The client's resource for the pool goes away. */
  function DropPoolResource(s: Shm, id: nat): (r: Option<Shm>)
    requires Exact(s.faults) && id in s.pools
    ensures r.Some? ==> Exact(r.value.faults)
  {
    DereferencePool(s.(pools := s.pools[id := s.pools[id].(held := false)]), id)
  }

  // ----- what stays true -----

  ghost function Users(s: Shm, id: nat): set<nat> {
    set b | b in s.buffers && s.buffers[b].pool == id
  }

  /** The ranges in which bus faults have to be ignored. */
  ghost function FaultRanges(pools: map<nat, Pool>): set<Range> {
    set id | id in pools && !pools[id].cannotSigbus :: PoolRange(pools[id])
  }

  ghost predicate PoolsApart(pools: map<nat, Pool>) {
    && (forall i :: i in pools ==> pools[i].size > 0)
    && (forall i, j :: i in pools && j in pools && i != j ==> Apart(PoolRange(pools[i]), PoolRange(pools[j])))
  }

  /** A pool has as many references as there are buffers of it, and one more while the client
      has its resource. */
  ghost predicate Counted(s: Shm) {
    && (forall b :: b in s.buffers ==> s.buffers[b].refcount > 0 && s.buffers[b].pool in s.pools)
    && (forall id :: id in s.pools ==>
          s.pools[id].refcount == |Users(s, id)| + (if s.pools[id].held then 1 else 0) && s.pools[id].refcount > 0)
  }

  ghost predicate PixelsInside(s: Shm) {
    forall b :: b in s.buffers && s.buffers[b].pool in s.pools ==>
      Inside(s.buffers[b].layout, s.pools[s.buffers[b].pool].size)
  }

  ghost predicate ShmInv(s: Shm) {
    PoolsApart(s.pools) && Holds(s.faults, FaultRanges(s.pools)) && Counted(s) && PixelsInside(s)
  }

  /** A new mapping meets no pool that is mapped, other than the one it replaces. */
  ghost predicate FreshRange(pools: map<nat, Pool>, id: nat, x: Range) {
    forall i :: i in pools && i != id ==> Apart(PoolRange(pools[i]), x)
  }

  // ----- trapping -----

  lemma FaultRangesAdd(pools: map<nat, Pool>, id: nat, p: Pool)
    requires id !in pools
    ensures FaultRanges(pools[id := p]) == FaultRanges(pools) + if p.cannotSigbus then {} else {PoolRange(p)}
  {
    var more := pools[id := p];
    forall x | x in FaultRanges(pools)
      ensures x in FaultRanges(more)
    {
      var i :| i in pools && !pools[i].cannotSigbus && PoolRange(pools[i]) == x;
      assert i in more && more[i] == pools[i];
    }
    if !p.cannotSigbus {
      assert id in more && !more[id].cannotSigbus && PoolRange(more[id]) == PoolRange(p);
    }
  }

  lemma TrapHolds(pools: map<nat, Pool>, faults: Tree, id: nat, p: Pool)
    requires PoolsApart(pools) && Holds(faults, FaultRanges(pools))
    requires id !in pools && p.size > 0 && FreshRange(pools, id, PoolRange(p))
    ensures PoolsApart(pools[id := p]) && Holds(Trap(faults, p), FaultRanges(pools[id := p]))
  {
    FaultRangesAdd(pools, id, p);
    if !p.cannotSigbus {
      forall y | y in FaultRanges(pools)
        ensures Apart(PoolRange(p), y)
      {
        var i :| i in pools && !pools[i].cannotSigbus && PoolRange(pools[i]) == y;
        assert Apart(PoolRange(pools[i]), PoolRange(p));
      }
      InsertHolds(faults, FaultRanges(pools), PoolRange(p));
    }
  }

  /** Removing the trap of a live pool never comes to abort. */
  lemma UntrapHolds(pools: map<nat, Pool>, faults: Tree, id: nat)
    requires PoolsApart(pools) && Holds(faults, FaultRanges(pools)) && id in pools
    ensures PoolsApart(pools - {id}) && Untrap(faults, pools[id]).Some?
    ensures Holds(Untrap(faults, pools[id]).value, FaultRanges(pools - {id}))
  {
    var p, fewer := pools[id], pools - {id};
    assert fewer[id := p] == pools;
    FaultRangesAdd(fewer, id, p);
    if !p.cannotSigbus {
      assert PoolRange(p) in FaultRanges(pools);
      RemoveHolds(faults, FaultRanges(pools), p.data);
      forall x
        ensures x in FaultRanges(fewer) <==> x in FaultRanges(pools) && x.data != p.data
      {
        if x in FaultRanges(fewer) {
          var i :| i in fewer && !fewer[i].cannotSigbus && PoolRange(fewer[i]) == x;
          assert Apart(PoolRange(pools[i]), PoolRange(p));
        }
      }
    }
  }

  // ----- counting -----

  lemma UsersAdd(s: Shm, s': Shm, b: nat, x: Buffer, id: nat)
    requires b !in s.buffers && s'.buffers == s.buffers[b := x]
    ensures |Users(s', id)| == |Users(s, id)| + if x.pool == id then 1 else 0
  {
    if x.pool == id {
      assert Users(s', id) == Users(s, id) + {b};
    } else {
      assert Users(s', id) == Users(s, id);
    }
  }

  lemma UsersSame(s: Shm, s': Shm, id: nat)
    requires s'.buffers.Keys == s.buffers.Keys
    requires forall b :: b in s.buffers ==> s'.buffers[b].pool == s.buffers[b].pool
    ensures Users(s', id) == Users(s, id)
  {
  }

  // ----- steps -----

  lemma CreatePoolKeeps(s: Shm, id: nat, size: int, m: Mapping)
    requires ShmInv(s) && id !in s.pools
    requires m.at.Some? && size > 0 ==> FreshRange(s.pools, id, Range(m.at.value, size))
    ensures ShmInv(CreatePool(s, id, size, m))
  {
    if size > 0 && m.at.Some? {
      var p := Pool(size, 1, m.sealed, m.at.value, true);
      var s' := CreatePool(s, id, size, m);
      TrapHolds(s.pools, s.faults, id, p);
      forall i | i in s'.pools
        ensures s'.pools[i].refcount == |Users(s', i)| + (if s'.pools[i].held then 1 else 0)
      {
        UsersSame(s, s', i);
        if i == id { assert Users(s, id) == {}; }
      }
      assert PixelsInside(s');
    }
  }

  lemma ResizePoolKeeps(s: Shm, id: nat, size: int, m: Mapping)
    requires ShmInv(s) && id in s.pools
    requires m.at.Some? ==> FreshRange(s.pools, id, Range(m.at.value, AsUnsigned64(size)))
    ensures ResizePool(s, id, size, m).Some? && ShmInv(ResizePool(s, id, size, m).value)
  {
    var p, size' := s.pools[id], AsUnsigned64(size);
    UntrapHolds(s.pools, s.faults, id);
    if size' > p.size && m.at.Some? {
      var p' := p.(size := size', data := m.at.value, cannotSigbus := m.sealed);
      var s' := ResizePool(s, id, size, m).value;
      TrapHolds(s.pools - {id}, Untrap(s.faults, p).value, id, p');
      assert (s.pools - {id})[id := p'] == s.pools[id := p'];
      ResizedCounted(s, s', id, p');
      ResizedInside(s, s', id, p');
    }
  }

  lemma ResizedCounted(s: Shm, s': Shm, id: nat, p': Pool)
    requires Counted(s) && id in s.pools && s'.pools == s.pools[id := p'] && s'.buffers == s.buffers
    requires p'.refcount == s.pools[id].refcount && p'.held == s.pools[id].held
    ensures Counted(s')
  {
    forall i | i in s'.pools
      ensures s'.pools[i].refcount == |Users(s', i)| + (if s'.pools[i].held then 1 else 0)
    {
      UsersSame(s, s', i);
    }
  }

  lemma ResizedInside(s: Shm, s': Shm, id: nat, p': Pool)
    requires PixelsInside(s) && id in s.pools && s'.pools == s.pools[id := p'] && s'.buffers == s.buffers
    requires p'.size >= s.pools[id].size
    ensures PixelsInside(s')
  {
    forall b | b in s'.buffers && s'.buffers[b].pool in s'.pools
      ensures Inside(s'.buffers[b].layout, s'.pools[s'.buffers[b].pool].size)
    {
      Larger(s.buffers[b].layout, s.pools[s.buffers[b].pool].size, s'.pools[s'.buffers[b].pool].size);
    }
  }

  lemma Larger(l: Layout, size: nat, size': nat)
    requires Inside(l, size) && size <= size'
    ensures Inside(l, size')
  {
    forall x, y | 0 <= x < l.width && 0 <= y < l.height
      ensures PixelInside(l, x, y, size')
    {
      assert PixelInside(l, x, y, size);
    }
  }

  lemma CreateBufferKeeps(s: Shm, id: nat, b: nat, l: Layout, pad: nat)
    requires ShmInv(s) && id in s.pools && b !in s.buffers
    requires pad > 0 && pad % 8 == 0 && l.bpp % 8 == 0
    ensures ShmInv(CreateBuffer(s, id, b, l, pad))
  {
    if Acceptable(l, pad, s.pools[id].size) {
      var s' := CreateBuffer(s, id, b, l, pad);
      SameRanges(s.pools, s'.pools);
      forall i | i in s'.pools
        ensures s'.pools[i].refcount == |Users(s', i)| + (if s'.pools[i].held then 1 else 0)
      {
        UsersAdd(s, s', b, Buffer(id, 1, l), i);
      }
      AcceptedIsInside(l, pad, s.pools[id].size);
      assert PixelsInside(s');
    }
  }

  lemma SameRanges(pools: map<nat, Pool>, pools': map<nat, Pool>)
    requires pools.Keys == pools'.Keys
    requires forall i :: i in pools ==>
      PoolRange(pools'[i]) == PoolRange(pools[i]) && pools'[i].cannotSigbus == pools[i].cannotSigbus
    ensures FaultRanges(pools') == FaultRanges(pools) && (PoolsApart(pools) ==> PoolsApart(pools'))
  {
    forall x
      ensures x in FaultRanges(pools) <==> x in FaultRanges(pools')
    {
      if x in FaultRanges(pools) {
        var i :| i in pools && !pools[i].cannotSigbus && PoolRange(pools[i]) == x;
        assert i in pools' && PoolRange(pools'[i]) == x;
      }
      if x in FaultRanges(pools') {
        var i :| i in pools' && !pools'[i].cannotSigbus && PoolRange(pools'[i]) == x;
        assert i in pools && PoolRange(pools[i]) == x;
      }
    }
    if PoolsApart(pools) {
      forall i | i in pools'
        ensures pools'[i].size > 0
      {
        assert PoolRange(pools'[i]) == PoolRange(pools[i]);
      }
    }
  }

  lemma RetainBufferKeeps(s: Shm, b: nat)
    requires ShmInv(s) && b in s.buffers
    ensures ShmInv(RetainBuffer(s, b))
  {
    var s' := RetainBuffer(s, b);
    forall i | i in s'.pools
      ensures s'.pools[i].refcount == |Users(s', i)| + (if s'.pools[i].held then 1 else 0)
    {
      UsersSame(s, s', i);
    }
    assert PixelsInside(s');
  }

  /** What holds when one reference to a pool is about to be dropped: the count is one more
      than it should be. */
  ghost predicate OneMore(s: Shm, id: nat) {
    && PoolsApart(s.pools) && Holds(s.faults, FaultRanges(s.pools)) && PixelsInside(s) && id in s.pools
    && (forall b :: b in s.buffers ==> s.buffers[b].refcount > 0 && s.buffers[b].pool in s.pools)
    && (forall i :: i in s.pools ==>
          && s.pools[i].refcount > 0
          && s.pools[i].refcount == |Users(s, i)| + (if s.pools[i].held then 1 else 0) + (if i == id then 1 else 0))
  }

  lemma DropReference(s: Shm, id: nat, s': Shm)
    requires OneMore(s, id) && s.pools[id].refcount > 1
    requires s' == s.(pools := s.pools[id := s.pools[id].(refcount := s.pools[id].refcount - 1)])
    ensures ShmInv(s')
  {
    SameRanges(s.pools, s'.pools);
    forall i | i in s'.pools
      ensures s'.pools[i].refcount == |Users(s', i)| + (if s'.pools[i].held then 1 else 0)
    {
      UsersSame(s, s', i);
    }
    assert PixelsInside(s');
  }

  lemma FreePool(s: Shm, id: nat, s': Shm)
    requires OneMore(s, id) && s.pools[id].refcount == 1
    requires s'.pools == s.pools - {id} && s'.buffers == s.buffers
    requires PoolsApart(s'.pools) && Holds(s'.faults, FaultRanges(s'.pools))
    ensures ShmInv(s')
  {
    UsersEmpty(s, id);
    forall i | i in s'.pools
      ensures s'.pools[i].refcount == |Users(s', i)| + (if s'.pools[i].held then 1 else 0)
    {
      UsersSame(s, s', i);
    }
    forall b | b in s'.buffers
      ensures s'.buffers[b].pool in s'.pools
    {
      assert s.buffers[b].pool == id ==> b in Users(s, id);
    }
    assert PixelsInside(s');
  }

  lemma DereferencePoolKeeps(s: Shm, id: nat)
    requires OneMore(s, id)
    ensures DereferencePool(s, id).Some? && ShmInv(DereferencePool(s, id).value)
    ensures id in DereferencePool(s, id).value.pools <==> Users(s, id) != {} || s.pools[id].held
  {
    UntrapHolds(s.pools, s.faults, id);
    UsersEmpty(s, id);
    if s.pools[id].refcount > 1 {
      DropReference(s, id, DereferencePool(s, id).value);
    } else {
      FreePool(s, id, DereferencePool(s, id).value);
    }
  }

  lemma UsersEmpty(s: Shm, id: nat)
    ensures |Users(s, id)| == 0 <==> Users(s, id) == {}
  {
  }

  lemma ReleaseOnce(s: Shm, b: nat, s': Shm)
    requires ShmInv(s) && b in s.buffers && s.buffers[b].refcount > 1
    requires s' == s.(buffers := s.buffers[b := s.buffers[b].(refcount := s.buffers[b].refcount - 1)])
    ensures ShmInv(s')
  {
    forall i | i in s'.pools
      ensures s'.pools[i].refcount == |Users(s', i)| + (if s'.pools[i].held then 1 else 0)
    {
      UsersSame(s, s', i);
    }
    assert PixelsInside(s');
  }

  /** Taking away a buffer leaves its pool with one reference too many. */
  lemma TakeBuffer(s: Shm, b: nat, s1: Shm)
    requires ShmInv(s) && b in s.buffers && s1 == s.(buffers := s.buffers - {b})
    ensures OneMore(s1, s.buffers[b].pool)
  {
    var x := s.buffers[b];
    assert s1.buffers[b := x] == s.buffers;
    forall i | i in s.pools
      ensures s.pools[i].refcount == |Users(s1, i)| + (if s.pools[i].held then 1 else 0)
          + (if i == x.pool then 1 else 0)
    {
      UsersAdd(s1, s, b, x, i);
    }
  }

  lemma DereferenceBufferKeeps(s: Shm, b: nat)
    requires ShmInv(s) && b in s.buffers
    ensures DereferenceBuffer(s, b).Some? && ShmInv(DereferenceBuffer(s, b).value)
  {
    var x := s.buffers[b];
    if x.refcount > 1 {
      ReleaseOnce(s, b, DereferenceBuffer(s, b).value);
    } else {
      var s1 := s.(buffers := s.buffers - {b});
      TakeBuffer(s, b, s1);
      DereferencePoolKeeps(s1, x.pool);
    }
  }

  lemma DropPoolResourceKeeps(s: Shm, id: nat)
    requires ShmInv(s) && id in s.pools && s.pools[id].held
    ensures DropPoolResource(s, id).Some? && ShmInv(DropPoolResource(s, id).value)
  {
    var s1 := s.(pools := s.pools[id := s.pools[id].(held := false)]);
    SameRanges(s.pools, s1.pools);
    forall i | i in s1.pools
      ensures Users(s1, i) == Users(s, i)
    {
      UsersSame(s, s1, i);
    }
    assert PixelsInside(s1);
    DereferencePoolKeeps(s1, id);
  }

  // ----- runs -----

  /** What clients and the compositor do.  Buffers are retained and released by whoever uses
      them, and once by the client that drops the resource. */
  datatype Step =
    | NewPool(id: nat, size: int, m: Mapping)
    | Grow(id: nat, size: int, m: Mapping)
    | NewBuffer(id: nat, b: nat, l: Layout, pad: nat)
    | Retain(b: nat)
    | Release(b: nat)
    | DropPool(id: nat)

  /** Requests come from resources that the client has, references are given up by those that
      have them, mappings are disjoint, and pixels and scanlines take up whole bytes. */
  ghost predicate Enabled(s: Shm, step: Step) {
    match step
    case NewPool(id, size, m) =>
      id !in s.pools && (m.at.Some? && size > 0 ==> FreshRange(s.pools, id, Range(m.at.value, size)))
    case Grow(id, size, m) =>
      && id in s.pools && s.pools[id].held
      && (m.at.Some? ==> FreshRange(s.pools, id, Range(m.at.value, AsUnsigned64(size))))
    case NewBuffer(id, b, l, pad) =>
      && id in s.pools && s.pools[id].held && b !in s.buffers
      && pad > 0 && pad % 8 == 0 && l.bpp % 8 == 0
    case Retain(b) => b in s.buffers
    case Release(b) => b in s.buffers
    case DropPool(id) => id in s.pools && s.pools[id].held
  }

  /** The state after a step, or None if it came to abort. */
  function Do(s: Shm, step: Step): (r: Option<Shm>)
    requires Exact(s.faults) && Possible(s, step)
    ensures r.Some? ==> Exact(r.value.faults)
  {
    match step
    case NewPool(id, size, m) => Some(CreatePool(s, id, size, m))
    case Grow(id, size, m) => ResizePool(s, id, size, m)
    case NewBuffer(id, b, l, pad) => Some(CreateBuffer(s, id, b, l, pad))
    case Retain(b) => Some(RetainBuffer(s, b))
    case Release(b) => DereferenceBuffer(s, b)
    case DropPool(id) => DropPoolResource(s, id)
  }

  /** The objects that the step names exist. */
  predicate Possible(s: Shm, step: Step) {
    match step
    case NewPool(id, size, m) => true
    case Grow(id, size, m) => id in s.pools
    case NewBuffer(id, b, l, pad) => id in s.pools && pad > 0
    case Retain(b) => b in s.buffers
    case Release(b) => b in s.buffers
    case DropPool(id) => id in s.pools
  }

  lemma StepKeeps(s: Shm, step: Step)
    requires ShmInv(s) && Enabled(s, step)
    ensures Do(s, step).Some? && ShmInv(Do(s, step).value)
  {
    match step
    case NewPool(id, size, m) => CreatePoolKeeps(s, id, size, m);
    case Grow(id, size, m) => ResizePoolKeeps(s, id, size, m);
    case NewBuffer(id, b, l, pad) => CreateBufferKeeps(s, id, b, l, pad);
    case Retain(b) => RetainBufferKeeps(s, b);
    case Release(b) => DereferenceBufferKeeps(s, b);
    case DropPool(id) => DropPoolResourceKeeps(s, id);
  }

  /** A pool outlives a step exactly if the client still has its resource or a buffer is still
      in it. */
  lemma PoolLivesWhileUsed(s: Shm, step: Step, id: nat)
    requires ShmInv(s) && Enabled(s, step) && id in s.pools
    ensures Do(s, step).Some?
    ensures var s' := Do(s, step).value;
      id in s'.pools <==> Users(s', id) != {} || (s.pools[id].held && step != DropPool(id))
  {
    StepKeeps(s, step);
    var s' := Do(s, step).value;
    UsersEmpty(s', id);
    HeldStays(s, step, id);
    assert forall b :: b in Users(s', id) ==> s'.buffers[b].pool == id;
    if id in s'.pools {
      assert s'.pools[id].refcount > 0;
    }
  }

  lemma HeldStays(s: Shm, step: Step, id: nat)
    requires ShmInv(s) && Enabled(s, step) && id in s.pools && Do(s, step).Some?
    ensures var s' := Do(s, step).value;
      && (s.pools[id].held && step != DropPool(id) ==> id in s'.pools)
      && (id in s'.pools ==> s'.pools[id].held == (s.pools[id].held && step != DropPool(id)))
  {
    if step.Release? && s.buffers[step.b].refcount == 1 {
      var s1 := s.(buffers := s.buffers - {step.b});
      OthersStay(s1, s.buffers[step.b].pool, id);
      LastButOne(s, s1, step.b);
    } else if step.DropPool? {
      OthersStay(s.(pools := s.pools[step.id := s.pools[step.id].(held := false)]), step.id, id);
    }
  }

  lemma OthersStay(s: Shm, id: nat, i: nat)
    requires Exact(s.faults) && id in s.pools && i in s.pools && DereferencePool(s, id).Some?
    ensures var s' := DereferencePool(s, id).value;
      && (i != id || s.pools[id].refcount != 1 ==> i in s'.pools)
      && (i in s'.pools ==> s'.pools[i].held == s.pools[i].held)
  {
  }

  /** A pool that the client holds has another reference besides that of a buffer. */
  lemma LastButOne(s: Shm, s1: Shm, b: nat)
    requires Counted(s) && b in s.buffers && s1.buffers == s.buffers - {b}
    ensures s.pools[s.buffers[b].pool].held ==> s.pools[s.buffers[b].pool].refcount > 1
  {
    assert s1.buffers[b := s.buffers[b]] == s.buffers;
    UsersAdd(s1, s, b, s.buffers[b], s.buffers[b].pool);
  }

  /** The state after a run from nothing, newest step last, or None if it came to abort. */
  ghost function After(steps: seq<Step>): (r: Option<Shm>)
    ensures r.Some? ==> Exact(r.value.faults)
  {
    if steps == [] then Some(Shm(map[], map[], Leaf))
    else
      match After(steps[..|steps| - 1])
      case None => None
      case Some(s) =>
        var step := steps[|steps| - 1];
        if Possible(s, step) then Do(s, step) else None
  }

  /** Each step is enabled in the state in which it is taken. */
  ghost predicate Allowed(steps: seq<Step>) {
    steps != [] ==>
      var front := steps[..|steps| - 1];
      Allowed(front) && match After(front) case None => true case Some(s) => Enabled(s, steps[|steps| - 1])
  }

  /** No run comes to abort or uses a pool that has been freed, the trapped ranges are always
      those of the live pools that can fault, and every pixel of every live buffer is inside its
      pool. */
  lemma {:induction false} RunKeeps(steps: seq<Step>)
    requires Allowed(steps)
    ensures After(steps).Some? && ShmInv(After(steps).value)
  {
    if steps != [] {
      var front := steps[..|steps| - 1];
      RunKeeps(front);
      StepKeeps(After(front).value, steps[|steps| - 1]);
    }
  }

  /** The pool that the address is in can fault. */
  ghost predicate FaultsAt(s: Shm, id: nat, address: int) {
    id in s.pools && !s.pools[id].cannotSigbus && Contains(PoolRange(s.pools[id]), address)
  }

  /** The signal handler ignores a bus fault exactly if it comes from a live pool that can
      fault, and finds the extent of just that pool. */
  lemma FaultIsOfLivePool(steps: seq<Step>, address: int)
    requires Allowed(steps)
    ensures After(steps).Some?
    ensures var s := After(steps).value;
      && (Detect(s.faults, address).Some? <==> exists id :: FaultsAt(s, id, address))
      && (forall id :: FaultsAt(s, id, address) ==> Detect(s.faults, address) == Some(PoolRange(s.pools[id])))
  {
    RunKeeps(steps);
    var s := After(steps).value;
    DetectIff(s.faults, address);
    if Detect(s.faults, address).Some? {
      var x := Detect(s.faults, address).value;
      assert x in FaultRanges(s.pools);
      var id :| id in s.pools && !s.pools[id].cannotSigbus && PoolRange(s.pools[id]) == x;
      assert FaultsAt(s, id, address);
    }
    forall id | FaultsAt(s, id, address)
      ensures Detect(s.faults, address) == Some(PoolRange(s.pools[id]))
    {
      assert PoolRange(s.pools[id]) in FaultRanges(s.pools);
    }
  }
}
