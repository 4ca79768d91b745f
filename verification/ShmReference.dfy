/** What clients see of pools and buffers: who has what, without reference counts and traps.  The
    counted pools of ShmPools are, over every run, just the ones that a client or a buffer still
    has. */
module ShmReference {
  import opened Common
  import opened BusfaultTree
  import opened ShmPools

  datatype SeenPool = SeenPool(size: nat, data: int, sealed: bool, held: bool)

  datatype SeenBuffer = SeenBuffer(pool: nat, layout: Layout, uses: int)

  datatype Seen = Seen(pools: map<nat, SeenPool>, buffers: map<nat, SeenBuffer>)

  function SeenOfPool(p: Pool): SeenPool { SeenPool(p.size, p.data, p.cannotSigbus, p.held) }

  function SeenOfBuffer(x: Buffer): SeenBuffer { SeenBuffer(x.pool, x.layout, x.refcount) }

  function SeenPools(pools: map<nat, Pool>): (r: map<nat, SeenPool>)
    ensures r.Keys == pools.Keys && forall id :: id in pools ==> r[id] == SeenOfPool(pools[id])
  {
    map id | id in pools :: SeenOfPool(pools[id])
  }

  function SeenBuffers(buffers: map<nat, Buffer>): (r: map<nat, SeenBuffer>)
    ensures r.Keys == buffers.Keys && forall b :: b in buffers ==> r[b] == SeenOfBuffer(buffers[b])
  {
    map b | b in buffers :: SeenOfBuffer(buffers[b])
  }

  function SeenOf(s: Shm): Seen {
    Seen(SeenPools(s.pools), SeenBuffers(s.buffers))
  }

  lemma PoolSet(pools: map<nat, Pool>, id: nat, p: Pool)
    ensures SeenPools(pools[id := p]) == SeenPools(pools)[id := SeenOfPool(p)]
  {
  }

  lemma PoolGone(pools: map<nat, Pool>, id: nat)
    ensures SeenPools(pools - {id}) == SeenPools(pools) - {id}
  {
  }

  lemma BufferSet(buffers: map<nat, Buffer>, b: nat, x: Buffer)
    ensures SeenBuffers(buffers[b := x]) == SeenBuffers(buffers)[b := SeenOfBuffer(x)]
  {
  }

  lemma BufferGone(buffers: map<nat, Buffer>, b: nat)
    ensures SeenBuffers(buffers - {b}) == SeenBuffers(buffers) - {b}
  {
  }

  /** What a client may ask for: a size that X can draw, rows of just the padded width, and all of
      them in the pool. */
  predicate Sound(l: Layout, pad: nat, size: nat)
    requires pad > 0
  {
    && 1 <= l.width <= 32768 && 1 <= l.height <= 32768 && l.offset >= 0
    && l.stride == WantedStride(l.width, l.bpp, pad)
    && l.offset + l.stride * l.height <= size
  }

  lemma Product(a: int, b: int)
    requires a >= 0 && b >= 0
    ensures a * b >= 0
  {
  }

  /** The checks of the source, with their wrapping arithmetic, accept just that. */
  lemma AcceptableIff(l: Layout, pad: nat, size: nat)
    requires pad > 0 && size < TWO_64
    ensures Acceptable(l, pad, size) <==> Sound(l, pad, size)
  {
    if 1 <= l.width <= 32768 && 1 <= l.height <= 32768 {
      assert AsUnsigned32(l.width) == l.width && AsUnsigned32(l.height) == l.height;
      hide WantedStride;
      if l.offset >= 0 && l.stride >= 0 {
        Product(l.stride, l.height);
      }
    }
  }

  /** A pool goes when neither its client nor a buffer has it any more. */
  function Collect(r: Seen, id: nat): Seen
    requires id in r.pools
  {
    if r.pools[id].held || exists b :: b in r.buffers && r.buffers[b].pool == id then r
    else r.(pools := r.pools - {id})
  }

  predicate Known(r: Seen, step: Step) {
    match step
    case NewPool(_, _, _) => true
    case Grow(id, _, _) => id in r.pools
    case NewBuffer(id, _, _, pad) => id in r.pools && pad > 0
    case Retain(b) => b in r.buffers
    case Release(b) => b in r.buffers && r.buffers[b].pool in r.pools
    case DropPool(id) => id in r.pools
  }

  function SeenStep(r: Seen, step: Step): Seen
    requires Known(r, step)
  {
    match step
    case NewPool(id, size, m) =>
      if size > 0 && m.at.Some? then r.(pools := r.pools[id := SeenPool(size, m.at.value, m.sealed, true)]) else r
    case Grow(id, size, m) =>
      var n, p := AsUnsigned64(size), r.pools[id];
      if n > p.size && m.at.Some? then r.(pools := r.pools[id := SeenPool(n, m.at.value, m.sealed, p.held)]) else r
    case NewBuffer(id, b, l, pad) =>
      if Sound(l, pad, r.pools[id].size) then r.(buffers := r.buffers[b := SeenBuffer(id, l, 1)]) else r
    case Retain(b) => r.(buffers := r.buffers[b := r.buffers[b].(uses := r.buffers[b].uses + 1)])
    case Release(b) =>
      var x := r.buffers[b];
      if x.uses != 1 then r.(buffers := r.buffers[b := x.(uses := x.uses - 1)])
      else Collect(r.(buffers := r.buffers - {b}), x.pool)
    case DropPool(id) => Collect(r.(pools := r.pools[id := r.pools[id].(held := false)]), id)
  }

  // ----- one step -----

  /** Sizes are 32-bit numbers. */
  predicate Fits(step: Step) {
    step.NewPool? ==> step.size < TWO_32
  }

  ghost predicate Sizes(s: Shm) {
    forall id :: id in s.pools ==> s.pools[id].size < TWO_64
  }

  /** Nobody sees a reference count. */
  lemma CountUnseen(pools: map<nat, Pool>, id: nat, n: int)
    requires id in pools
    ensures SeenPools(pools[id := pools[id].(refcount := n)]) == SeenPools(pools)
  {
    var p := pools[id].(refcount := n);
    PoolSet(pools, id, p);
    assert SeenPools(pools)[id] == SeenOfPool(p);
  }

  lemma UsersSeen(s: Shm, id: nat)
    ensures Users(s, id) != {} <==> exists b :: b in SeenBuffers(s.buffers) && SeenBuffers(s.buffers)[b].pool == id
  {
    if b :| b in Users(s, id) {
      assert b in SeenBuffers(s.buffers) && SeenBuffers(s.buffers)[b].pool == id;
    }
    if b :| b in SeenBuffers(s.buffers) && SeenBuffers(s.buffers)[b].pool == id {
      assert b in Users(s, id);
    }
  }

  lemma CollectSees(s: Shm, id: nat)
    requires OneMore(s, id)
    ensures DereferencePool(s, id).Some? && SeenOf(DereferencePool(s, id).value) == Collect(SeenOf(s), id)
  {
    assert Exact(s.faults) && id in s.pools;
    DereferencePoolKeeps(s, id);
    hide OneMore, ShmInv, Users;
    UsersSeen(s, id);
    DereferenceSees(s, id);
    hide DereferencePool, SeenPools, SeenBuffers;
    CountUnseen(s.pools, id, s.pools[id].refcount - 1);
    PoolGone(s.pools, id);
  }

  lemma DereferenceSees(s: Shm, id: nat)
    requires Exact(s.faults) && id in s.pools && DereferencePool(s, id).Some?
    ensures var s', p := DereferencePool(s, id).value, s.pools[id];
      && s'.buffers == s.buffers
      && s'.pools == if p.refcount != 1 then s.pools[id := p.(refcount := p.refcount - 1)] else s.pools - {id}
  {
  }

  lemma ReleaseSees(s: Shm, b: nat)
    requires ShmInv(s) && b in s.buffers
    ensures s.buffers[b].pool in s.pools
    ensures DereferenceBuffer(s, b).Some? && SeenOf(DereferenceBuffer(s, b).value) == SeenStep(SeenOf(s), Release(b))
  {
    var x := s.buffers[b];
    assert x.pool in s.pools && Exact(s.faults);
    var s1 := s.(buffers := s.buffers - {b});
    TakeBuffer(s, b, s1);
    hide *;
    ReleaseIs(s, b);
    if x.refcount == 1 {
      CollectSees(s1, x.pool);
      LastUseSeen(s, b);
    } else {
      UseSeen(s, b);
    }
  }

  lemma ReleaseIs(s: Shm, b: nat)
    requires Exact(s.faults) && b in s.buffers && s.buffers[b].pool in s.pools
    ensures var x := s.buffers[b];
      DereferenceBuffer(s, b) ==
        if x.refcount == 1 then DereferencePool(s.(buffers := s.buffers - {b}), x.pool)
        else Some(s.(buffers := s.buffers[b := x.(refcount := x.refcount - 1)]))
  {
    hide DereferencePool;
  }

  lemma LastUseSeen(s: Shm, b: nat)
    requires b in s.buffers && s.buffers[b].pool in s.pools && s.buffers[b].refcount == 1
    ensures SeenStep(SeenOf(s), Release(b)) == Collect(SeenOf(s.(buffers := s.buffers - {b})), s.buffers[b].pool)
  {
    hide SeenPools, SeenBuffers, Collect;
    BufferGone(s.buffers, b);
  }

  lemma UseSeen(s: Shm, b: nat)
    requires b in s.buffers && s.buffers[b].pool in s.pools && s.buffers[b].refcount != 1
    ensures SeenStep(SeenOf(s), Release(b))
         == SeenOf(s.(buffers := s.buffers[b := s.buffers[b].(refcount := s.buffers[b].refcount - 1)]))
  {
    hide SeenPools, SeenBuffers, Collect;
    BufferSet(s.buffers, b, s.buffers[b].(refcount := s.buffers[b].refcount - 1));
  }

  lemma DropSees(s: Shm, id: nat)
    requires ShmInv(s) && id in s.pools && s.pools[id].held
    ensures DropPoolResource(s, id).Some? && SeenOf(DropPoolResource(s, id).value) == SeenStep(SeenOf(s), DropPool(id))
  {
    var p := s.pools[id].(held := false);
    var s1 := s.(pools := s.pools[id := p]);
    assert Exact(s.faults);
    hide *;
    HeldDropped(s, id, s1);
    CollectSees(s1, id);
    DropSeen(s, id);
  }

  lemma DropSeen(s: Shm, id: nat)
    requires Exact(s.faults) && id in s.pools
    ensures var s1 := s.(pools := s.pools[id := s.pools[id].(held := false)]);
      DropPoolResource(s, id) == DereferencePool(s1, id)
      && SeenStep(SeenOf(s), DropPool(id)) == Collect(SeenOf(s1), id)
  {
    hide SeenPools, SeenBuffers, Collect, DereferencePool;
    PoolSet(s.pools, id, s.pools[id].(held := false));
  }

  lemma HeldDropped(s: Shm, id: nat, s1: Shm)
    requires ShmInv(s) && id in s.pools && s.pools[id].held
    requires s1 == s.(pools := s.pools[id := s.pools[id].(held := false)])
    ensures OneMore(s1, id)
  {
    SameRanges(s.pools, s1.pools);
    forall i | i in s1.pools
      ensures Users(s1, i) == Users(s, i)
    {
      UsersSame(s, s1, i);
    }
    assert PixelsInside(s1);
  }

  lemma GrowSees(s: Shm, id: nat, size: int, m: Mapping)
    requires ShmInv(s) && id in s.pools
    requires m.at.Some? ==> FreshRange(s.pools, id, Range(m.at.value, AsUnsigned64(size)))
    ensures ResizePool(s, id, size, m).Some?
    ensures SeenOf(ResizePool(s, id, size, m).value) == SeenStep(SeenOf(s), Grow(id, size, m))
  {
    assert Exact(s.faults);
    ResizePoolKeeps(s, id, size, m);
    hide ShmInv, FreshRange;
    GrownPools(s, id, size, m);
    hide ResizePool, SeenPools, SeenBuffers, AsUnsigned64;
    if m.at.Some? {
      var p := s.pools[id];
      PoolSet(s.pools, id, p.(size := AsUnsigned64(size), data := m.at.value, cannotSigbus := m.sealed));
    }
  }

  lemma GrownPools(s: Shm, id: nat, size: int, m: Mapping)
    requires Exact(s.faults) && id in s.pools && ResizePool(s, id, size, m).Some?
    ensures var s', p, n := ResizePool(s, id, size, m).value, s.pools[id], AsUnsigned64(size);
      && s'.buffers == s.buffers
      && s'.pools == if n <= p.size || m.at.None? then s.pools
                     else s.pools[id := p.(size := n, data := m.at.value, cannotSigbus := m.sealed)]
  {
  }

  lemma CreateSees(s: Shm, id: nat, size: int, m: Mapping)
    requires Exact(s.faults)
    ensures SeenOf(CreatePool(s, id, size, m)) == SeenStep(SeenOf(s), NewPool(id, size, m))
  {
    hide SeenPools, SeenBuffers, Trap;
    if size > 0 && m.at.Some? {
      PoolSet(s.pools, id, Pool(size, 1, m.sealed, m.at.value, true));
    }
  }

  lemma BufferSees(s: Shm, id: nat, b: nat, l: Layout, pad: nat)
    requires id in s.pools && pad > 0 && s.pools[id].size < TWO_64
    ensures SeenOf(CreateBuffer(s, id, b, l, pad)) == SeenStep(SeenOf(s), NewBuffer(id, b, l, pad))
  {
    AcceptableIff(l, pad, s.pools[id].size);
    hide SeenPools, SeenBuffers, Acceptable, Sound;
    if Sound(l, pad, s.pools[id].size) {
      CountUnseen(s.pools, id, s.pools[id].refcount + 1);
      BufferSet(s.buffers, b, Buffer(id, 1, l));
    }
  }

  lemma RetainSees(s: Shm, b: nat)
    requires b in s.buffers
    ensures SeenOf(RetainBuffer(s, b)) == SeenStep(SeenOf(s), Retain(b))
  {
    hide SeenPools, SeenBuffers;
    BufferSet(s.buffers, b, s.buffers[b].(refcount := s.buffers[b].refcount + 1));
  }

  lemma StepSees(s: Shm, step: Step)
    requires ShmInv(s) && Enabled(s, step) && Sizes(s)
    ensures Known(SeenOf(s), step)
    ensures Do(s, step).Some? && SeenOf(Do(s, step).value) == SeenStep(SeenOf(s), step)
  {
    assert Exact(s.faults);
    hide ShmInv, SeenStep, CreatePool, ResizePool, CreateBuffer, RetainBuffer, DereferenceBuffer, DropPoolResource;
    match step
    case NewPool(id, size, m) => CreateSees(s, id, size, m);
    case Grow(id, size, m) => GrowSees(s, id, size, m);
    case NewBuffer(id, b, l, pad) => BufferSees(s, id, b, l, pad);
    case Retain(b) => RetainSees(s, b);
    case Release(b) => ReleaseSees(s, b);
    case DropPool(id) => DropSees(s, id);
  }

  ghost predicate SeenSizes(r: Seen) {
    forall id :: id in r.pools ==> r.pools[id].size < TWO_64
  }

  lemma SeenSizesStay(r: Seen, step: Step)
    requires Known(r, step) && Fits(step) && SeenSizes(r)
    ensures SeenSizes(SeenStep(r, step))
  {
    hide WantedStride;
  }

  lemma SizesSeen(s: Shm)
    ensures SeenSizes(SeenOf(s)) <==> Sizes(s)
  {
    if SeenSizes(SeenOf(s)) {
      forall id | id in s.pools
        ensures s.pools[id].size < TWO_64
      {
        assert SeenOf(s).pools[id].size == s.pools[id].size;
      }
    }
  }

  lemma SizesStay(s: Shm, step: Step)
    requires ShmInv(s) && Enabled(s, step) && Sizes(s) && Fits(step)
    ensures Do(s, step).Some? && Sizes(Do(s, step).value)
  {
    assert Exact(s.faults);
    hide *;
    StepSees(s, step);
    SizesSeen(s);
    SeenSizesStay(SeenOf(s), step);
    SizesSeen(Do(s, step).value);
  }

  // ----- runs -----

  /** What clients see after a run, by the steps alone. */
  ghost function SeenAfter(steps: seq<Step>): Option<Seen> {
    if steps == [] then Some(Seen(map[], map[]))
    else
      match SeenAfter(steps[..|steps| - 1])
      case None => None
      case Some(r) => if Known(r, steps[|steps| - 1]) then Some(SeenStep(r, steps[|steps| - 1])) else None
  }

  /** Over any run the pools and buffers, with their sizes, places, layouts and uses, are those that
      the steps give: every request that is sound is granted, and no other. */
  lemma {:induction false} RunIsSeen(steps: seq<Step>)
    requires Allowed(steps) && forall i :: 0 <= i < |steps| ==> Fits(steps[i])
    ensures After(steps).Some? && Sizes(After(steps).value)
    ensures SeenAfter(steps) == Some(SeenOf(After(steps).value))
  {
    if steps == [] {
      assert SeenOf(Shm(map[], map[], Leaf)) == Seen(map[], map[]);
    } else {
      var front, step := steps[..|steps| - 1], steps[|steps| - 1];
      RunIsSeen(front);
      RunKeeps(front);
      hide ShmInv, SeenStep, Do, SeenOf;
      StepSees(After(front).value, step);
      SizesStay(After(front).value, step);
      RunKeeps(steps);
    }
  }
}
