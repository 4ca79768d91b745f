/** Shared-memory pools and buffers as the source keeps them: tables that each request changes,
    and the bus-fault index as linked nodes.  Each method does what ShmPools says. */
module ShmObjects {
  import opened Common
  import opened BusfaultTree
  import opened ShmPools
  import opened BusfaultNodes

  class SharedMemory {
    var pools: map<nat, Pool>
    var buffers: map<nat, Buffer>
    var faults: Busfault?

    ghost function Value(): Shm
      reads this, faults
    {
      Shm(pools, buffers, ModelOf(faults))
    }

    ghost predicate Valid()
      reads this, faults, NodesOf(faults)
    {
      ValidTree(faults) && Exact(ModelOf(faults))
    }

    constructor ()
      ensures Valid() && Value() == Shm(map[], map[], Leaf) && NodesOf(faults) == {}
    {
      pools, buffers, faults := map[], map[], null;
    }

    method Trap(p: Pool)
      requires Valid()
      modifies this`faults, NodesOf(faults)
      ensures Valid() && fresh(NodesOf(faults) - old(NodesOf(faults)))
      ensures ModelOf(faults) == ShmPools.Trap(old(ModelOf(faults)), p)
    {
      if !p.cannotSigbus {
        var node := new Busfault(p.data, p.size);
        faults := RecordBusfault(faults, node);
      }
    }

    /** Returns whether abort was called. */
    method Untrap(p: Pool) returns (aborted: bool)
      requires Valid()
      modifies this`faults, NodesOf(faults)
      ensures aborted <==> ShmPools.Untrap(old(ModelOf(faults)), p) == None
      ensures !aborted ==> Valid() && NodesOf(faults) <= old(NodesOf(faults))
      ensures !aborted ==> Some(ModelOf(faults)) == ShmPools.Untrap(old(ModelOf(faults)), p)
    {
      aborted := false;
      if !p.cannotSigbus {
        var root;
        aborted, root := RemoveBusfault(faults, p.data);
        if !aborted {
          faults := root;
        }
      }
    }

    /** m is what mapping the file and asking for its seals gave. */
    method CreatePool(id: nat, size: int, m: Mapping)
      requires Valid()
      modifies this, NodesOf(faults)
      ensures Valid() && fresh(NodesOf(faults) - old(NodesOf(faults)))
      ensures Value() == ShmPools.CreatePool(old(Value()), id, size, m)
    {
      if size <= 0 || m.at.None? {
        return;
      }
      var p := Pool(size, 1, m.sealed, m.at.value, true);
      Trap(p);
      pools := pools[id := p];
    }

    method ResizePool(id: nat, size: int, m: Mapping) returns (aborted: bool)
      requires Valid() && id in pools
      modifies this, NodesOf(faults)
      ensures aborted <==> ShmPools.ResizePool(old(Value()), id, size, m) == None
      ensures !aborted ==> Valid() && fresh(NodesOf(faults) - old(NodesOf(faults)))
      ensures !aborted ==> Some(Value()) == ShmPools.ResizePool(old(Value()), id, size, m)
    {
      aborted := false;
      var p, size' := pools[id], AsUnsigned64(size);
      if size' <= p.size || m.at.None? {
        return;
      }
      aborted := Untrap(p);
      if !aborted {
        p := p.(size := size', data := m.at.value, cannotSigbus := m.sealed);
        Trap(p);
        pools := pools[id := p];
      }
    }

    method CreateBuffer(id: nat, b: nat, l: Layout, pad: nat)
      requires Valid() && id in pools && pad > 0
      modifies this`pools, this`buffers
      ensures Valid() && Value() == ShmPools.CreateBuffer(old(Value()), id, b, l, pad)
    {
      if Acceptable(l, pad, pools[id].size) {
        buffers := buffers[b := Buffer(id, 1, l)];
        pools := pools[id := pools[id].(refcount := pools[id].refcount + 1)];
      }
    }

    method RetainBuffer(b: nat)
      requires Valid() && b in buffers
      modifies this`buffers
      ensures Valid() && Value() == ShmPools.RetainBuffer(old(Value()), b)
    {
      buffers := buffers[b := buffers[b].(refcount := buffers[b].refcount + 1)];
    }

    method DereferencePool(id: nat) returns (aborted: bool)
      requires Valid() && id in pools
      modifies this, NodesOf(faults)
      ensures aborted <==> ShmPools.DereferencePool(old(Value()), id) == None
      ensures !aborted ==> Valid() && NodesOf(faults) <= old(NodesOf(faults))
      ensures !aborted ==> Some(Value()) == ShmPools.DereferencePool(old(Value()), id)
    {
      aborted := false;
      var p := pools[id];
      if p.refcount != 1 {
        pools := pools[id := p.(refcount := p.refcount - 1)];
        return;
      }
      aborted := Untrap(p);
      if !aborted {
        pools := pools - {id};
      }
    }

    /** The requirement on the pool holds of every state that is reached, by RunKeeps. */
    method DereferenceBuffer(b: nat) returns (aborted: bool)
      requires Valid() && b in buffers && buffers[b].pool in pools
      modifies this, NodesOf(faults)
      ensures aborted <==> ShmPools.DereferenceBuffer(old(Value()), b) == None
      ensures !aborted ==> Valid() && NodesOf(faults) <= old(NodesOf(faults))
      ensures !aborted ==> Some(Value()) == ShmPools.DereferenceBuffer(old(Value()), b)
    {
      aborted := false;
      var x := buffers[b];
      if x.refcount != 1 {
        buffers := buffers[b := x.(refcount := x.refcount - 1)];
        return;
      }
      buffers := buffers - {b};
      aborted := DereferencePool(x.pool);
    }

    method DropPoolResource(id: nat) returns (aborted: bool)
      requires Valid() && id in pools
      modifies this, NodesOf(faults)
      ensures aborted <==> ShmPools.DropPoolResource(old(Value()), id) == None
      ensures !aborted ==> Valid() && NodesOf(faults) <= old(NodesOf(faults))
      ensures !aborted ==> Some(Value()) == ShmPools.DropPoolResource(old(Value()), id)
    {
      pools := pools[id := pools[id].(held := false)];
      aborted := DereferencePool(id);
    }
  }
}
