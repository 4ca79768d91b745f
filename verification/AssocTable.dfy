/** Hash tables from X resource identifiers to data: buckets of chains in increasing order. */
module AssocTables {
  import opened Common

  datatype Entry = Entry(key: nat, data: int)

  // ----- one chain -----

  ghost predicate Increasing(es: seq<Entry>) {
    forall i, j :: 0 <= i < j < |es| ==> es[i].key < es[j].key
  }

  /** Where a search for the key stops: at the first entry that is not below it. */
  function Stop(es: seq<Entry>, key: nat): (r: nat)
    ensures r <= |es| && (forall i :: 0 <= i < r ==> es[i].key < key) && (r < |es| ==> key <= es[r].key)
  {
    if es == [] || key <= es[0].key then 0 else 1 + Stop(es[1..], key)
  }

  predicate Found(es: seq<Entry>, key: nat) {
    Stop(es, key) < |es| && es[Stop(es, key)].key == key
  }

  function LookUp(es: seq<Entry>, key: nat): Option<int> {
    if Found(es, key) then Some(es[Stop(es, key)].data) else None
  }

  function Put(es: seq<Entry>, r: nat, e: Entry): seq<Entry>
    requires r <= |es|
  {
    es[..r] + [e] + es[r..]
  }

  function Take(es: seq<Entry>, r: nat): seq<Entry>
    requires r < |es|
  {
    es[..r] + es[r + 1..]
  }

  function Make(es: seq<Entry>, key: nat, data: int): seq<Entry> {
    var r := Stop(es, key);
    if Found(es, key) then es[r := Entry(key, data)] else Put(es, r, Entry(key, data))
  }

  function Delete(es: seq<Entry>, key: nat): seq<Entry> {
    var r := Stop(es, key);
    if Found(es, key) then Take(es, r) else es
  }

  lemma StopIs(es: seq<Entry>, key: nat, r: nat)
    requires r <= |es| && (forall i :: 0 <= i < r ==> es[i].key < key) && (r < |es| ==> key <= es[r].key)
    ensures Stop(es, key) == r
  {
  }

  /** The search stops before no entry with the key. */
  lemma LookUpIff(es: seq<Entry>, key: nat)
    requires Increasing(es)
    ensures forall i :: 0 <= i < |es| && es[i].key == key ==> LookUp(es, key) == Some(es[i].data)
    ensures LookUp(es, key).Some? ==> exists i :: 0 <= i < |es| && es[i] == Entry(key, LookUp(es, key).value)
  {
    var r := Stop(es, key);
    if r < |es| && es[r].key == key {
      assert es[r] == Entry(key, LookUp(es, key).value);
    }
  }

  ghost predicate Has(es: seq<Entry>, e: Entry) {
    exists i :: 0 <= i < |es| && es[i] == e
  }

  /** Looking up gives exactly the data of the entry with the key. */
  lemma LookUpHas(es: seq<Entry>, key: nat, data: int)
    requires Increasing(es)
    ensures LookUp(es, key) == Some(data) <==> Has(es, Entry(key, data))
  {
    LookUpIff(es, key);
  }

  lemma SameLookUp(es: seq<Entry>, es': seq<Entry>, key: nat)
    requires Increasing(es) && Increasing(es')
    requires forall d :: Has(es, Entry(key, d)) <==> Has(es', Entry(key, d))
    ensures LookUp(es, key) == LookUp(es', key)
  {
    match LookUp(es, key)
    case Some(d) =>
      LookUpHas(es, key, d);
      LookUpHas(es', key, d);
    case None =>
      if LookUp(es', key).Some? {
        LookUpHas(es', key, LookUp(es', key).value);
        LookUpHas(es, key, LookUp(es', key).value);
      }
  }

  /** es' is es with e at position r, in place of shift entries. */
  ghost predicate Placed(es: seq<Entry>, es': seq<Entry>, e: Entry, r: nat, shift: nat) {
    && r < |es'| == |es| + 1 - shift && r + shift <= |es| && shift <= 1
    && es'[r] == e
    && (forall i :: 0 <= i < r ==> es'[i] == es[i])
    && (forall i :: r < i < |es'| ==> es'[i] == es[i - 1 + shift])
  }

  lemma MakePlaces(es: seq<Entry>, key: nat, data: int)
    ensures Placed(es, Make(es, key, data), Entry(key, data), Stop(es, key), if Found(es, key) then 1 else 0)
  {
  }

  lemma PlacedIncreasing(es: seq<Entry>, es': seq<Entry>, e: Entry, r: nat, shift: nat)
    requires Increasing(es) && Placed(es, es', e, r, shift) && r == Stop(es, e.key)
    requires shift == if Found(es, e.key) then 1 else 0
    ensures Increasing(es')
  {
    assert forall i :: r + shift <= i < |es| ==> e.key < es[i].key;
  }

  lemma PlacedHas(es: seq<Entry>, es': seq<Entry>, e: Entry, r: nat, shift: nat, x: Entry)
    requires Increasing(es) && Placed(es, es', e, r, shift) && r == Stop(es, e.key)
    requires shift == if Found(es, e.key) then 1 else 0
    ensures Has(es', x) <==> x == e || (x.key != e.key && Has(es, x))
  {
    assert forall i :: r + shift <= i < |es| ==> e.key < es[i].key;
    if Has(es, x) && x.key != e.key {
      var i :| 0 <= i < |es| && es[i] == x;
      assert es'[if i < r then i else i + 1 - shift] == x;
    }
  }

  lemma MakeHas(es: seq<Entry>, key: nat, data: int)
    requires Increasing(es)
    ensures Increasing(Make(es, key, data))
    ensures forall e :: Has(Make(es, key, data), e) <==> e == Entry(key, data) || (e.key != key && Has(es, e))
  {
    var e, shift := Entry(key, data), if Found(es, key) then 1 else 0;
    MakePlaces(es, key, data);
    PlacedIncreasing(es, Make(es, key, data), e, Stop(es, key), shift);
    forall x
      ensures Has(Make(es, key, data), x) <==> x == e || (x.key != key && Has(es, x))
    {
      PlacedHas(es, Make(es, key, data), e, Stop(es, key), shift, x);
    }
  }

  lemma TakeHas(es: seq<Entry>, es': seq<Entry>, r: nat, x: Entry)
    requires Increasing(es) && r < |es| && es' == Take(es, r)
    ensures Increasing(es')
    ensures Has(es', x) <==> x.key != es[r].key && Has(es, x)
  {
    assert forall i :: 0 <= i < |es'| ==> es'[i] == es[if i < r then i else i + 1];
    if Has(es, x) && x.key != es[r].key {
      var i :| 0 <= i < |es| && es[i] == x;
      assert es'[if i < r then i else i - 1] == x;
    }
  }

  lemma NotFound(es: seq<Entry>, key: nat, x: Entry)
    requires Increasing(es) && !Found(es, key) && Has(es, x)
    ensures x.key != key
  {
    var i :| 0 <= i < |es| && es[i] == x;
    assert Stop(es, key) < i ==> es[Stop(es, key)].key < es[i].key;
  }

  lemma DeleteHas(es: seq<Entry>, key: nat)
    requires Increasing(es)
    ensures Increasing(Delete(es, key))
    ensures forall e :: Has(Delete(es, key), e) <==> e.key != key && Has(es, e)
  {
    forall e
      ensures Increasing(Delete(es, key)) && (Has(Delete(es, key), e) <==> e.key != key && Has(es, e))
    {
      if Found(es, key) {
        TakeHas(es, Delete(es, key), Stop(es, key), e);
      } else if Has(es, e) {
        NotFound(es, key, e);
      }
    }
  }

  /** A chain is a finite map: making an association sets one key and deleting one clears it. */
  lemma ChainIsMap(es: seq<Entry>, key: nat, data: int, k: nat)
    requires Increasing(es)
    ensures LookUp(Make(es, key, data), k) == if k == key then Some(data) else LookUp(es, k)
    ensures LookUp(Delete(es, key), k) == if k == key then None else LookUp(es, k)
  {
    MakeHas(es, key, data);
    DeleteHas(es, key);
    if k == key {
      LookUpHas(Make(es, key, data), key, data);
      if LookUp(Delete(es, key), key).Some? {
        LookUpHas(Delete(es, key), key, LookUp(Delete(es, key), key).value);
      }
    } else {
      SameLookUp(es, Make(es, key, data), k);
      SameLookUp(es, Delete(es, key), k);
    }
  }

  // ----- the table -----

  type Table = seq<seq<Entry>>

  ghost predicate Valid(t: Table) {
    t != [] && forall b :: 0 <= b < |t| ==> Increasing(t[b])
  }

  function Bucket(t: Table, key: nat): (b: nat)
    requires t != []
    ensures b < |t|
  {
    key % |t|
  }

  function Find(t: Table, key: nat): Option<int>
    requires t != []
  {
    LookUp(t[Bucket(t, key)], key)
  }

  datatype Op = Associate(key: nat, data: int) | Forget(key: nat)

  function Do(t: Table, op: Op): (t': Table)
    requires t != []
    ensures |t'| == |t|
  {
    var b := Bucket(t, op.key);
    match op
    case Associate(key, data) => t[b := Make(t[b], key, data)]
    case Forget(key) => t[b := Delete(t[b], key)]
  }

  function Empty(size: nat): (t: Table)
    ensures |t| == size && forall b :: 0 <= b < size ==> t[b] == []
  {
    seq(size, _ => [])
  }

  function After(size: nat, ops: seq<Op>): (t: Table)
    requires size > 0
    ensures |t| == size
  {
    if ops == [] then Empty(size) else Do(After(size, ops[..|ops| - 1]), ops[|ops| - 1])
  }

  /** What the operations mean. */
  function Meaning(ops: seq<Op>): map<nat, int> {
    if ops == [] then map[]
    else
      var before := Meaning(ops[..|ops| - 1]);
      match ops[|ops| - 1]
      case Associate(key, data) => before[key := data]
      case Forget(key) => before - {key}
  }

  lemma StepFinds(t: Table, op: Op, k: nat)
    requires Valid(t)
    ensures Valid(Do(t, op))
    ensures Find(Do(t, op), k) == if k == op.key then (if op.Associate? then Some(op.data) else None) else Find(t, k)
  {
    var b := Bucket(t, op.key);
    var data := if op.Associate? then op.data else 0;
    MakeHas(t[b], op.key, data);
    DeleteHas(t[b], op.key);
    if Bucket(t, k) == b {
      ChainIsMap(t[b], op.key, data, k);
    }
  }

  /** Any run on a table of any positive number of buckets behaves as a finite map. */
  lemma {:induction false} TableIsMap(size: nat, ops: seq<Op>)
    requires size > 0
    ensures Valid(After(size, ops))
    ensures forall k :: Find(After(size, ops), k) == if k in Meaning(ops) then Some(Meaning(ops)[k]) else None
  {
    if ops != [] {
      var front, op := ops[..|ops| - 1], ops[|ops| - 1];
      TableIsMap(size, front);
      StepFinds(After(size, front), op, op.key);
      forall k
        ensures Find(After(size, ops), k) == if k in Meaning(ops) then Some(Meaning(ops)[k]) else None
      {
        StepFinds(After(size, front), op, k);
      }
    }
  }
}
