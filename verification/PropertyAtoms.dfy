/** The atoms that name the properties of selection transfers: interned as needed and reused. */
module PropertyAtomSpec {
  import opened Common

  const LAST_COUNTER := 0xffff_ffff

  /** Atoms are known by their counters; used and free hold the newest first.  peak is the largest
      number that has been in use at once. */
  datatype Atoms = Atoms(counter: nat, used: seq<nat>, free: seq<nat>, peak: nat)

  function NoAtoms(): Atoms { Atoms(0, [], [], 0) }

  /** There is an atom to reuse, or one can be interned; otherwise the source aborts. */
  predicate CanAlloc(a: Atoms) {
    a.free != [] || a.counter < LAST_COUNTER
  }

  function Next(a: Atoms): nat {
    if a.free != [] then a.free[0] else a.counter + 1
  }

  function Alloc(a: Atoms): Atoms {
    var used := [Next(a)] + a.used;
    if a.free != [] then Atoms(a.counter, used, a.free[1..], Max(a.peak, |used|))
    else Atoms(a.counter + 1, used, a.free, Max(a.peak, |used|))
  }

  function Without(s: seq<nat>, x: nat): seq<nat> {
    if s == [] then [] else if s[0] == x then s[1..] else [s[0]] + Without(s[1..], x)
  }

  function Release(a: Atoms, x: nat): Atoms {
    a.(used := Without(a.used, x), free := [x] + a.free)
  }

  ghost predicate Distinct(s: seq<nat>) {
    forall i, j :: 0 <= i < j < |s| ==> s[i] != s[j]
  }

  /** Every counter up to the current one belongs to just one atom, in use or free, and no more
      atoms have been interned than were needed at once. */
  ghost predicate Inv(a: Atoms) {
    && Distinct(a.used) && Distinct(a.free)
    && (forall x :: x in a.used ==> x !in a.free)
    && (forall x :: x in a.used || x in a.free <==> 0 < x <= a.counter)
    && |a.used| + |a.free| == a.counter == a.peak
  }

  lemma {:induction false} WithoutFacts(s: seq<nat>, x: nat)
    requires Distinct(s) && x in s
    ensures Distinct(Without(s, x)) && |Without(s, x)| == |s| - 1
    ensures forall y :: y in Without(s, x) <==> y in s && y != x
  {
    var rest := s[1..];
    assert s == [s[0]] + rest;
    assert forall y :: y in rest ==> y != s[0];
    if s[0] != x {
      WithoutFacts(rest, x);
      ConsDistinct(s[0], Without(rest, x));
    }
  }

  lemma ConsDistinct(x: nat, s: seq<nat>)
    requires Distinct(s) && x !in s
    ensures Distinct([x] + s)
  {
  }

  /** The atom allocated is not in use, and its name is not that of any atom in use. */
  lemma AllocIsFresh(a: Atoms)
    requires Inv(a)
    ensures Next(a) !in a.used && Inv(Alloc(a))
    ensures forall x :: x in a.used ==> Name(x) != Name(Next(a))
  {
    ConsDistinct(Next(a), a.used);
    forall x | x in a.used
      ensures Name(x) != Name(Next(a))
    {
      if Name(x) == Name(Next(a)) {
        NameInjective(x, Next(a));
      }
    }
    if a.free != [] {
      assert a.free == [a.free[0]] + a.free[1..];
      assert forall y :: y in a.free[1..] ==> y != a.free[0];
    } else {
      UsedAll(a);
    }
  }

  lemma UsedAll(a: Atoms)
    requires Inv(a) && a.free == []
    ensures |a.used| == a.peak
  {
  }

  lemma ReleaseKeeps(a: Atoms, x: nat)
    requires Inv(a) && x in a.used
    ensures Inv(Release(a, x))
  {
    WithoutFacts(a.used, x);
    ConsDistinct(x, a.free);
  }

  // ----- names -----

  function Digit(d: nat): char
    requires d < 16
  {
    "0123456789abcdef"[d]
  }

  function Hex(n: nat): (s: string)
    ensures s != []
  {
    if n < 16 then [Digit(n)] else Hex(n / 16) + [Digit(n % 16)]
  }

  /** The name under which an atom is interned. */
  function Name(counter: nat): string {
    "_XL_U" + Hex(counter)
  }

  lemma DigitInjective(c: nat, d: nat)
    requires c < 16 && d < 16 && Digit(c) == Digit(d)
    ensures c == d
  {
    var s := "0123456789abcdef";
    assert forall i, j :: 0 <= i < j < 16 ==> s[i] != s[j];
  }

  lemma {:induction false} HexInjective(m: nat, n: nat)
    requires Hex(m) == Hex(n)
    ensures m == n
  {
    var s, t := Hex(m), Hex(n);
    assert s[|s| - 1] == Digit(m % 16) && t[|t| - 1] == Digit(n % 16);
    DigitInjective(m % 16, n % 16);
    if m >= 16 {
      assert s[..|s| - 1] == Hex(m / 16) && n >= 16 && t[..|t| - 1] == Hex(n / 16);
      HexInjective(m / 16, n / 16);
    }
  }

  lemma NameInjective(m: nat, n: nat)
    requires Name(m) == Name(n)
    ensures m == n
  {
    assert Name(m)[5..] == Hex(m) && Name(n)[5..] == Hex(n);
    HexInjective(m, n);
  }

  // ----- runs -----

  datatype Step = Take | GiveBack(x: nat)

  predicate Enabled(a: Atoms, step: Step) {
    match step
    case Take => CanAlloc(a)
    case GiveBack(x) => x in a.used
  }

  function Do(a: Atoms, step: Step): Atoms {
    match step
    case Take => Alloc(a)
    case GiveBack(x) => Release(a, x)
  }

  function After(steps: seq<Step>): Atoms {
    if steps == [] then NoAtoms() else Do(After(steps[..|steps| - 1]), steps[|steps| - 1])
  }

  ghost predicate IsRun(steps: seq<Step>) {
    steps != [] ==> IsRun(steps[..|steps| - 1]) && Enabled(After(steps[..|steps| - 1]), steps[|steps| - 1])
  }

  /** Over any run no two transfers share an atom, and as many atoms have been interned as were
      in use at once. */
  lemma {:induction false} RunKeeps(steps: seq<Step>)
    requires IsRun(steps)
    ensures Inv(After(steps))
  {
    if steps != [] {
      var before := After(steps[..|steps| - 1]);
      RunKeeps(steps[..|steps| - 1]);
      match steps[|steps| - 1]
      case Take => AllocIsFresh(before);
      case GiveBack(x) => ReleaseKeeps(before, x);
    }
  }

  /** The number of atoms taken and not given back, and the largest that this has been. */
  function InUse(steps: seq<Step>): int {
    if steps == [] then 0
    else InUse(steps[..|steps| - 1]) + if steps[|steps| - 1].Take? then 1 else -1
  }

  function MostInUse(steps: seq<Step>): int {
    if steps == [] then 0 else Max(MostInUse(steps[..|steps| - 1]), InUse(steps))
  }

  /** Over any run no more atoms have been interned than were in use at once. */
  lemma {:induction false} InternedAreNeeded(steps: seq<Step>)
    requires IsRun(steps)
    ensures |After(steps).used| == InUse(steps) <= MostInUse(steps)
    ensures After(steps).counter == MostInUse(steps)
  {
    RunKeeps(steps);
    if steps != [] {
      var front, step := steps[..|steps| - 1], steps[|steps| - 1];
      InternedAreNeeded(front);
      RunKeeps(front);
      if step.GiveBack? {
        WithoutFacts(After(front).used, step.x);
      }
      hide Inv;
    }
  }

  /** A step takes just the one atom into use that it allocates, or out of use that is given back. */
  lemma StepUses(a: Atoms, step: Step, x: nat)
    requires Inv(a) && Enabled(a, step)
    ensures x in Do(a, step).used <==>
      match step case Take => x in a.used || x == Next(a) case GiveBack(y) => x in a.used && x != y
  {
    if step.GiveBack? {
      WithoutFacts(a.used, step.x);
    }
  }
}

/** The lists as the source keeps them. */
module PropertyAtoms {
  import opened Common
  import Spec = PropertyAtomSpec

  class PropAtoms {
    var counter: nat
    var used: seq<nat>
    var free: seq<nat>
    ghost var peak: nat

    ghost function Value(): Spec.Atoms
      reads this
    {
      Spec.Atoms(counter, used, free, peak)
    }

    constructor ()
      ensures Value() == Spec.NoAtoms()
    {
      counter, used, free, peak := 0, [], [], 0;
    }

    /** Returns whether abort was called. */
    method AllocPropAtom() returns (aborted: bool, atom: nat)
      modifies this
      ensures aborted <==> !Spec.CanAlloc(old(Value()))
      ensures !aborted ==> atom == Spec.Next(old(Value())) && Value() == Spec.Alloc(old(Value()))
    {
      if free != [] {
        atom := free[0];
        free := free[1..];
      } else {
        if counter >= Spec.LAST_COUNTER {
          return true, 0;
        }
        counter := counter + 1;
        atom := counter;
      }
      used, aborted := [atom] + used, false;
      peak := Max(peak, |used|);
    }

    method ReleasePropAtom(atom: nat)
      modifies this
      ensures Value() == Spec.Release(old(Value()), atom)
    {
      var i := 0;
      while i < |used| && used[i] != atom
        invariant 0 <= i <= |used|
        invariant Spec.Without(used, atom) == used[..i] + Spec.Without(used[i..], atom)
      {
        i := i + 1;
      }
      if i < |used| {
        used := used[..i] + used[i + 1..];
      }
      free := [atom] + free;
    }
  }
}
