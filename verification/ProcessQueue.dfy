/** Queues of commands to run, each of which runs one command at a time. */
module ProcessQueueSpec {
  import opened Common

  type Command = seq<string>

  /** pending holds the commands that are yet to be run, newest first.  The rest is history: the
      commands asked for, those that were tried and whether they could be started, and the number
      of processes that have finished. */
  datatype Queue = Queue(
    pending: seq<Command>, process: Option<nat>,
    accepted: seq<Command>, tried: seq<(Command, bool)>, finished: nat)

  /** The process that comes of trying a command after a number of others, if it can be
      started. */
  type Spawn = (Command, nat) -> Option<nat>

  function NewQueue(): Queue { Queue([], None, [], [], 0) }

  function RunNext(q: Queue, spawn: Spawn): Queue
    decreases |q.pending|
  {
    if q.pending == [] then q
    else
      var last := |q.pending| - 1;
      var pid := spawn(q.pending[last], |q.tried|);
      var q1 := q.(pending := q.pending[..last], tried := q.tried + [(q.pending[last], pid.Some?)]);
      if pid.Some? then q1.(process := pid) else RunNext(q1, spawn)
  }

  function ProcessPending(q: Queue, spawn: Spawn): Queue {
    if q.process.None? then RunNext(q, spawn) else q
  }

  function RunProcess(q: Queue, c: Command, spawn: Spawn): Queue {
    if c == [] then q
    else ProcessPending(q.(pending := [c] + q.pending, accepted := q.accepted + [c]), spawn)
  }

  /** A child process that has finished is that of the queue. */
  function HandleChild(q: Queue): Queue {
    q.(process := None, finished := q.finished + 1)
  }

  /** The first queue that runs the process, or the number of queues. */
  function FirstRunning(running: seq<Option<nat>>, pid: nat): (i: nat)
    ensures i <= |running| && (i < |running| ==> running[i] == Some(pid))
    ensures forall k :: 0 <= k < i ==> running[k] != Some(pid)
  {
    if running == [] || running[0] == Some(pid) then 0 else 1 + FirstRunning(running[1..], pid)
  }

  /** The processes of the queues, the children that have ended and were not waited for yet, oldest
      first, and those that are still alive. */
  datatype Children = Children(running: seq<Option<nat>>, ended: seq<nat>, alive: set<nat>)

  function End(c: Children, pid: nat): Children {
    c.(ended := c.ended + [pid], alive := c.alive - {pid})
  }

  /** What has become of the children, those of the ones that were to end later that have not yet,
      and whether the handler has returned. */
  datatype Handled = Handled(children: Children, later: seq<nat>, returned: bool)

  /** What a signal does.  Children that have ended are waited for in turn, up to the first that a
      queue runs.  While none has ended but one is alive, waitpid answers 0, and the handler asks
      again; later says which children end meanwhile, one after the other. */
  function Handle(c: Children, later: seq<nat>): (r: Handled)
    ensures |r.children.running| == |c.running|
    decreases |later|, |c.ended|
  {
    if c.ended != [] then
      var i, rest := FirstRunning(c.running, c.ended[0]), c.(ended := c.ended[1..]);
      if i < |c.running| then Handled(rest.(running := c.running[i := None]), later, true)
      else Handle(rest, later)
    else if c.alive == {} then Handled(c, later, true)
    else if later == [] then Handled(c, [], false)
    else Handle(End(c, later[0]), later[1..])
  }

  /** The queue at i runs a process that has ended. */
  predicate Over(c: Children, i: int) {
    0 <= i < |c.running| && c.running[i].Some? && c.running[i].value in c.ended
  }

  /** Children that are alive can end, once each. */
  predicate CanEnd(c: Children, later: seq<nat>)
    decreases |later|
  {
    later == [] || (later[0] in c.alive && CanEnd(End(c, later[0]), later[1..]))
  }

  function EndAll(c: Children, later: seq<nat>): Children {
    c.(ended := c.ended + later, alive := set pid | pid in c.alive && pid !in later)
  }

  /** What the handler comes to: if a queue runs a process that has ended, or that ends while the
      handler asks, it frees one such queue and returns; if not, it frees none, and returns if and
      only if no child is left alive. */
  lemma {:induction false} HandleFreesOne(c: Children, later: seq<nat>) returns (i: nat)
    requires CanEnd(c, later)
    ensures var r, all := Handle(c, later), EndAll(c, later);
      if exists k :: Over(all, k) then
        r.returned && Over(all, i) && r.children.running == c.running[i := None]
      else
        r.children == all.(ended := []) && r.later == [] && (r.returned <==> all.alive == {})
    decreases |later|, |c.ended|
  {
    i := 0;
    var all := EndAll(c, later);
    if c.ended != [] {
      i := FirstRunning(c.running, c.ended[0]);
      var rest := c.(ended := c.ended[1..]);
      assert all.ended == [c.ended[0]] + EndAll(rest, later).ended;
      if i < |c.running| {
        assert Over(all, i);
      } else {
        SameEnds(c, rest, later);
        SameOver(all, EndAll(rest, later));
        i := HandleFreesOne(rest, later);
      }
    } else if c.alive == {} {
      assert later == [];
    } else if later != [] {
      assert EndAll(End(c, later[0]), later[1..]) == all by {
        EndOneMore(c, later);
      }
      i := HandleFreesOne(End(c, later[0]), later[1..]);
    }
  }

  lemma {:induction false} SameEnds(c: Children, d: Children, later: seq<nat>)
    requires CanEnd(c, later) && d.alive == c.alive
    ensures CanEnd(d, later)
    decreases |later|
  {
    if later != [] {
      SameEnds(End(c, later[0]), End(d, later[0]), later[1..]);
    }
  }

  lemma EndOneMore(c: Children, later: seq<nat>)
    requires later != []
    ensures EndAll(End(c, later[0]), later[1..]) == EndAll(c, later)
  {
    assert later == [later[0]] + later[1..];
    assert c.ended + [later[0]] + later[1..] == c.ended + later;
  }

  /** A child that no queue runs makes no difference. */
  lemma SameOver(c: Children, d: Children)
    requires c.running == d.running && c.ended != [] && FirstRunning(c.running, c.ended[0]) == |c.running|
    requires c.ended == [c.ended[0]] + d.ended
    ensures forall k :: Over(c, k) <==> Over(d, k)
  {
  }

  /** The handler returns without waiting for another child if and only if a queue runs a process
      that has ended, or no child is left alive. */
  lemma ReturnsAtOnceIff(c: Children)
    ensures Handle(c, []).returned <==> (exists i :: Over(c, i)) || c.alive == {}
  {
    assert EndAll(c, []) == c;
    var i := HandleFreesOne(c, []);
  }

  /** However many children end while it asks, it returns if and only if one of them or one that
      had ended is of a queue, or none is left alive. */
  lemma ReturnsIff(c: Children, later: seq<nat>)
    requires CanEnd(c, later)
    ensures Handle(c, later).returned <==>
            (exists i :: Over(EndAll(c, later), i)) || EndAll(c, later).alive == {}
  {
    var i := HandleFreesOne(c, later);
  }

  /** After one signal the handler has returned and every queue whose process had ended is free,
      without another child having to end, if and only if there was exactly one such queue, or none
      and no child left alive. */
  lemma ReapsAllIff(c: Children)
    ensures (Handle(c, []).returned && forall i :: Over(c, i) ==> Handle(c, []).children.running[i].None?) <==>
            && ((exists i :: Over(c, i)) || c.alive == {})
            && (forall i, j :: Over(c, i) && Over(c, j) ==> i == j)
  {
    assert EndAll(c, []) == c;
    var i := HandleFreesOne(c, []);
    forall k
      ensures Over(c, k) && k != i ==> Handle(c, []).children.running[k] == c.running[k]
    {
    }
  }

  /** Every process of a queue has ended or is alive. */
  predicate Known(c: Children) {
    forall i :: 0 <= i < |c.running| && c.running[i].Some? ==>
      c.running[i].value in c.ended || c.running[i].value in c.alive
  }

  /** If a signal is not for the end of a process of a queue, the handler does not return as long
      as a queue runs one and no further child ends. */
  lemma StallsWhileRunning(c: Children, i: nat)
    requires Known(c) && i < |c.running| && c.running[i].Some? && forall k :: !Over(c, k)
    ensures !Handle(c, []).returned
  {
    ReturnsAtOnceIff(c);
    assert !Over(c, i);
  }

  /** The end of a child that no queue runs keeps the handler until the process of the queue ends. */
  lemma StallsForOther()
    ensures var c := Children([Some(7)], [5], {7});
      Known(c) && !Handle(c, []).returned && Handle(c, [7]) == Handled(Children([None], [], {}), [], true)
  {
    var c, d := Children([Some(7)], [5], {7}), Children([Some(7)], [], {7});
    assert FirstRunning(c.running, 5) == 1;
    assert Handle(c, []) == Handle(d, []) && Handle(c, [7]) == Handle(d, [7]);
    assert End(d, 7) == Children([Some(7)], [7], {});
    assert Handle(End(d, 7), []) == Handled(Children([None], [], {}), [], true);
  }

  /** Of two queues whose processes have ended, one signal frees just the first. */
  lemma LeavesTheSecond()
    ensures var c := Children([Some(7), Some(8)], [7, 8], {});
      Over(c, 0) && Over(c, 1) && Handle(c, []) == Handled(Children([None, Some(8)], [8], {}), [], true)
  {
    var c := Children([Some(7), Some(8)], [7, 8], {});
    assert FirstRunning(c.running, 7) == 0;
  }

  function Reverse(s: seq<Command>): seq<Command> {
    if s == [] then [] else Reverse(s[1..]) + [s[0]]
  }

  function Commands(tried: seq<(Command, bool)>): seq<Command> {
    if tried == [] then [] else Commands(tried[..|tried| - 1]) + [tried[|tried| - 1].0]
  }

  function Started(tried: seq<(Command, bool)>): nat {
    if tried == [] then 0 else Started(tried[..|tried| - 1]) + if tried[|tried| - 1].1 then 1 else 0
  }

  /** Every command that was asked for has been tried or is pending, in the order in which they
      were asked for, and there is a process exactly for the one that was started and has not
      finished. */
  ghost predicate Inv(q: Queue) {
    && q.accepted == Commands(q.tried) + Reverse(q.pending)
    && Started(q.tried) == q.finished + if q.process.Some? then 1 else 0
  }

  lemma {:induction false} ReverseLast(s: seq<Command>)
    requires s != []
    ensures Reverse(s) == [s[|s| - 1]] + Reverse(s[..|s| - 1])
  {
    if |s| > 1 {
      ReverseLast(s[1..]);
      assert s[1..][..|s| - 2] == s[..|s| - 1][1..];
    }
  }

  lemma TriedOneMore(tried: seq<(Command, bool)>, c: Command, ok: bool)
    ensures Commands(tried + [(c, ok)]) == Commands(tried) + [c]
    ensures Started(tried + [(c, ok)]) == Started(tried) + if ok then 1 else 0
  {
    assert (tried + [(c, ok)])[..|tried|] == tried;
  }

  /** Running the next command tries the oldest ones until one starts, and leaves the queue idle
      only if none is left. */
  lemma {:induction false} RunNextKeeps(q: Queue, spawn: Spawn)
    requires Inv(q) && q.process.None?
    ensures Inv(RunNext(q, spawn))
    ensures RunNext(q, spawn).pending != [] ==> RunNext(q, spawn).process.Some?
    ensures RunNext(q, spawn).accepted == q.accepted
    decreases |q.pending|
  {
    if q.pending != [] {
      var last := |q.pending| - 1;
      var c := q.pending[last];
      var pid := spawn(c, |q.tried|);
      var q1 := q.(pending := q.pending[..last], tried := q.tried + [(c, pid.Some?)]);
      ReverseLast(q.pending);
      TriedOneMore(q.tried, c, pid.Some?);
      assert q1.accepted == Commands(q1.tried) + Reverse(q1.pending);
      if pid.None? {
        RunNextKeeps(q1, spawn);
      }
    }
  }

  datatype Step = Ask(c: Command, spawn: Spawn) | Poll(spawn: Spawn) | Finish

  predicate Enabled(q: Queue, step: Step) {
    step.Finish? ==> q.process.Some?
  }

  function Do(q: Queue, step: Step): Queue {
    match step
    case Ask(c, spawn) => RunProcess(q, c, spawn)
    case Poll(spawn) => ProcessPending(q, spawn)
    case Finish => HandleChild(q)
  }

  function After(steps: seq<Step>): Queue {
    if steps == [] then NewQueue() else Do(After(steps[..|steps| - 1]), steps[|steps| - 1])
  }

  ghost predicate IsRun(steps: seq<Step>) {
    steps != [] ==> IsRun(steps[..|steps| - 1]) && Enabled(After(steps[..|steps| - 1]), steps[|steps| - 1])
  }

  lemma StepKeeps(q: Queue, step: Step)
    requires Inv(q) && Enabled(q, step)
    ensures Inv(Do(q, step))
    ensures step.Poll? || (step.Ask? && step.c != []) ==> Do(q, step).pending != [] ==> Do(q, step).process.Some?
  {
    match step
    case Ask(c, spawn) =>
      if c != [] {
        var q1 := q.(pending := [c] + q.pending, accepted := q.accepted + [c]);
        assert Reverse(q1.pending) == Reverse(q.pending) + [c];
        assert q1.accepted == Commands(q1.tried) + Reverse(q1.pending);
        if q.process.None? {
          RunNextKeeps(q1, spawn);
        }
      }
    case Poll(spawn) =>
      if q.process.None? {
        RunNextKeeps(q, spawn);
      }
    case Finish =>
  }

  /** Over any run commands are tried once each and in order, one at a time, and while there is
      one left after a poll there is a process. */
  lemma {:induction false} RunKeeps(steps: seq<Step>)
    requires IsRun(steps)
    ensures Inv(After(steps))
    ensures steps != [] && steps[|steps| - 1].Poll? && After(steps).pending != [] ==> After(steps).process.Some?
  {
    if steps != [] {
      RunKeeps(steps[..|steps| - 1]);
      StepKeeps(After(steps[..|steps| - 1]), steps[|steps| - 1]);
    }
  }

  // ----- the history by the steps -----

  /** The commands asked for that are not empty, in order. */
  function Asked(steps: seq<Step>): seq<Command> {
    if steps == [] then []
    else
      var step := steps[|steps| - 1];
      Asked(steps[..|steps| - 1]) + if step.Ask? && step.c != [] then [step.c] else []
  }

  function Ends(steps: seq<Step>): nat {
    if steps == [] then 0
    else Ends(steps[..|steps| - 1]) + if steps[|steps| - 1].Finish? then 1 else 0
  }

  lemma {:induction false} RunNextAdds(q: Queue, spawn: Spawn)
    ensures var r := RunNext(q, spawn); r.accepted == q.accepted && r.finished == q.finished && q.tried <= r.tried
    decreases |q.pending|
  {
    if q.pending != [] {
      var last := |q.pending| - 1;
      var pid := spawn(q.pending[last], |q.tried|);
      if pid.None? {
        RunNextAdds(q.(pending := q.pending[..last], tried := q.tried + [(q.pending[last], false)]), spawn);
      }
    }
  }

  /** Over any run every command asked for, and no other, has been tried or is pending, in the order
      in which they were asked for. */
  lemma {:induction false} AcceptedAreAsked(steps: seq<Step>)
    requires IsRun(steps)
    ensures var q := After(steps);
      && q.accepted == Asked(steps) && q.finished == Ends(steps)
      && Commands(q.tried) + Reverse(q.pending) == Asked(steps)
  {
    RunKeeps(steps);
    if steps != [] {
      var front, step := steps[..|steps| - 1], steps[|steps| - 1];
      AcceptedAreAsked(front);
      hide RunNext, Commands, Reverse;
      match step
      case Ask(c, spawn) =>
        var q := After(front);
        RunNextAdds(q.(pending := [c] + q.pending, accepted := q.accepted + [c]), spawn);
      case Poll(spawn) => RunNextAdds(After(front), spawn);
      case Finish =>
    }
  }

  /** The commands tried from the k-th on turned out as spawn says: all but the last could not be
      started, and the process is that of the last if it could be. */
  ghost predicate TriedRightly(q: Queue, k: nat, spawn: Spawn) {
    && k <= |q.tried|
    && (forall j :: k <= j < |q.tried| ==> q.tried[j].1 == spawn(q.tried[j].0, j).Some?)
    && (forall j :: k <= j < |q.tried| - 1 ==> !q.tried[j].1)
    && if k < |q.tried| && q.tried[|q.tried| - 1].1
       then q.process == spawn(q.tried[|q.tried| - 1].0, |q.tried| - 1)
       else q.process.None? && q.pending == []
  }

  /** Commands are tried until one starts, and none is given up that can be started. */
  lemma {:induction false} RunNextTries(q: Queue, spawn: Spawn)
    requires q.process.None?
    ensures TriedRightly(RunNext(q, spawn), |q.tried|, spawn) && q.tried <= RunNext(q, spawn).tried
    decreases |q.pending|
  {
    if q.pending != [] {
      var last := |q.pending| - 1;
      var c, k := q.pending[last], |q.tried|;
      var pid := spawn(c, k);
      if pid.None? {
        var q1 := q.(pending := q.pending[..last], tried := q.tried + [(c, false)]);
        RunNextTries(q1, spawn);
        var r := RunNext(q1, spawn);
        assert r.tried[k] == q1.tried[k] == (c, false);
        forall j | k <= j < |r.tried|
          ensures r.tried[j].1 == spawn(r.tried[j].0, j).Some?
        {
        }
      }
    }
  }
}

/** The queues as the source keeps them. */
module ProcessQueues {
  import opened Common
  import opened Spec = ProcessQueueSpec

  class ProcessQueue {
    var pending: seq<Command>
    var process: Option<nat>
    ghost var accepted: seq<Command>
    ghost var tried: seq<(Command, bool)>
    ghost var finished: nat
    var tries: nat

    ghost function Value(): Queue
      reads this
    {
      Queue(pending, process, accepted, tried, finished)
    }

    ghost predicate Valid()
      reads this
    {
      tries == |tried|
    }

    constructor ()
      ensures Valid() && Value() == NewQueue()
    {
      pending, process, accepted, tried, finished, tries := [], None, [], [], 0, 0;
    }

    method RunNext(spawn: Spawn)
      requires Valid()
      modifies this
      ensures Valid() && Value() == Spec.RunNext(old(Value()), spawn)
    {
      while pending != []
        invariant Valid()
        invariant Spec.RunNext(Value(), spawn) == Spec.RunNext(old(Value()), spawn)
        decreases |pending|
      {
        var c := pending[|pending| - 1];
        var pid := spawn(c, tries);
        pending, tries, tried := pending[..|pending| - 1], tries + 1, tried + [(c, pid.Some?)];
        if pid.Some? {
          process := pid;
          return;
        }
      }
    }

    method Push(c: Command)
      requires Valid()
      modifies this
      ensures Valid() && Value() == old(Value().(pending := [c] + pending, accepted := accepted + [c]))
    {
      pending, accepted := [c] + pending, accepted + [c];
    }
  }

  /** Runs the next command of each queue that is idle. */
  method ProcessPendingDescriptions(queues: seq<ProcessQueue>, spawn: Spawn)
    requires forall i, j :: 0 <= i < j < |queues| ==> queues[i] != queues[j]
    requires forall q :: q in queues ==> q.Valid()
    modifies queues
    ensures forall q :: q in queues ==> q.Valid() && q.Value() == ProcessPending(old(q.Value()), spawn)
  {
    var i := 0;
    while i < |queues|
      invariant 0 <= i <= |queues|
      invariant forall k :: 0 <= k < |queues| ==> queues[k].Valid()
      invariant forall k :: 0 <= k < i ==> queues[k].Value() == ProcessPending(old(queues[k].Value()), spawn)
      invariant forall k :: i <= k < |queues| ==> queues[k].Value() == old(queues[k].Value())
    {
      if queues[i].process.None? {
        queues[i].RunNext(spawn);
      }
      i := i + 1;
    }
  }

  method RunProcess(queues: seq<ProcessQueue>, at: nat, c: Command, spawn: Spawn)
    requires forall i, j :: 0 <= i < j < |queues| ==> queues[i] != queues[j]
    requires forall q :: q in queues ==> q.Valid()
    requires at < |queues|
    modifies queues
    ensures forall q :: q in queues ==> q.Valid()
    ensures queues[at].Value() == Spec.RunProcess(old(queues[at].Value()), c, spawn)
    ensures forall q :: q in queues && q != queues[at] ==>
      q.Value() == if c == [] then old(q.Value()) else ProcessPending(old(q.Value()), spawn)
  {
    if c == [] {
      return;
    }
    queues[at].Push(c);
    ProcessPendingDescriptions(queues, spawn);
  }

  ghost function Processes(queues: seq<ProcessQueue>): (r: seq<Option<nat>>)
    reads queues
    ensures |r| == |queues| && forall i :: 0 <= i < |r| ==> r[i] == queues[i].process
  {
    if queues == [] then [] else [queues[0].process] + Processes(queues[1..])
  }

  /** Marks the first queue that runs the process as idle, if there is one. */
  method Finished(queues: seq<ProcessQueue>, pid: nat) returns (i: nat)
    requires forall i, j :: 0 <= i < j < |queues| ==> queues[i] != queues[j]
    requires forall q :: q in queues ==> q.Valid()
    modifies queues
    ensures forall q :: q in queues ==> q.Valid()
    ensures i == FirstRunning(old(Processes(queues)), pid)
    ensures Processes(queues) == if i < |queues| then old(Processes(queues))[i := None] else old(Processes(queues))
    ensures forall k :: 0 <= k < |queues| ==>
      queues[k].Value() == if k == i then Spec.HandleChild(old(queues[k].Value())) else old(queues[k].Value())
  {
    i := FindRunning(queues, pid);
    hide FirstRunning;
    if i < |queues| {
      Finish(queues[i]);
    }
  }

  method FindRunning(queues: seq<ProcessQueue>, pid: nat) returns (i: nat)
    ensures i == FirstRunning(Processes(queues), pid)
  {
    i := 0;
    ghost var all := Processes(queues);
    while i < |queues| && queues[i].process != Some(pid)
      invariant 0 <= i <= |queues|
      invariant forall k :: 0 <= k < i ==> all[k] != Some(pid)
    {
      i := i + 1;
    }
  }

  method Finish(q: ProcessQueue)
    requires q.Valid()
    modifies q
    ensures q.Valid() && q.Value() == Spec.HandleChild(old(q.Value())) && q.process.None?
  {
    q.process, q.finished := None, q.finished + 1;
  }

  /** The handler: asks for children that have ended until one is of a queue, which is now idle, or
      no child is left.  If it still asks when the last of later has ended, it has not returned. */
  method HandleChild(queues: seq<ProcessQueue>, ended: seq<nat>, alive: set<nat>, later: seq<nat>)
    returns (ended': seq<nat>, alive': set<nat>, later': seq<nat>, returned: bool, freed: nat)
    requires forall i, j :: 0 <= i < j < |queues| ==> queues[i] != queues[j]
    requires forall q :: q in queues ==> q.Valid()
    modifies queues
    ensures forall q :: q in queues ==> q.Valid()
    ensures Handled(Children(Processes(queues), ended', alive'), later', returned)
         == Handle(Children(old(Processes(queues)), ended, alive), later)
    ensures forall k :: 0 <= k < |queues| ==>
      queues[k].Value() == if k == freed then Spec.HandleChild(old(queues[k].Value())) else old(queues[k].Value())
  {
    ghost var running := Processes(queues);
    ended', alive', later', returned, freed := ended, alive, later, false, |queues|;
    while true
      invariant forall q :: q in queues ==> q.Valid()
      invariant forall k :: 0 <= k < |queues| ==> queues[k].Value() == old(queues[k].Value())
      invariant freed == |queues| && running == Processes(queues) && !returned
      invariant Handle(Children(running, ended', alive'), later') == Handle(Children(running, ended, alive), later)
      decreases |later'|, |ended'|
    {
      hide Processes, FirstRunning, ProcessQueue.Value, ProcessQueue.Valid;
      if ended' != [] {
        freed := Finished(queues, ended'[0]);
        ended' := ended'[1..];
        if freed < |queues| {
          returned := true;
          return;
        }
      } else if alive' == {} {
        returned := true;
        return;
      } else if later' == [] {
        return;
      } else {
        ended', alive', later' := ended' + [later'[0]], alive' - {later'[0]}, later'[1..];
      }
    }
  }
}
