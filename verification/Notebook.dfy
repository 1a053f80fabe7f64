/** A notebook's kernel: the runner's queue, the driver, and the two streams between. */
module Notebook {
  import opened Strings

  type Id = string

  datatype Request = Execute(id: Id) | Interrupt | Restart

  datatype Status = Finished | Failed | Died

  /** An `Output` is anything said of a cell before it is done. */
  datatype Message = Output(id: Id) | Done(id: Id, status: Status)

  datatype Phase = Idle | Busy | Starting | Dead

  /** The runner's side: the fields of its kernel, the notebook's code cells, and all it has sent. */
  datatype Runner = Runner(queue: seq<Id>, running: Option<Id>, phase: Phase, cells: set<Id>, sent: seq<Request>)

  /** The driver's side: how much it has read, its jobs, the cell it runs, and all it has said. */
  datatype Driver = Driver(read: nat, jobs: seq<Request>, current: Option<Id>, alive: bool, said: seq<Message>)

  // ----- the runner

  /** Those of some cells that are to join the queue. */
  function Joining(r: Runner, ids: seq<Id>): seq<Id>
    decreases |ids|
  {
    if ids == [] then [] else
      var before, id := Joining(r, ids[..|ids| - 1]), ids[|ids| - 1];
      if r.running == Some(id) || id in r.queue + before then before else before + [id]
  }

  /** Start the first queued cell there still is, or come to rest. */
  function Next(r: Runner): Runner
    decreases |r.queue|
  {
    if r.queue == [] then r.(running := None, phase := if r.phase == Busy then Idle else r.phase)
    else if r.queue[0] !in r.cells then Next(r.(queue := r.queue[1..]))
    else r.(queue := r.queue[1..], running := Some(r.queue[0]), phase := Busy, sent := r.sent + [Execute(r.queue[0])])
  }

  function Heard(r: Runner, m: Message): Runner {
    if m.Output? || r.running != Some(m.id) then r
    else if m.status == Died then r.(running := None, queue := [], phase := Dead)
    else Next(r.(running := None, queue := if m.status == Failed then [] else r.queue))
  }

  function Interrupted(r: Runner): Runner {
    r.(queue := [], sent := r.sent + [Interrupt])
  }

  function Restarted(r: Runner): Runner {
    r.(queue := [], running := None, phase := Starting, sent := r.sent + [Restart])
  }

  class Kernel {
    var queue: seq<Id>
    var running: Option<Id>
    var phase: Phase
    var cells: set<Id>
    var sent: seq<Request>

    constructor (cells: set<Id>)
      ensures Now() == Runner([], None, Idle, cells, [])
    {
      queue, running, phase, sent := [], None, Idle, [];
      this.cells := cells;
    }

    ghost function Now(): Runner
      reads this
    {
      Runner(queue, running, phase, cells, sent)
    }

    /** The first half of `run`; the kernel has been started. */
    method Enqueue(ids: seq<Id>)
      modifies this
      ensures Now() == old(Now()).(queue := old(queue) + Joining(old(Now()), ids))
    {
      for i := 0 to |ids|
        invariant Now() == old(Now()).(queue := old(queue) + Joining(old(Now()), ids[..i]))
      {
        assert ids[..i + 1][..i] == ids[..i];
        if running != Some(ids[i]) && ids[i] !in queue {
          queue := queue + [ids[i]];
        }
      }
      assert ids[..|ids|] == ids;
    }

    /** The second half of `run`, when it comes to continue. */
    method Resume()
      modifies this
      ensures Now() == if old(running).None? then Next(old(Now())) else old(Now())
    {
      if running.None? { StartNext(); }
    }

    method StartNext()
      modifies this
      ensures Now() == Next(old(Now()))
    {
      while queue != []
        invariant Next(Now()) == Next(old(Now()))
        decreases |queue|
      {
        var id := queue[0];
        queue := queue[1..];
        if id !in cells { continue; }
        running := Some(id);
        phase := Busy;
        sent := sent + [Execute(id)];
        return;
      }
      running := None;
      if phase == Busy { phase := Idle; }
    }

    method Stop()
      modifies this
      ensures Now() == Interrupted(old(Now()))
    {
      queue := [];
      sent := sent + [Interrupt];
    }

    method OnMessage(message: Message)
      modifies this
      ensures Now() == Heard(old(Now()), message)
    {
      if !message.Done? || running != Some(message.id) { return; }
      running := None;
      if message.status == Died {
        queue := [];
        phase := Dead;
        return;
      }
      if message.status == Failed { queue := []; }
      StartNext();
    }
  }

  // ----- the driver

  /** Its reading thread takes the next line. */
  function Read(d: Driver, sent: seq<Request>): Driver {
    if d.read >= |sent| then d
    else d.(read := d.read + 1, jobs := if sent[d.read].Interrupt? then d.jobs else d.jobs + [sent[d.read]])
  }

  /** Its loop takes the next job, when it runs no cell. */
  function Taken(d: Driver): Driver {
    if d.current.Some? || d.jobs == [] then d
    else
      var rest := d.(jobs := d.jobs[1..]);
      match d.jobs[0]
      case Execute(id) => if d.alive then rest.(current := Some(id)) else rest.(said := d.said + [Done(id, Died)])
      case Restart => rest.(alive := true)
      case Interrupt => rest
  }

  /** The cell it runs says something, or is done: died only if the kernel did. */
  function Said(d: Driver, end: Option<Status>): Driver {
    if d.current.None? then d
    else
      match end
      case None => d.(said := d.said + [Output(d.current.value)])
      case Some(status) =>
        if status == Died && d.alive then d
        else d.(said := d.said + [Done(d.current.value, status)], current := None)
  }

  class KernelDriver {
    var read: nat
    var jobs: seq<Request>
    var current: Option<Id>
    var alive: bool
    var said: seq<Message>

    constructor ()
      ensures Now() == Driver(0, [], None, true, [])
    {
      read, jobs, current, alive, said := 0, [], None, true, [];
    }

    ghost function Now(): Driver
      reads this
    {
      Driver(read, jobs, current, alive, said)
    }

    method ReadLine(request: Request, ghost sent: seq<Request>)
      requires read < |sent| && sent[read] == request
      modifies this
      ensures Now() == Read(old(Now()), sent)
    {
      read := read + 1;
      if !request.Interrupt? { jobs := jobs + [request]; }
    }

    method TakeJob()
      requires current.None? && jobs != []
      modifies this
      ensures Now() == Taken(old(Now()))
    {
      var request := jobs[0];
      jobs := jobs[1..];
      if request.Restart? {
        alive := true;
      } else if request.Execute? {
        if !alive { said := said + [Done(request.id, Died)]; } else { current := Some(request.id); }
      }
    }
  }

  // ----- both together

  /** `resumes` counts the calls of `run` still to continue, `asked` is all that ever joined the queue. */
  datatype System = System(runner: Runner, driver: Driver, heard: nat, resumes: nat, asked: seq<Id>)

  datatype Step =
    | Run(ids: seq<Id>)
    | Resume
    | Stop
    | Edit(cells: set<Id>)
    | Hear
    | DriverReads
    | DriverTakes
    | DriverSays(end: Option<Status>)
    | KernelDies

  function Initial(cells: set<Id>): System {
    System(Runner([], None, Idle, cells, []), Driver(0, [], None, true, []), 0, 0, [])
  }

  /** A step that cannot be taken changes nothing; running a cell on a dead kernel starts another driver's life. */
  function After(s: System, step: Step): System {
    match step
    case Run(ids) =>
      if s.runner.phase == Dead then s
      else
        var more := Joining(s.runner, ids);
        s.(runner := s.runner.(queue := s.runner.queue + more), resumes := s.resumes + 1, asked := s.asked + more)
    case Resume =>
      if s.resumes == 0 then s
      else s.(runner := if s.runner.running.None? then Next(s.runner) else s.runner, resumes := s.resumes - 1)
    case Stop => s.(runner := Interrupted(s.runner))
    case Edit(cells) => s.(runner := s.runner.(cells := cells))
    case Hear =>
      if s.heard >= |s.driver.said| then s
      else s.(runner := Heard(s.runner, s.driver.said[s.heard]), heard := s.heard + 1)
    case DriverReads => s.(driver := Read(s.driver, s.runner.sent))
    case DriverTakes => s.(driver := Taken(s.driver))
    case DriverSays(end) => s.(driver := Said(s.driver, end))
    case KernelDies => s.(driver := s.driver.(alive := false))
  }

  function RunOn(s: System, steps: seq<Step>): System
    decreases |steps|
  {
    if steps == [] then s else After(RunOn(s, steps[..|steps| - 1]), steps[|steps| - 1])
  }

  // ----- what is in flight

  function Executes(rs: seq<Request>): seq<Id>
    decreases |rs|
  {
    if rs == [] then [] else
      Executes(rs[..|rs| - 1]) + match rs[|rs| - 1] case Execute(id) => [id] case _ => []
  }

  function Dones(ms: seq<Message>): seq<Id>
    decreases |ms|
  {
    if ms == [] then [] else
      Dones(ms[..|ms| - 1]) + match ms[|ms| - 1] case Done(id, _) => [id] case _ => []
  }

  function One(id: Option<Id>): seq<Id> {
    if id.Some? then [id.value] else []
  }

  /** Everything from the runner's `execute` to its hearing of the `done`, latest first. */
  function InFlight(s: System): seq<Id>
    requires s.heard <= |s.driver.said| && s.driver.read <= |s.runner.sent|
  {
    Dones(s.driver.said[s.heard..]) + One(s.driver.current) + Executes(s.driver.jobs)
      + Executes(s.runner.sent[s.driver.read..])
  }

  /** The driver answers each request once, in order. */
  ghost predicate DriverKeeps(d: Driver, sent: seq<Request>) {
    d.read <= |sent| && Executes(sent) == Dones(d.said) + One(d.current) + Executes(d.jobs) + Executes(sent[d.read..])
  }

  /** The runner knows what it waits for: all it sent has been heard of, but for the running cell. */
  ghost predicate RunnerKeeps(r: Runner, heard: seq<Message>) {
    && Executes(r.sent) == Dones(heard) + One(r.running)
    && (r.running.Some? <==> r.phase == Busy) && AtRest(r)
    && Distinct(r.queue) && (r.running.Some? ==> r.running.value !in r.queue)
  }

  /** Once the kernel died nothing waits; and it is not being restarted. */
  ghost predicate AtRest(r: Runner) {
    r.phase != Starting && (r.phase == Dead ==> r.queue == [])
  }

  /** What was sent beyond the first `n`, and then what waits, was asked for in that order. */
  ghost predicate InOrder(r: Runner, n: nat, asked: seq<Id>) {
    n <= |Executes(r.sent)| && Subsequence(Executes(r.sent)[n..] + r.queue, asked)
  }

  ghost predicate Distinct(q: seq<Id>) {
    forall i, j :: 0 <= i < j < |q| ==> q[i] != q[j]
  }

  /** `a` is `b` with some elements left out. */
  ghost predicate Subsequence(a: seq<Id>, b: seq<Id>)
    decreases |b|
  {
    if a == [] then true
    else if b == [] then false
    else
      || (a[|a| - 1] == b[|b| - 1] && Subsequence(a[..|a| - 1], b[..|b| - 1]))
      || Subsequence(a, b[..|b| - 1])
  }

  ghost predicate Kept(s: System) {
    && s.heard <= |s.driver.said|
    && DriverKeeps(s.driver, s.runner.sent)
    && RunnerKeeps(s.runner, s.driver.said[..s.heard])
    && (s.runner.running.None? && s.runner.queue != [] ==> s.resumes > 0)
  }

  lemma {:induction false} ExecutesConcat(a: seq<Request>, b: seq<Request>)
    ensures Executes(a + b) == Executes(a) + Executes(b)
    decreases |b|
  {
    if b == [] {
      assert a + b == a;
    } else {
      assert (a + b)[..|a + b| - 1] == a + b[..|b| - 1];
      ExecutesConcat(a, b[..|b| - 1]);
    }
  }

  lemma {:induction false} DonesConcat(a: seq<Message>, b: seq<Message>)
    ensures Dones(a + b) == Dones(a) + Dones(b)
    decreases |b|
  {
    if b == [] {
      assert a + b == a;
    } else {
      assert (a + b)[..|a + b| - 1] == a + b[..|b| - 1];
      DonesConcat(a, b[..|b| - 1]);
    }
  }

  lemma OneExecute(r: Request)
    ensures Executes([r]) == if r.Execute? then [r.id] else []
  {
    assert [r][..0] == [];
  }

  lemma OneDone(m: Message)
    ensures Dones([m]) == if m.Done? then [m.id] else []
  {
    assert [m][..0] == [];
  }

  // ----- the driver's part

  lemma SentMore(d: Driver, sent: seq<Request>, r: Request)
    requires DriverKeeps(d, sent)
    ensures DriverKeeps(d, sent + [r])
  {
    hide Executes, Dones;
    ExecutesConcat(sent, [r]);
    ExecutesConcat(sent[d.read..], [r]);
    assert (sent + [r])[d.read..] == sent[d.read..] + [r];
    Associate(Dones(d.said) + One(d.current) + Executes(d.jobs), Executes(sent[d.read..]), Executes([r]));
  }

  lemma Associate(x: seq<Id>, y: seq<Id>, z: seq<Id>)
    ensures x + y + z == x + (y + z)
  {}

  lemma ReadKeeps(d: Driver, sent: seq<Request>)
    requires DriverKeeps(d, sent)
    ensures DriverKeeps(Read(d, sent), sent)
  {
    hide Executes, Dones;
    if d.read < |sent| {
      var r, rest := sent[d.read], sent[d.read + 1..];
      assert sent[d.read..] == [r] + rest;
      ExecutesConcat([r], rest);
      ExecutesConcat(d.jobs, [r]);
      OneExecute(r);
      if r.Interrupt? { assert Executes(d.jobs) + [] == Executes(d.jobs); }
    }
  }

  lemma TakenKeeps(d: Driver, sent: seq<Request>)
    requires DriverKeeps(d, sent)
    ensures DriverKeeps(Taken(d), sent)
  {
    hide Executes, Dones;
    if d.current.None? && d.jobs != [] {
      var r, rest := d.jobs[0], d.jobs[1..];
      assert d.jobs == [r] + rest;
      ExecutesConcat([r], rest);
      OneExecute(r);
      if r.Execute? {
        DonesConcat(d.said, [Done(r.id, Died)]);
        OneDone(Done(r.id, Died));
      }
    }
  }

  lemma SaidKeeps(d: Driver, end: Option<Status>, sent: seq<Request>)
    requires DriverKeeps(d, sent)
    ensures DriverKeeps(Said(d, end), sent)
  {
    hide Executes, Dones;
    if d.current.Some? {
      var m := match end case None => Output(d.current.value) case Some(status) => Done(d.current.value, status);
      DonesConcat(d.said, [m]);
      OneDone(m);
      assert Dones(d.said) + [] == Dones(d.said);
    }
  }

  // ----- the runner's part

  /** From the two sides together: what is in flight is the running cell, and nothing else. */
  lemma OnlyTheRunningCell(s: System)
    requires Kept(s)
    ensures InFlight(s) == One(s.runner.running)
  {
    var x, y := Dones(s.driver.said[..s.heard]), Dones(s.driver.said[s.heard..]);
    DonesConcat(s.driver.said[..s.heard], s.driver.said[s.heard..]);
    assert s.driver.said[..s.heard] + s.driver.said[s.heard..] == s.driver.said;
    hide Executes, Dones, Subsequence;
    SamePrefix(x, InFlight(s), One(s.runner.running), y, One(s.driver.current), Executes(s.driver.jobs),
      Executes(s.runner.sent[s.driver.read..]));
  }

  lemma SamePrefix(x: seq<Id>, flight: seq<Id>, rest: seq<Id>, a: seq<Id>, b: seq<Id>, c: seq<Id>, d: seq<Id>)
    requires x + a + b + c + d == x + rest && flight == a + b + c + d
    ensures flight == rest
  {
    assert x + a + b + c + d == x + flight;
    assert (x + flight)[|x|..] == flight && (x + rest)[|x|..] == rest;
  }

  lemma {:induction false} NextRuns(r: Runner, heard: seq<Message>)
    requires Executes(r.sent) == Dones(heard) && r.running.None? && AtRest(r) && Distinct(r.queue)
    ensures RunnerKeeps(Next(r), heard)
    ensures Next(r).running.None? ==> Next(r).queue == []
    decreases |r.queue|
  {
    hide Executes, Dones;
    if r.queue == [] {
      assert Dones(heard) + [] == Dones(heard);
    } else if r.queue[0] !in r.cells {
      NextRuns(r.(queue := r.queue[1..]), heard);
    } else {
      ExecutesConcat(r.sent, [Execute(r.queue[0])]);
      OneExecute(Execute(r.queue[0]));
    }
  }

  lemma {:induction false} NextInOrder(r: Runner, n: nat, asked: seq<Id>)
    requires InOrder(r, n, asked)
    ensures InOrder(Next(r), n, asked)
    decreases |r.queue|
  {
    hide Executes, Subsequence;
    if r.queue != [] {
      var id, rest, sent := r.queue[0], r.queue[1..], Executes(r.sent);
      assert sent[n..] + r.queue == sent[n..] + [id] + rest;
      if id !in r.cells {
        LeftOut(sent[n..], [id], rest, asked);
        NextInOrder(r.(queue := rest), n, asked);
      } else {
        ExecutesConcat(r.sent, [Execute(id)]);
        OneExecute(Execute(id));
        assert (sent + [id])[n..] == sent[n..] + [id];
      }
    }
  }

  lemma {:induction false} NextSends(r: Runner, d: Driver)
    requires DriverKeeps(d, r.sent)
    ensures DriverKeeps(d, Next(r).sent)
    decreases |r.queue|
  {
    hide DriverKeeps;
    if r.queue != [] {
      if r.queue[0] !in r.cells {
        NextSends(r.(queue := r.queue[1..]), d);
      } else {
        SentMore(d, r.sent, Execute(r.queue[0]));
      }
    }
  }

  lemma {:induction false} LeftOut(a: seq<Id>, b: seq<Id>, c: seq<Id>, all: seq<Id>)
    requires Subsequence(a + b + c, all)
    ensures Subsequence(a + c, all)
    decreases |all|
  {
    var x, y := a + b + c, a + c;
    if y != [] && x != [] && all != [] {
      var before := all[..|all| - 1];
      if Subsequence(x, before) {
        LeftOut(a, b, c, before);
      } else if c != [] {
        assert x[..|x| - 1] == a + b + c[..|c| - 1] && y[..|y| - 1] == a + c[..|c| - 1];
        LeftOut(a, b, c[..|c| - 1], before);
      } else if b != [] {
        assert x[..|x| - 1] == a + b[..|b| - 1] + c;
        LeftOut(a, b[..|b| - 1], c, before);
      } else {
        assert x == y;
      }
    }
  }

  lemma {:induction false} BothGrow(a: seq<Id>, more: seq<Id>, all: seq<Id>)
    requires Subsequence(a, all)
    ensures Subsequence(a + more, all + more)
    decreases |more|
  {
    if more == [] {
      assert a + more == a && all + more == all;
    } else {
      BothGrow(a, more[..|more| - 1], all);
      var x, y := a + more, all + more;
      assert x[..|x| - 1] == a + more[..|more| - 1] && y[..|y| - 1] == all + more[..|more| - 1];
    }
  }

  lemma {:induction false} JoiningIsNew(r: Runner, ids: seq<Id>)
    requires Distinct(r.queue) && (r.running.Some? ==> r.running.value !in r.queue)
    ensures var q := r.queue + Joining(r, ids); Distinct(q) && (r.running.Some? ==> r.running.value !in q)
    decreases |ids|
  {
    if ids == [] {
      assert r.queue + [] == r.queue;
    } else {
      var before, id := Joining(r, ids[..|ids| - 1]), ids[|ids| - 1];
      JoiningIsNew(r, ids[..|ids| - 1]);
      assert r.queue + (before + [id]) == r.queue + before + [id];
      var q := r.queue + before;
      assert forall i :: 0 <= i < |q| ==> q[i] in q;
    }
  }

  /** The `i`th of some cells is not running, nor queued, nor was it among those before it. */
  ghost predicate Joins(r: Runner, ids: seq<Id>, i: int)
    requires 0 <= i < |ids|
  {
    r.running != Some(ids[i]) && ids[i] !in r.queue && ids[i] !in ids[..i]
  }

  /** These are just those cells, each from its first place, in the order of these places. */
  ghost predicate JoinAt(r: Runner, ids: seq<Id>, at: seq<nat>, joined: seq<Id>) {
    && |at| == |joined| && (forall j, k :: 0 <= j < k < |at| ==> at[j] < at[k])
    && (forall k :: 0 <= k < |at| ==> at[k] < |ids| && joined[k] == ids[at[k]])
    && (forall i :: 0 <= i < |ids| ==> (i in at <==> Joins(r, ids, i)))
  }

  /** They are what joins the queue. */
  lemma {:induction false} JoiningIs(r: Runner, ids: seq<Id>) returns (at: seq<nat>)
    ensures JoinAt(r, ids, at, Joining(r, ids))
    decreases |ids|
  {
    at := [];
    if ids != [] {
      var front, id := ids[..|ids| - 1], ids[|ids| - 1];
      at := JoiningIs(r, front);
      assert ids == front + [id];
      JoiningLast(r, ids);
      hide *;
      OneMoreJoins(r, front, id, at, Joining(r, front));
      if r.running != Some(id) && id !in r.queue && id !in Joining(r, front) { at := at + [|front|]; }
    }
  }

  lemma JoiningLast(r: Runner, ids: seq<Id>)
    requires ids != []
    ensures var before, id := Joining(r, ids[..|ids| - 1]), ids[|ids| - 1];
      Joining(r, ids) == if r.running == Some(id) || id in r.queue || id in before then before else before + [id]
  {}

  lemma OneMoreJoins(r: Runner, front: seq<Id>, id: Id, at: seq<nat>, before: seq<Id>)
    requires JoinAt(r, front, at, before)
    ensures if r.running == Some(id) || id in r.queue || id in before then JoinAt(r, front + [id], at, before)
      else JoinAt(r, front + [id], at + [|front|], before + [id])
  {
    var ids := front + [id];
    assert forall i :: 0 <= i < |front| ==> ids[..i] == front[..i] && ids[i] == front[i];
    assert ids[..|front|] == front;
    assert forall i :: 0 <= i < |front| ==> (Joins(r, ids, i) <==> Joins(r, front, i));
    if id in front && r.running != Some(id) && id !in r.queue {
      FirstPlace(front, id);
      var i :| 0 <= i < |front| && front[i] == id && id !in front[..i];
      assert Joins(r, front, i) && i in at;
      var k :| 0 <= k < |at| && at[k] == i;
      assert before[k] == id;
    }
    assert id in before ==> id in front;
  }

  lemma {:induction false} FirstPlace(ids: seq<Id>, id: Id)
    requires id in ids
    ensures exists i :: 0 <= i < |ids| && ids[i] == id && id !in ids[..i]
    decreases |ids|
  {
    var front := ids[..|ids| - 1];
    if id in front {
      FirstPlace(front, id);
      var i :| 0 <= i < |front| && front[i] == id && id !in front[..i];
      assert front[..i] == ids[..i];
    } else {
      assert ids[|ids| - 1] == id;
    }
  }

  /** Then each of them is queued or running. */
  lemma {:induction false} AllAskedWait(r: Runner, ids: seq<Id>, id: Id)
    requires id in ids
    ensures r.running == Some(id) || id in r.queue + Joining(r, ids)
    decreases |ids|
  {
    var front := ids[..|ids| - 1];
    if id != ids[|ids| - 1] { AllAskedWait(r, front, id); }
  }

  // ----- every step

  lemma RunKept(s: System, ids: seq<Id>)
    requires Kept(s)
    ensures Kept(After(s, Run(ids)))
  {
    JoiningIsNew(s.runner, ids);
    hide Executes, Dones, Distinct, Joining;
  }

  lemma NextKept(s: System, r: Runner)
    requires s.heard <= |s.driver.said| && DriverKeeps(s.driver, r.sent)
    requires Executes(r.sent) == Dones(s.driver.said[..s.heard])
    requires r.running.None? && AtRest(r) && Distinct(r.queue)
    ensures Kept(s.(runner := Next(r)))
  {
    NextRuns(r, s.driver.said[..s.heard]);
    NextSends(r, s.driver);
    hide Executes, Dones, Distinct, Next, DriverKeeps, RunnerKeeps, AtRest;
  }

  lemma ResumeKept(s: System)
    requires Kept(s)
    ensures Kept(After(s, Resume))
  {
    hide Executes, Dones, Distinct, DriverKeeps, Next;
    if s.resumes > 0 && s.runner.running.None? {
      assert Dones(s.driver.said[..s.heard]) + [] == Dones(s.driver.said[..s.heard]);
      NextKept(s.(resumes := s.resumes - 1), s.runner);
    }
  }

  lemma StopKept(s: System)
    requires Kept(s)
    ensures Kept(After(s, Stop))
  {
    SentMore(s.driver, s.runner.sent, Interrupt);
    StoppedKeeps(s.runner, s.driver.said[..s.heard]);
    hide Executes, Dones, DriverKeeps, RunnerKeeps;
  }

  lemma StoppedKeeps(r: Runner, heard: seq<Message>)
    requires RunnerKeeps(r, heard)
    ensures RunnerKeeps(Interrupted(r), heard)
  {
    ExecutesConcat(r.sent, [Interrupt]);
    OneExecute(Interrupt);
    hide Executes, Dones;
    assert Executes(r.sent) + [] == Executes(r.sent);
  }

  lemma HearKept(s: System)
    requires Kept(s)
    ensures Kept(After(s, Hear))
  {
    if s.heard < |s.driver.said| {
      var m, before := s.driver.said[s.heard], s.driver.said[..s.heard];
      assert s.driver.said[..s.heard + 1] == before + [m];
      DonesConcat(before, [m]);
      OneDone(m);
      hide Executes, DriverKeeps, Distinct, Next;
      if m.Output? {
        assert Dones(before) + [] == Dones(before);
      } else {
        HeardRunning(s);
        assert Dones(before) + [m.id] + [] == Dones(before) + [m.id];
        if m.status != Died {
          var r := s.runner.(running := None, queue := if m.status == Failed then [] else s.runner.queue);
          NextKept(s.(heard := s.heard + 1), r);
        }
      }
    }
  }

  /** A `done` that is heard is that of the running cell. */
  lemma HeardRunning(s: System)
    requires Kept(s) && s.heard < |s.driver.said| && s.driver.said[s.heard].Done?
    ensures s.runner.running == Some(s.driver.said[s.heard].id)
  {
    OnlyTheRunningCell(s);
    var m, rest := s.driver.said[s.heard], s.driver.said[s.heard + 1..];
    assert s.driver.said[s.heard..] == [m] + rest;
    DonesConcat([m], rest);
    OneDone(m);
    hide Dones, Executes, Kept;
    assert InFlight(s)[0] == m.id;
  }

  lemma DriverKept(s: System, d: Driver)
    requires Kept(s) && DriverKeeps(d, s.runner.sent) && s.driver.said <= d.said
    ensures Kept(s.(driver := d))
  {
    hide DriverKeeps, RunnerKeeps;
    assert d.said[..s.heard] == s.driver.said[..s.heard];
  }

  lemma StepKept(s: System, step: Step)
    requires Kept(s)
    ensures Kept(After(s, step))
  {
    hide RunnerKeeps, Executes, Dones;
    match step
    case Run(ids) => RunKept(s, ids);
    case Resume => ResumeKept(s);
    case Stop => StopKept(s);
    case Edit(cells) => EditKept(s, cells);
    case Hear => HearKept(s);
    case DriverReads => ReadKeeps(s.driver, s.runner.sent); DriverKept(s, Read(s.driver, s.runner.sent));
    case DriverTakes => TakenKeeps(s.driver, s.runner.sent); DriverKept(s, Taken(s.driver));
    case DriverSays(end) => SaidKeeps(s.driver, end, s.runner.sent); DriverKept(s, Said(s.driver, end));
    case KernelDies => DriverKept(s, s.driver.(alive := false));
  }

  lemma EditKept(s: System, cells: set<Id>)
    requires Kept(s)
    ensures Kept(s.(runner := s.runner.(cells := cells)))
  {
    hide DriverKeeps, Executes, Dones, Distinct;
  }

  lemma {:induction false} RunKeeps(s: System, steps: seq<Step>)
    requires Kept(s)
    ensures Kept(RunOn(s, steps))
    decreases |steps|
  {
    hide Kept;
    if steps != [] {
      RunKeeps(s, steps[..|steps| - 1]);
      StepKept(RunOn(s, steps[..|steps| - 1]), steps[|steps| - 1]);
    }
  }

  /**
   * In one life of a driver at most one cell is in flight: the running one, that is not queued; and
   * nothing that waits is forgotten.
   */
  lemma OneAtATime(cells: set<Id>, steps: seq<Step>)
    ensures var s := RunOn(Initial(cells), steps); var r := s.runner;
      && s.heard <= |s.driver.said| && s.driver.read <= |r.sent|
      && InFlight(s) == One(r.running) && |Executes(r.sent)| - |Dones(s.driver.said[..s.heard])| <= 1
      && Dones(s.driver.said[..s.heard]) <= Executes(r.sent)
      && Distinct(r.queue) && (r.running.Some? ==> r.running.value !in r.queue)
      && (r.running.None? && r.queue != [] ==> s.resumes > 0)
  {
    RunKeeps(Initial(cells), steps);
    OnlyTheRunningCell(RunOn(Initial(cells), steps));
    hide InFlight, Executes, Dones, RunOn;
  }

  // ----- the order of cells

  lemma SentInOrder(r: Runner, n: nat, asked: seq<Id>, request: Request)
    requires InOrder(r, n, asked) && !request.Execute?
    ensures InOrder(r.(queue := [], sent := r.sent + [request]), n, asked)
  {
    ExecutesConcat(r.sent, [request]);
    OneExecute(request);
    hide Executes, Subsequence;
    var sent := Executes(r.sent);
    assert sent + [] == sent;
    QueueDropped(r, n, asked);
  }

  lemma QueueDropped(r: Runner, n: nat, asked: seq<Id>)
    requires InOrder(r, n, asked)
    ensures InOrder(r.(queue := []), n, asked)
  {
    hide Executes, Subsequence;
    var x := Executes(r.sent)[n..];
    assert x + r.queue + [] == x + r.queue;
    LeftOut(x, r.queue, [], asked);
  }

  lemma HeardInOrder(r: Runner, m: Message, n: nat, asked: seq<Id>)
    requires InOrder(r, n, asked)
    ensures InOrder(Heard(r, m), n, asked)
  {
    QueueDropped(r, n, asked);
    if m.Done? && r.running == Some(m.id) && m.status != Died {
      NextInOrder(r.(running := None, queue := if m.status == Failed then [] else r.queue), n, asked);
    }
    hide Executes, Subsequence, Next;
  }

  lemma StepInOrder(s: System, step: Step, n: nat, m: nat)
    requires m <= |s.asked| && InOrder(s.runner, n, s.asked[m..])
    ensures var t := After(s, step); m <= |t.asked| && InOrder(t.runner, n, t.asked[m..])
  {
    hide Executes, Subsequence, Next;
    match step
    case Run(ids) =>
      var sent, more := Executes(s.runner.sent), Joining(s.runner, ids);
      BothGrow(sent[n..] + s.runner.queue, more, s.asked[m..]);
      assert (s.asked + more)[m..] == s.asked[m..] + more;
      assert sent[n..] + s.runner.queue + more == sent[n..] + (s.runner.queue + more);
    case Resume => NextInOrder(s.runner, n, s.asked[m..]);
    case Stop => SentInOrder(s.runner, n, s.asked[m..], Interrupt);
    case Hear => if s.heard < |s.driver.said| { HeardInOrder(s.runner, s.driver.said[s.heard], n, s.asked[m..]); }
    case _ =>
  }

  lemma {:induction false} RunInOrder(s: System, steps: seq<Step>, n: nat, m: nat)
    requires m <= |s.asked| && InOrder(s.runner, n, s.asked[m..])
    ensures var t := RunOn(s, steps); m <= |t.asked| && InOrder(t.runner, n, t.asked[m..])
    decreases |steps|
  {
    hide InOrder, After;
    if steps != [] {
      RunInOrder(s, steps[..|steps| - 1], n, m);
      StepInOrder(RunOn(s, steps[..|steps| - 1]), steps[|steps| - 1], n, m);
    }
  }

  /** The cells of all calls of `run`, as they were given. */
  function AskedBy(steps: seq<Step>): seq<Id>
    decreases |steps|
  {
    if steps == [] then [] else
      AskedBy(steps[..|steps| - 1]) + if steps[|steps| - 1].Run? then steps[|steps| - 1].ids else []
  }

  lemma {:induction false} Itself(a: seq<Id>)
    ensures Subsequence(a, a)
    decreases |a|
  {
    if a != [] { Itself(a[..|a| - 1]); }
  }

  lemma {:induction false} WithMore(a: seq<Id>, b: seq<Id>, more: seq<Id>)
    requires Subsequence(a, b)
    ensures Subsequence(a, b + more)
    decreases |more|
  {
    if more == [] {
      assert b + more == b;
    } else {
      WithMore(a, b, more[..|more| - 1]);
      assert (b + more)[..|b + more| - 1] == b + more[..|more| - 1];
    }
  }

  lemma {:induction false} Through(a: seq<Id>, b: seq<Id>, c: seq<Id>)
    requires Subsequence(a, b) && Subsequence(b, c)
    ensures Subsequence(a, c)
    decreases |b| + |c|
  {
    if a != [] {
      var c1 := c[..|c| - 1];
      if Subsequence(b, c1) {
        Through(a, b, c1);
      } else if Subsequence(a, b[..|b| - 1]) {
        Through(a, b[..|b| - 1], c1);
      } else {
        Through(a[..|a| - 1], b[..|b| - 1], c1);
      }
    }
  }

  lemma {:induction false} Beside(a: seq<Id>, b: seq<Id>, c: seq<Id>, d: seq<Id>)
    requires Subsequence(a, b) && Subsequence(c, d)
    ensures Subsequence(a + c, b + d)
    decreases |d|
  {
    if c == [] {
      assert a + c == a;
      WithMore(a, b, d);
    } else {
      assert (b + d)[..|b + d| - 1] == b + d[..|d| - 1];
      if Subsequence(c, d[..|d| - 1]) {
        Beside(a, b, c, d[..|d| - 1]);
      } else {
        Beside(a, b, c[..|c| - 1], d[..|d| - 1]);
        assert (a + c)[..|a + c| - 1] == a + c[..|c| - 1];
      }
    }
  }

  lemma {:induction false} JoiningInOrder(r: Runner, ids: seq<Id>)
    ensures Subsequence(Joining(r, ids), ids)
    decreases |ids|
  {
    if ids != [] {
      JoiningInOrder(r, ids[..|ids| - 1]);
      assert [ids[|ids| - 1]] + [] == [ids[|ids| - 1]];
    }
  }

  /** What joined the queue are cells that were asked for, in that order. */
  lemma {:induction false} JoinedAsAsked(s: System, steps: seq<Step>)
    ensures var t := RunOn(s, steps); s.asked <= t.asked && Subsequence(t.asked[|s.asked|..], AskedBy(steps))
    decreases |steps|
  {
    if steps != [] {
      var front, step := steps[..|steps| - 1], steps[|steps| - 1];
      JoinedAsAsked(s, front);
      hide *;
      var before := RunOn(s, front);
      StepAsks(before, step);
      AskedMore(s, steps);
      AskedGrows(s.asked, before.asked, After(before, step).asked, AskedBy(front),
        if step.Run? then step.ids else []);
    } else {
      assert s.asked[|s.asked|..] == [];
    }
  }

  lemma AskedGrows(first: seq<Id>, before: seq<Id>, after: seq<Id>, given: seq<Id>, ids: seq<Id>)
    requires first <= before && Subsequence(before[|first|..], given)
    requires before <= after && Subsequence(after[|before|..], ids)
    ensures first <= after && Subsequence(after[|first|..], given + ids)
  {
    hide *;
    Beside(before[|first|..], given, after[|before|..], ids);
    assert after[|first|..] == before[|first|..] + after[|before|..];
  }

  lemma AskedMore(s: System, steps: seq<Step>)
    requires steps != []
    ensures var step := steps[|steps| - 1];
      AskedBy(steps) == AskedBy(steps[..|steps| - 1]) + if step.Run? then step.ids else []
    ensures RunOn(s, steps) == After(RunOn(s, steps[..|steps| - 1]), steps[|steps| - 1])
  {
    hide After;
  }

  lemma StepAsks(s: System, step: Step)
    ensures var t := After(s, step);
      s.asked <= t.asked && Subsequence(t.asked[|s.asked|..], if step.Run? then step.ids else [])
  {
    hide Next, Heard, Read, Taken, Said;
    match step
    case Run(ids) =>
      JoiningInOrder(s.runner, ids);
      var more := Joining(s.runner, ids);
      assert (s.asked + more)[|s.asked|..] == more;
      assert s.asked[|s.asked|..] == [];
    case _ => assert s.asked[|s.asked|..] == [];
  }

  /** Cells run in the order they were asked for, by the calls of `run`; and those that joined the queue did. */
  lemma AskedOrder(cells: set<Id>, steps: seq<Step>)
    ensures var s := RunOn(Initial(cells), steps); var ran := Executes(s.runner.sent) + s.runner.queue;
      Subsequence(ran, AskedBy(steps)) && Subsequence(ran, s.asked) && Subsequence(s.asked, AskedBy(steps))
  {
    RunInOrder(Initial(cells), steps, 0, 0);
    JoinedAsAsked(Initial(cells), steps);
    var s := RunOn(Initial(cells), steps);
    hide Executes, Subsequence, RunOn, AskedBy;
    assert Executes(s.runner.sent)[0..] == Executes(s.runner.sent) && s.asked[0..] == s.asked;
    Through(Executes(s.runner.sent) + s.runner.queue, s.asked, AskedBy(steps));
  }

  /** A cell that failed cancels those behind it: whatever is run after it was asked for after it. */
  lemma {:induction false} FailureCancels(s: System, steps: seq<Step>)
    requires Kept(s) && s.heard < |s.driver.said| && s.driver.said[s.heard].Done?
      && s.driver.said[s.heard].status != Finished
    ensures var t := RunOn(After(s, Hear), steps); var n, m := |Executes(s.runner.sent)|, |s.asked|;
      && m <= |t.asked| && n <= |Executes(t.runner.sent)|
      && Subsequence(Executes(t.runner.sent)[n..] + t.runner.queue, t.asked[m..])
      && Subsequence(Executes(t.runner.sent)[n..] + t.runner.queue, AskedBy(steps))
  {
    HeardRunning(s);
    var t := After(s, Hear);
    assert Executes(s.runner.sent)[|Executes(s.runner.sent)|..] + [] == [];
    assert Subsequence([], t.asked[|s.asked|..]);
    RunInOrder(t, steps, |Executes(s.runner.sent)|, |s.asked|);
    JoinedAsAsked(t, steps);
    hide Subsequence, Executes, RunOn, AskedBy;
    var u, n := RunOn(t, steps), |Executes(s.runner.sent)|;
    Through(Executes(u.runner.sent)[n..] + u.runner.queue, u.asked[|s.asked|..], AskedBy(steps));
  }

  // ----- what each step does

  /** The first of the waiting cells that there still is runs, and those behind it wait; if there is none, none does. */
  ghost predicate GoesOn(r: Runner, waiting: seq<Id>, t: Runner) {
    t.cells == r.cells && exists k :: GoesOnAt(r, waiting, t, k)
  }

  ghost predicate GoesOnAt(r: Runner, waiting: seq<Id>, t: Runner, k: int) {
    && 0 <= k <= |waiting| && (forall i :: 0 <= i < k ==> waiting[i] !in r.cells)
    && if k == |waiting| then
         t.running.None? && t.queue == [] && t.sent == r.sent && t.phase == if r.phase == Busy then Idle else r.phase
       else
         && waiting[k] in r.cells && t.running == Some(waiting[k]) && t.queue == waiting[k + 1..]
         && t.sent == r.sent + [Execute(waiting[k])] && t.phase == Busy
  }

  lemma {:induction false} NextGoesOn(r: Runner)
    ensures GoesOn(r, r.queue, Next(r))
    decreases |r.queue|
  {
    if r.queue == [] {
      assert GoesOnAt(r, r.queue, Next(r), 0);
    } else if r.queue[0] !in r.cells {
      var less := r.(queue := r.queue[1..]);
      NextGoesOn(less);
      var k :| GoesOnAt(less, less.queue, Next(less), k);
      assert forall i :: 0 < i < k + 1 ==> r.queue[i] == less.queue[i - 1];
      assert less.queue[k..] == r.queue[k + 1..];
      assert GoesOnAt(r, r.queue, Next(r), k + 1);
    } else {
      assert GoesOnAt(r, r.queue, Next(r), 0);
    }
  }

  /** The queue goes on after a cell that finished; one that failed or died empties it, and a dead kernel stays so. */
  lemma HearTells(s: System)
    requires Kept(s) && s.heard < |s.driver.said|
    ensures var r, t := s.runner, After(s, Hear);
      && t == s.(runner := t.runner, heard := s.heard + 1)
      && match s.driver.said[s.heard]
         case Output(_) => t.runner == r
         case Done(_, Finished) => GoesOn(r, r.queue, t.runner)
         case Done(_, Failed) => t.runner == r.(running := None, queue := [], phase := Idle)
         case Done(_, Died) => t.runner == r.(running := None, queue := [], phase := Dead)
  {
    var m := s.driver.said[s.heard];
    if m.Done? {
      HeardRunning(s);
      var rest := s.runner.(running := None);
      NextGoesOn(rest);
      var k :| GoesOnAt(rest, rest.queue, Next(rest), k);
      assert GoesOnAt(s.runner, s.runner.queue, Next(rest), k);
    }
    hide DriverKeeps, Executes, Dones, Distinct;
  }

  /** A call of `run` that continues starts the queue, when no cell runs. */
  lemma ResumeTells(s: System)
    requires s.resumes > 0
    ensures var t := After(s, Resume);
      && t == s.(runner := t.runner, resumes := s.resumes - 1)
      && if s.runner.running.Some? then t.runner == s.runner else GoesOn(s.runner, s.runner.queue, t.runner)
  {
    NextGoesOn(s.runner);
    hide GoesOn;
  }

  /** A call of `run` puts those of its cells into the queue that are not there and do not run, and sends nothing. */
  lemma RunTells(s: System, ids: seq<Id>)
    requires s.runner.phase != Dead
    ensures var t := After(s, Run(ids)); var r := t.runner;
      && t == s.(runner := r, resumes := s.resumes + 1, asked := t.asked)
      && r == s.runner.(queue := r.queue) && s.runner.queue <= r.queue
      && Subsequence(r.queue[|s.runner.queue|..], ids)
      && (forall id :: id in ids ==> r.running == Some(id) || id in r.queue)
  {
    JoiningInOrder(s.runner, ids);
    forall id | id in ids ensures s.runner.running == Some(id) || id in s.runner.queue + Joining(s.runner, ids) {
      AllAskedWait(s.runner, ids, id);
    }
    hide Joining, Subsequence;
    assert (s.runner.queue + Joining(s.runner, ids))[|s.runner.queue|..] == Joining(s.runner, ids);
  }

  /** Stopping forgets what waits and interrupts what runs. */
  lemma StopTells(s: System)
    ensures After(s, Stop).runner == s.runner.(queue := [], sent := s.runner.sent + [Interrupt])
  {}

  /** The driver's reading thread queues each request as it was sent, but for interrupts. */
  lemma ReadsTells(s: System)
    requires s.driver.read < |s.runner.sent|
    ensures var d, t, request := s.driver, After(s, DriverReads).driver, s.runner.sent[s.driver.read];
      t == d.(read := d.read + 1, jobs := if request == Interrupt then d.jobs else d.jobs + [request])
  {}

  /** The driver runs its jobs in order, once at a time; on a dead kernel a cell is done at once, until a restart. */
  lemma DriverTells(s: System)
    requires s.driver.current.None? && s.driver.jobs != []
    ensures var d, t := s.driver, After(s, DriverTakes).driver;
      && t.jobs == d.jobs[1..] && t.read == d.read
      && (d.jobs[0] == Restart ==> t.alive && t.current.None? && t.said == d.said)
      && (d.jobs[0].Execute? ==> t.alive == d.alive)
      && (d.jobs[0].Execute? && d.alive ==> t.current == Some(d.jobs[0].id) && t.said == d.said)
      && (d.jobs[0].Execute? && !d.alive ==> t.current.None? && t.said == d.said + [Done(d.jobs[0].id, Died)])
  {}

  /** What the running cell says is passed on; a `died` only from a kernel that is. */
  lemma SaysTells(s: System, id: Id, end: Option<Status>)
    requires s.driver.current == Some(id)
    ensures var d, t := s.driver, After(s, DriverSays(end)).driver;
      && (end.None? ==> t == d.(said := d.said + [Output(id)]))
      && (end == Some(Died) && d.alive ==> t == d)
      && (end.Some? && (end.value == Died ==> !d.alive) ==>
           t == d.(said := d.said + [Done(id, end.value)], current := None))
  {}

  /** In a fresh kernel a cell that is asked for runs, once the driver has read and taken the request. */
  lemma FirstCellRuns(cells: set<Id>, id: Id)
    requires id in cells
    ensures var s := RunOn(Initial(cells), [Run([id]), Resume, DriverReads, DriverTakes]);
      && s.runner == Runner([], Some(id), Busy, cells, [Execute(id)])
      && s.driver == Driver(1, [], Some(id), true, []) && s.heard == 0 && s.resumes == 0
  {
    var steps := [Run([id]), Resume, DriverReads, DriverTakes];
    var s := Initial(cells);
    assert [id][..0] == [];
    assert Joining(s.runner, [id]) == [id];
    assert steps[..3] == [Run([id]), Resume, DriverReads] && steps[..3][..2] == [Run([id]), Resume];
    assert steps[..3][..2][..1] == [Run([id])] && steps[..3][..2][..1][..0] == [];
    var a := After(s, Run([id]));
    var b := After(a, Resume);
    var c := After(b, DriverReads);
    assert RunOn(s, []) == s;
    hide After, Joining;
    assert RunOn(s, [Run([id])]) == a;
    assert RunOn(s, [Run([id]), Resume]) == b;
    assert RunOn(s, [Run([id]), Resume, DriverReads]) == c;
  }

  // ----- restarting

  /** A restart forgets a running cell whose `done` is still to come: it keeps count exactly when none runs. */
  lemma RestartForgets(s: System)
    requires Kept(s)
    ensures var r := Restarted(s.runner);
      r == s.runner.(queue := [], running := None, phase := Starting, sent := s.runner.sent + [Restart])
    ensures var t := s.(runner := Restarted(s.runner));
      DriverKeeps(t.driver, t.runner.sent) && (InFlight(t) == One(t.runner.running) <==> s.runner.running.None?)
  {
    OnlyTheRunningCell(s);
    SentMore(s.driver, s.runner.sent, Restart);
    hide DriverKeeps, RunnerKeeps, InFlight;
  }

}
