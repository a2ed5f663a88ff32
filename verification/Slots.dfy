/** The pools and the run ring together: over every run of creations, forks, schedules, exits, kills and
    sweeps, the occupied slots are those of the tasks in the ring. */
module Slots {
  import opened Options
  import opened Scheduler
  import Pools

  /** The ring as the scheduler sees it, and the same ring with the slots of each task. */
  datatype Sys = Sys(q: Queue, m: Pools.Mem)

  ghost predicate SameTask(t: Info, p: Pools.Proc) {
    t.pid == p.pid && (t.state == Dead <==> p.dead)
  }

  /** Task by task, in the order of next. */
  ghost predicate Matches(tasks: seq<Info>, ring: seq<Pools.Proc>) {
    |tasks| == |ring| && forall i {:trigger tasks[i]} {:trigger ring[i]} :: 0 <= i < |tasks| ==>
        SameTask(tasks[i], ring[i])
  }

  /** Four regions or none, and an address space where the task is dead. */
  ghost predicate Regular(ring: seq<Pools.Proc>) {
    forall i {:trigger ring[i]} :: 0 <= i < |ring| ==> |ring[i].vmas| <= 4 && (ring[i].dead ==> ring[i].mm.Some?)
  }

  ghost predicate Ok(s: Sys) {
    Wf(s.q) && Matches(s.q.tasks, s.m.ring) && Regular(s.m.ring) && Pools.Conserved(s.m.bits, s.m.ring)
  }

  // ----- the steps -----

  /** Create and Fork add a task behind end; SetUp gives the running thread its address space; Map is
      umalloc building page tables; Dispatch is schedule; Interrupt is the timer acting on the ring; Alter is
      exit, wait, kill or sleep acting on one task; Reap is clean_dead, with or without do_ps before it. */
  datatype Call =
    | Create(t: Info)
    | Fork(t: Info, tables: nat)
    | SetUp
    | Map(tables: nat)
    | Dispatch
    | Interrupt
    | Alter(i: nat, t: Info)
    | Reap

  ghost predicate Possible(s: Sys, e: Call) {
    s.q.tasks != [] && s.m.ring != [] && s.q.end < |s.q.tasks| &&
    match e
    case Create(t) => Allowed(s.q, Scheduler.Arrive(t)) && t.state != Dead
    case Fork(t, tables) => Allowed(s.q, Scheduler.Arrive(t)) && t.state != Dead && tables >= Pools.FORK_TABLES
    case Map(_) => true
    case SetUp => s.m.ring[0].mm.None? && s.m.ring[0].vmas == []
    case Dispatch => true
    case Interrupt => true
    case Alter(i, t) =>
      Allowed(s.q, Scheduler.Change(i, t)) && i < |s.m.ring| && (t.state == Dead ==> s.m.ring[i].mm.Some?)
    case Reap => EndSurvives(s.q)
  }

  predicate Full(s: Sys) {
    |s.m.ring| >= Pools.PoolSize(Pools.TASK)
  }

  /** The page tables in use. */
  ghost function TablesOf(s: Sys): nat
    requires Ok(s)
  {
    |Pools.Held(s.m.bits[Pools.USERPT])|
  }

  /** Whether the page tables run out in the call: kmalloc then panics in the middle of it. */
  ghost predicate Panics(s: Sys, e: Call)
    requires Ok(s)
  {
    match e
    case Fork(_, tables) => !Full(s) && TablesOf(s) + tables > Pools.PoolSize(Pools.USERPT)
    case Map(tables) => TablesOf(s) + tables > Pools.PoolSize(Pools.USERPT)
    case _ => false
  }

  ghost function Stepped(s: Sys, e: Call): Sys
    requires Ok(s) && Possible(s, e)
  {
    match e
    case Create(t) =>
      if Full(s) then s else Sys(Add(s.q, t), Pools.CreateThread(s.m, t.pid, s.q.end + 1))
    case Fork(t, tables) =>
      if Full(s) then s
      else Sys(if Panics(s, e) then s.q else Add(s.q, t), Pools.DoFork(s.m, t.pid, s.q.end + 1, tables))
    case Map(tables) => s.(m := Pools.WithTables(s.m, tables))
    case SetUp => s.(m := Pools.SetTaskStruct(s.m))
    case Dispatch =>
      IdleStays(s.q);
      Sys(Schedule(s.q), Pools.Rotated(s.m, Pick(Preempted(s.q))))
    case Interrupt => s.(q := TimerTicks(s.q))
    case Alter(i, t) => Sys(Update(s.q, i, t), Pools.Marked(s.m, i, t.state == Dead))
    case Reap => Sys(Clean(s.q), Pools.CleanFrom(s.m, 0))
  }

  // ----- each keeps the two rings together -----

  lemma RegularFacts(ring: seq<Pools.Proc>)
    requires Regular(ring)
    ensures Pools.Modest(ring) && Pools.DeadHaveSpaces(ring)
  {
    forall p | p in ring
      ensures |p.vmas| <= 10 && (p.dead ==> p.mm.Some?)
    {
      var i :| 0 <= i < |ring| && ring[i] == p;
    }
  }

  lemma AddedMatches(q: Queue, m: Pools.Mem, t: Info, p: Pools.Proc)
    requires Matches(q.tasks, m.ring) && Regular(m.ring) && q.end < |q.tasks| && t.state != Dead
    requires p.pid == t.pid && !p.dead && |p.vmas| <= 4
    ensures Matches(Add(q, t).tasks, Pools.Linked(m, p, q.end + 1)) && Regular(Pools.Linked(m, p, q.end + 1))
  {
  }

  lemma TickMatches(q: Queue, m: Pools.Mem)
    requires Wf(q) && Matches(q.tasks, m.ring) && Regular(m.ring)
    ensures Pick(Preempted(q)) < |q.tasks|
    ensures var r := Pools.Rotated(m, Pick(Preempted(q))).ring; Matches(Schedule(q).tasks, r) && Regular(r)
  {
    IdleStays(q);
    var tasks, k := Preempted(q), Pick(Preempted(q));
    var s, r := Schedule(q).tasks, Pools.Rotated(m, k).ring;
    RotateKeepsCurrentAlive(q);
    forall i | 0 <= i < |s|
      ensures SameTask(s[i], r[i]) && |r[i].vmas| <= 4 && (r[i].dead ==> r[i].mm.Some?)
    {
      var j := if i + k < |tasks| then i + k else i + k - |tasks|;
      RotateAt(tasks, k, i);
      RotateAt(m.ring, k, i);
      assert r[i] == m.ring[j] && SameTask(q.tasks[j], m.ring[j]);
    }
    hide Pick, Wf;
  }

  /** The task schedule picks is not dead. */
  lemma RotateKeepsCurrentAlive(q: Queue)
    requires Wf(q)
    ensures Pick(Preempted(q)) < |q.tasks| && Preempted(q)[Pick(Preempted(q))].state != Dead
  {
    IdleStays(q);
    PreemptedFacts(q);
    var k := Pick(Preempted(q));
    assert Preempted(q)[k] in Preempted(q);
  }

  lemma {:induction false} AliveMatches(tasks: seq<Info>, ring: seq<Pools.Proc>)
    requires Matches(tasks, ring) && Regular(ring)
    ensures Matches(Alive(tasks), Pools.Alive(ring)) && Regular(Pools.Alive(ring))
    decreases |tasks|
  {
    if tasks != [] {
      assert SameTask(tasks[0], ring[0]);
      TailMatches(tasks, ring);
      AliveMatches(tasks[1..], ring[1..]);
    }
  }

  lemma TailMatches(tasks: seq<Info>, ring: seq<Pools.Proc>)
    requires Matches(tasks, ring) && Regular(ring) && tasks != []
    ensures Matches(tasks[1..], ring[1..]) && Regular(ring[1..])
  {
    assert forall i {:trigger tasks[1..][i]} {:trigger ring[1..][i]} :: 0 <= i < |tasks| - 1 ==>
      tasks[1..][i] == tasks[i + 1] && ring[1..][i] == ring[i + 1];
  }

  lemma SweepMatches(q: Queue, m: Pools.Mem)
    requires Matches(q.tasks, m.ring) && Regular(m.ring) && EndSurvives(q)
    requires Pools.CleanFrom(m, 0).ring == m.ring[..1] + Pools.Alive(m.ring[1..])
    ensures Matches(Clean(q).tasks, Pools.CleanFrom(m, 0).ring) && Regular(Pools.CleanFrom(m, 0).ring)
  {
    TailMatches(q.tasks, m.ring);
    AliveMatches(q.tasks[1..], m.ring[1..]);
    assert SameTask(q.tasks[0], m.ring[0]);
    hide Alive, Pools.Alive, Pools.CleanFrom;
  }

  lemma CreateOk(s: Sys, t: Info)
    requires Ok(s) && Possible(s, Create(t)) && !Full(s)
    ensures Ok(Stepped(s, Create(t)))
  {
    AddKeepsWf(s.q, t);
    Pools.CreateKeeps(s.m, t.pid, s.q.end + 1);
    AddedMatches(s.q, s.m, t, Pools.Thread(s.m.bits, t.pid));
    hide Wf, Pools.Conserved, Matches, Regular, Add, Pools.Linked;
  }

  lemma ForkOk(s: Sys, t: Info, tables: nat)
    requires Ok(s) && Possible(s, Fork(t, tables)) && !Full(s) && !Panics(s, Fork(t, tables))
    ensures Ok(Stepped(s, Fork(t, tables)))
    ensures TablesOf(Stepped(s, Fork(t, tables))) == TablesOf(s) + tables
  {
    AddKeepsWf(s.q, t);
    RegularFacts(s.m.ring);
    Pools.ForkKeeps(s.m, t.pid, s.q.end + 1, tables);
    var p := Pools.Child(s.m, t.pid);
    assert |s.m.ring[0].vmas| <= 4;
    AddedMatches(s.q, s.m, t, p);
    hide Wf, Pools.Conserved, Matches, Regular, Add, Pools.Linked, Pools.ChildSlots, Pools.ChainSlots, Pools.Held,
      Pools.TakeTables;
  }

  /** A panic in fork is the one thing that leaves slots occupied that no task holds. */
  lemma ForkPanics(s: Sys, t: Info, tables: nat)
    requires Ok(s) && Possible(s, Fork(t, tables))
    ensures Ok(Stepped(s, Fork(t, tables))) <==> !Panics(s, Fork(t, tables))
  {
    RegularFacts(s.m.ring);
    if Full(s) {
      hide Pools.Conserved, Regular, Matches, Wf;
    } else if Panics(s, Fork(t, tables)) {
      Pools.ForkKeepsIff(s.m, t.pid, s.q.end + 1, tables);
      hide Pools.Conserved, Regular, Matches, Wf, Pools.ChildSlots, Pools.TakeTables;
    } else {
      ForkOk(s, t, tables);
      hide Ok;
    }
  }

  lemma SetUpOk(s: Sys)
    requires Ok(s) && Possible(s, SetUp)
    ensures Ok(Stepped(s, SetUp))
  {
    RegularFacts(s.m.ring);
    Pools.SetTaskStructKeeps(s.m);
    Pools.SetTaskStructIs(s.m);
    hide Wf, Pools.Conserved, Pools.OccupyChain, Pools.ChainSlots, Pools.SetTaskStruct, Matches, Regular, Pools.Occupy;
    FirstMatches(s.q.tasks, s.m.ring, Pools.WithSpace(s.m.ring[0], s.m.bits, 4));
  }

  /** An address space for the running task makes no difference to the scheduler. */
  lemma FirstMatches(tasks: seq<Info>, ring: seq<Pools.Proc>, p: Pools.Proc)
    requires Matches(tasks, ring) && Regular(ring) && ring != []
    requires p.pid == ring[0].pid && p.dead == ring[0].dead && |p.vmas| <= 4 && p.mm.Some?
    ensures Matches(tasks, [p] + ring[1..]) && Regular([p] + ring[1..])
  {
    assert SameTask(tasks[0], ring[0]);
  }

  lemma InterruptOk(s: Sys)
    requires Ok(s) && Possible(s, Call.Interrupt)
    ensures Ok(Stepped(s, Call.Interrupt))
  {
    TimerKeepsWf(s.q);
    forall i | 0 <= i < |s.q.tasks|
      ensures SameTask(TimerTicks(s.q).tasks[i], s.m.ring[i])
    {
      TimerSparesOthers(s.q, i);
      assert SameTask(s.q.tasks[i], s.m.ring[i]);
    }
    hide Wf, Pools.Conserved, TimerTicks, TimerTick, Regular;
  }

  lemma ChangeOk(s: Sys, i: nat, t: Info)
    requires Ok(s) && Possible(s, Alter(i, t))
    ensures Ok(Stepped(s, Alter(i, t)))
  {
    ApplyKeepsWf(s.q, Scheduler.Change(i, t));
    Pools.MarkKeeps(s.m, i, t.state == Dead);
    assert SameTask(s.q.tasks[i], s.m.ring[i]);
    hide Wf, Pools.Conserved;
  }

  lemma SweepOk(s: Sys)
    requires Ok(s) && Possible(s, Reap)
    ensures Ok(Stepped(s, Reap))
  {
    CleanKeepsWf(s.q);
    RegularFacts(s.m.ring);
    Pools.CleanKeeps(s.m, 0);
    SweepMatches(s.q, s.m);
    hide Wf, Pools.Conserved, Matches, Regular, Clean, Pools.CleanFrom;
  }

  lemma StepKeepsOk(s: Sys, e: Call)
    requires Ok(s) && Possible(s, e) && !Panics(s, e)
    ensures Ok(Stepped(s, e))
  {
    match e {
      case Create(t) => if !Full(s) { CreateOk(s, t); }
      case Fork(t, tables) => if !Full(s) { ForkOk(s, t, tables); }
      case SetUp => SetUpOk(s);
      case Map(tables) =>
        Pools.TablesKeep(s.m, tables);
        hide Wf, Matches, Regular, Pools.Conserved;
      case Dispatch =>
        ScheduleKeepsWf(s.q);
        TickMatches(s.q, s.m);
        Pools.RotateKeeps(s.m, Pick(Preempted(s.q)));
        hide Wf, Matches, Regular, Pools.Conserved, Schedule;
      case Interrupt => InterruptOk(s);
      case Alter(i, t) => ChangeOk(s, i, t);
      case Reap => SweepOk(s);
    }
  }

  // ----- page tables -----

  /** The page tables that a call takes. */
  ghost function Takes(s: Sys, e: Call): nat {
    match e
    case Fork(_, tables) => if Full(s) then 0 else tables
    case Map(tables) => tables
    case _ => 0
  }

  /** No call gives a page table back. */
  lemma StepTakes(s: Sys, e: Call)
    requires Ok(s) && Possible(s, e) && !Panics(s, e)
    ensures Ok(Stepped(s, e)) && TablesOf(Stepped(s, e)) == TablesOf(s) + Takes(s, e)
  {
    StepKeepsOk(s, e);
    hide Wf, Matches, Regular, Pools.Held, Pools.Accounts;
    match e {
      case Create(t) => Pools.ThreadTables(s.m, t.pid, s.q.end + 1);
      case Fork(t, tables) => if !Full(s) { ForkOk(s, t, tables); }
      case SetUp => Pools.SpaceTables(s.m);
      case Map(tables) => Pools.TablesTaken(s.m.bits, tables);
      case Reap => Pools.CleanTables(s.m, 0);
      case _ =>
    }
  }

  // ----- runs -----

  /** The calls are possible one after the other, and no one of them panics. */
  ghost predicate AllPossible(s: Sys, events: seq<Call>)
    requires Ok(s)
    decreases |events|
  {
    events == []
    || (&& Possible(s, events[0]) && !Panics(s, events[0])
        && (StepKeepsOk(s, events[0]); AllPossible(Stepped(s, events[0]), events[1..])))
  }

  ghost function Run(s: Sys, events: seq<Call>): (t: Sys)
    requires Ok(s) && AllPossible(s, events)
    ensures Ok(t)
    decreases |events|
  {
    if events == [] then s
    else
      StepKeepsOk(s, events[0]);
      Run(Stepped(s, events[0]), events[1..])
  }

  /** Slot conservation: after every run the TASK and KSTACK slots in use are as many as the tasks in the
      ring, at most 128, the MM slots as many as the address spaces and the VMA slots as the regions. */
  lemma SlotsAreConserved(s: Sys, events: seq<Call>)
    requires Ok(s) && AllPossible(s, events)
    ensures var t := Run(s, events);
            && Pools.Conserved(t.m.bits, t.m.ring)
            && |Pools.Held(t.m.bits[Pools.TASK])| == |Pools.Held(t.m.bits[Pools.KSTACK])| == |t.q.tasks| <= Pools.PS_NO
            && |Pools.Held(t.m.bits[Pools.MM])| == Pools.SpacesIn(t.m.ring)
            && |Pools.Held(t.m.bits[Pools.VMA])| == Pools.RegionsIn(t.m.ring)
  {
    var t := Run(s, events);
    Pools.ConservedCounts(t.m.bits, t.m.ring);
    hide Wf, Pools.Held, Regular;
  }

  /** The page tables taken along a run. */
  ghost function Taken(s: Sys, events: seq<Call>): nat
    requires Ok(s) && AllPossible(s, events)
    decreases |events|
  {
    if events == [] then 0
    else
      StepKeepsOk(s, events[0]);
      Takes(s, events[0]) + Taken(Stepped(s, events[0]), events[1..])
  }

  /** The children forked along a run. */
  ghost function Children(s: Sys, events: seq<Call>): nat
    requires Ok(s) && AllPossible(s, events)
    decreases |events|
  {
    if events == [] then 0
    else
      StepKeepsOk(s, events[0]);
      (if events[0].Fork? && !Full(s) then 1 else 0) + Children(Stepped(s, events[0]), events[1..])
  }

  lemma {:induction false} TablesAreTaken(s: Sys, events: seq<Call>)
    requires Ok(s) && AllPossible(s, events)
    ensures TablesOf(Run(s, events)) == TablesOf(s) + Taken(s, events)
    ensures Taken(s, events) >= Pools.FORK_TABLES * Children(s, events)
    decreases |events|
  {
    if events != [] {
      var e := events[0];
      StepKeepsOk(s, e);
      StepTakes(s, e);
      TablesAreTaken(Stepped(s, e), events[1..]);
      assert Takes(s, e) >= (if e.Fork? && !Full(s) then Pools.FORK_TABLES else 0);
      hide Ok, Stepped, Takes, TablesOf;
    }
  }

  /** Page tables are never freed: a run's children are bounded by the pool, reaped or not, and at most 67. */
  lemma FewChildren(s: Sys, events: seq<Call>)
    requires Ok(s) && AllPossible(s, events)
    ensures TablesOf(s) <= TablesOf(Run(s, events)) <= Pools.PoolSize(Pools.USERPT)
    ensures Pools.FORK_TABLES * Children(s, events) <= Pools.PoolSize(Pools.USERPT) - TablesOf(s)
    ensures Children(s, events) <= 67
  {
    TablesAreTaken(s, events);
    var t := Run(s, events);
    Pools.HeldIsBounded(|t.m.bits[Pools.USERPT]|, Pools.Held(t.m.bits[Pools.USERPT]));
    hide Wf, Matches, Regular, Pools.Accounts;
  }

  // ----- boot -----

  /** All bitmaps clear, then the slots of the idle thread. */
  function EmptyBitmaps(): Pools.Bitmaps {
    seq(Pools.FLAGS, flag requires 0 <= flag < Pools.FLAGS => seq(Pools.PoolSize(flag), _ => false))
  }

  function BootSys(): Sys {
    Sys(Queue([Info(IDLE_PID, 0, Ready, 0, 0, 0)], 0), Pools.CreateThread(Pools.Mem(EmptyBitmaps(), []), IDLE_PID, 0))
  }

  lemma NothingHeld()
    ensures Pools.Conserved(EmptyBitmaps(), [])
  {
    forall flag: nat | flag < Pools.FLAGS
      ensures Pools.Held(EmptyBitmaps()[flag]) == {}
    {
    }
  }

  /** The ring with idle alone satisfies the invariant, so every state reachable from boot conserves. */
  lemma BootIsOk()
    ensures Ok(BootSys())
  {
    NothingHeld();
    var m := Pools.Mem(EmptyBitmaps(), []);
    Pools.CreateKeeps(m, IDLE_PID, 0);
    hide Pools.Conserved, EmptyBitmaps, Pools.Occupy, Pools.FreeSlot;
    assert BootSys().m.ring == [Pools.Thread(m.bits, IDLE_PID)];
    assert Find(BootSys().q.tasks, IDLE_PID, 0) == 0;
  }

  /** From boot, after any run: no more than 128 tasks, and exactly their slots in use. */
  lemma BootRunsConserve(calls: seq<Call>)
    ensures Ok(BootSys())
    ensures AllPossible(BootSys(), calls) ==>
              var t := Run(BootSys(), calls);
              Pools.Conserved(t.m.bits, t.m.ring) && |Pools.Held(t.m.bits[Pools.TASK])| == |t.q.tasks| <= Pools.PS_NO
  {
    BootIsOk();
    if AllPossible(BootSys(), calls) {
      SlotsAreConserved(BootSys(), calls);
    }
    hide Wf, Pools.Held, Regular;
  }
}
