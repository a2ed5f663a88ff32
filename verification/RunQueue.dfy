/** The run ring in place: task_struct objects linked in a circle, edited by add_task, schedule,
    clean_dead and the process calls. Every method is proved against Scheduler's functions. */
module RunQueue {
  import opened Scheduler
  import Handshake
  import Timer

  class Task {
    const pid: int
    const ppid: int
    var next: Task?
    var state: TaskState
    var sleep: nat
    var waitPid: int
    var retVal: int

    /** A fresh task_struct: kmalloc clears the page. */
    constructor (pid: int, ppid: int, state: TaskState)
      ensures Value() == Info(pid, ppid, state, 0, 0, 0) && next == null
    {
      this.pid, this.ppid := pid, ppid;
      this.next := null;
      this.state := state;
      this.sleep, this.waitPid, this.retVal := 0, 0, 0;
    }

    ghost function Value(): Info
      reads this
    {
      Info(pid, ppid, state, sleep, waitPid, retVal)
    }
  }

  ghost function Values(ring: seq<Task>): (r: seq<Info>)
    reads ring
    ensures |r| == |ring| && forall i {:trigger r[i]} :: 0 <= i < |r| ==> r[i] == ring[i].Value()
  {
    if ring == [] then [] else [ring[0].Value()] + Values(ring[1..])
  }

  /** The tasks form one simple cycle. */
  ghost predicate Circle(ring: seq<Task>)
    reads ring
  {
    && |ring| > 0
    && DistinctTasks(ring)
    && (forall i {:trigger ring[i].next} :: 0 <= i < |ring| ==> ring[i].next == ring[After(ring, i)])
  }

  class Queue {
    var current: Task
    var end: Task
    var idle: Task
    ghost var ring: seq<Task>
    ghost var endAt: nat

    /** Everything but the position of `end`, which clean_dead may lose. */
    ghost predicate Linked()
      reads this, ring
    {
      && Circle(ring) && ring[0] == current
      && idle in ring && idle.pid == IDLE_PID
      && Wf(Scheduler.Queue(Values(ring), 0))
    }

    ghost predicate Valid()
      reads this, ring
    {
      Linked() && endAt < |ring| && ring[endAt] == end && Wf(Abs())
    }

    ghost function Abs(): Scheduler.Queue
      reads this, ring
    {
      Scheduler.Queue(Values(ring), endAt)
    }

    /** Valid, taken apart and put together. */
    lemma ValidParts()
      ensures Valid() <==> Linked() && endAt < |ring| && ring[endAt] == end && Wf(Abs())
      ensures Linked() <==> Circle(ring) && ring[0] == current && idle in ring && idle.pid == IDLE_PID
                            && Wf(Scheduler.Queue(Values(ring), 0))
      ensures Circle(ring) ==> |ring| > 0 && DistinctTasks(ring)
      ensures Abs().tasks == Values(ring) && Abs().end == endAt
    {
      hide Wf, Values, DistinctTasks;
    }

    /** create_thread on an empty queue: add_task makes the first task its own successor. */
    constructor (t: Task)
      requires t.pid == IDLE_PID && t.state != Dead && t.next == null
      modifies t
      ensures Valid() && ring == [t] && current == end == idle == t && t.Value() == old(t.Value())
    {
      current, end, idle := t, t, t;
      ring, endAt := [t], 0;
      new;
      t.next := t;
    }

    /** The two link stores of add_task. */
    method Link(t: Task)
      requires Circle(ring) && endAt < |ring| && ring[endAt] == end && t !in ring
      modifies this`ring, ring, t
      ensures Circle(ring) && ring == Inserted(old(ring), endAt, t)
      ensures Values(ring) == old(Values(ring))[..endAt + 1] + [old(t.Value())] + old(Values(ring))[endAt + 1..]
    {
      ghost var r, v := ring, Values(ring);
      t.next := end.next;
      end.next := t;
      ring := Inserted(r, endAt, t);
      InsertedCircle(r, endAt, t);
      assert Values(r) == v;
      hide Values;
      InsertedValues(r, endAt, t);
    }

    /** add_task: link the task behind `end`. */
    method AddTask(t: Task)
      requires Valid() && t !in ring && t.state != Running
      requires forall u :: u in Abs().tasks ==> u.pid != t.pid
      modifies this`end, this`ring, this`endAt, ring, t
      ensures Valid() && ring == Inserted(old(ring), old(endAt), t) && end == t
      ensures Abs() == Add(old(Abs()), old(t.Value()))
    {
      hide *;
      ValidParts();
      ghost var q, r := Abs(), ring;
      WfAnyEnd(q);
      TaskValue(t);
      AddKeepsWf(q, t.Value());
      AddIs(q, t.Value());
      Link(t);
      end := t;
      endAt := endAt + 1;
      InsertedEnds(r, q.end, t);
      WfAnyEnd(Add(q, old(t.Value())));
      ValidParts();
    }

    /** Write one task's state; the values of the ring change at that position only. */
    method SetState(i: nat, t: Task, s: TaskState)
      requires i < |ring| && ring[i] == t && Circle(ring)
      modifies t`state
      ensures Circle(ring) && Values(ring) == old(Values(ring))[i := old(t.Value()).(state := s)]
    {
      ghost var v := Values(ring);
      t.state := s;
      hide Values;
      forall j | 0 <= j < |ring|
        ensures Values(ring)[j] == v[i := old(t.Value()).(state := s)][j]
      {
        assert Values(ring)[j] == ring[j].Value();
        assert old(Values(ring))[j] == old(ring[j].Value());
      }
    }

    /** A running task goes back to READY; a zombie, blocked or sleeping one stays what it is. */
    method PreemptCurrent()
      requires Circle(ring) && ring[0] == current
      modifies current`state
      ensures Circle(ring) && Values(ring) == Preempted(old(Abs()))
    {
      hide Values;
      assert Values(ring)[0] == current.Value();
      if current.state == Running {
        SetState(0, current, Ready);
      }
    }

    /** schedule: prev and current walk the circle until a runnable task or, after a whole round,
        idle; the switch to the chosen task's page tables and stack is not part of the ring. */
    method Schedule()
      requires Valid()
      modifies this`current, this`end, this`ring, this`endAt, ring
      ensures Valid() && Abs() == Scheduler.Schedule(old(Abs()))
      ensures |ring| == |old(ring)| && idle == old(idle)
    {
      ghost var q, r := Abs(), ring;
      ValidMeans();
      hide *;
      IdleStays(q);
      ScheduleKeepsWf(q);
      WfUnique(q);
      ghost var k := Choose();
      Dispatch(r, k, q);
    }

    lemma ValidMeans()
      requires Valid()
      ensures Circle(ring) && ring[0] == current && idle in ring && idle.pid == IDLE_PID
      ensures Wf(Abs()) && HasIdle(Abs()) && current in ring
    {
      hide Circle, HasIdle;
    }

    /** The traversal of schedule, once the running task counts as ready. */
    method Choose() returns (ghost k: nat)
      requires Circle(ring) && ring[0] == current && idle in ring && idle.pid == IDLE_PID
      requires UniquePids(Preempted(Abs()))
      modifies this`current, current`state
      ensures Circle(ring) && Values(ring) == Preempted(old(Abs()))
      ensures k == Pick(Preempted(old(Abs()))) && k < |ring| && current == ring[k]
    {
      hide Preempted, Find, Pick, UniquePids, Values;
      var prev := current;
      PreemptCurrent();
      k := PickNext(prev, ring);
    }

    /** The end of schedule: `end` follows current, which runs. */
    method Dispatch(ghost r: seq<Task>, ghost k: nat, ghost q: Scheduler.Queue)
      requires Circle(r) && k < |r| && current == r[k] && idle in r && idle.pid == IDLE_PID
      requires HasIdle(q) && Values(r) == Preempted(q) && k == Pick(Preempted(q)) && Wf(Scheduler.Schedule(q))
      modifies this`end, this`ring, this`endAt, current`state
      ensures Valid() && Abs() == Scheduler.Schedule(q) && ring == Rotate(r, k) && |ring| == |r|
    {
      hide Wf, Find, Pick, Alive, Values, HasIdle, Preempted, Rotate, Circle;
      RotatedCircle(r, k);
      ring := Rotate(r, k);
      end, endAt := current, 0;
      assert Values(ring)[0] == current.Value();
      SetState(0, current, Running);
    }

    /** Take the successor of cur out of the circle. */
    method Unlink(cur: Task, ghost at: nat)
      requires Circle(ring) && at + 1 < |ring| && ring[at] == cur
      modifies this`ring, cur
      ensures Circle(ring) && ring == old(ring)[..at + 1] + old(ring)[at + 2..]
      ensures cur.Value() == old(cur.Value())
    {
      ghost var r := ring;
      cur.next := cur.next.next;
      ring := r[..at + 1] + r[at + 2..];
      UnlinkedCircle(r, at, ring);
    }

    /** How far the sweep has come: kept is what is left of the first j tasks. */
    ghost predicate Swept(r: seq<Task>, v: seq<Info>, kept: seq<Task>, j: nat)
      reads this, ring, r, kept
    {
      && 1 <= j <= |r| && |v| == |r| && kept != [] && kept[0] == current && r[0] == current
      && Circle(ring) && ring == kept + r[j..] && Kept(r, kept, j)
      && (forall i {:trigger r[i]} :: 0 <= i < |r| ==> r[i].Value() == v[i])
      && Values(kept) == [v[0]] + Alive(v[1..j])
    }

    /** One round of clean_dead's loop: a dead successor is unlinked, a living one is stepped over. */
    method SweepNext(cur: Task, ghost r: seq<Task>, ghost v: seq<Info>, ghost kept: seq<Task>, ghost j: nat)
      returns (next: Task, ghost kept': seq<Task>)
      requires Swept(r, v, kept, j) && kept[|kept| - 1] == cur && cur.next != current
      modifies this`ring, cur
      ensures j < |r| && Swept(r, v, kept', j + 1) && kept'[|kept'| - 1] == next && current == old(current)
    {
      SweepFacts(cur, r, v, kept, j);
      hide *;
      next, kept' := cur, kept;
      if cur.next.state == Dead {
        SweepDead(cur, r, v, kept, j);
      } else {
        SweepLiving(cur, r, v, kept, j);
        next := cur.next;
        kept' := kept + [next];
      }
    }

    lemma SweepFacts(cur: Task, r: seq<Task>, v: seq<Info>, kept: seq<Task>, j: nat)
      requires Swept(r, v, kept, j) && kept[|kept| - 1] == cur && cur.next != current
      ensures j < |r| && cur.next == r[j] && kept != []
    {
      NextOfKept(ring, kept, r, j);
      hide Values, Circle, Alive, Kept;
    }

    method SweepDead(cur: Task, ghost r: seq<Task>, ghost v: seq<Info>, ghost kept: seq<Task>, ghost j: nat)
      requires Swept(r, v, kept, j) && kept[|kept| - 1] == cur && cur.next != current && j < |r|
      requires cur.next == r[j] && r[j].state == Dead
      modifies this`ring, cur
      ensures Swept(r, v, kept, j + 1) && current == old(current)
    {
      NextOfKept(ring, kept, r, j);
      AliveSnoc(v, j);
      assert r[j].Value() == v[j];
      KeptSkip(r, kept, j);
      hide Values, Circle, Alive, Kept;
      Unlink(cur, |kept| - 1);
      assert forall i {:trigger r[i]} :: 0 <= i < |r| ==> r[i].Value() == v[i];
    }

    lemma SweepLiving(cur: Task, r: seq<Task>, v: seq<Info>, kept: seq<Task>, j: nat)
      requires Swept(r, v, kept, j) && kept[|kept| - 1] == cur && j < |r|
      requires cur.next == r[j] && r[j].state != Dead
      ensures Swept(r, v, kept + [r[j]], j + 1)
    {
      AliveSnoc(v, j);
      assert r[j].Value() == v[j];
      ValuesSnoc(kept, r[j]);
      KeptSnoc(r, kept, j);
      hide Values, Circle, Alive, Kept;
      assert kept + r[j..] == (kept + [r[j]]) + r[j + 1..];
    }

    /** The loop of clean_dead. */
    method Sweep()
      requires Circle(ring) && ring[0] == current
      modifies this`ring, ring
      ensures Circle(ring) && ring[0] == current
      ensures Values(ring) == [old(Values(ring))[0]] + Alive(old(Values(ring))[1..])
      ensures forall u :: u in ring <==> u in old(ring) && (u == current || u.state != Dead)
      ensures forall u :: u in old(ring) ==> u.Value() == old(u.Value())
    {
      ghost var r, v := ring, Values(ring);
      SweepStart();
      hide *;
      var cur: Task := current;
      ghost var kept: seq<Task> := [current];
      ghost var j: nat := 1;
      while cur.next != current
        invariant Swept(r, v, kept, j) && kept[|kept| - 1] == cur && current == old(current)
        decreases |r| - j
      {
        SweptMembers(r, v, kept, j);
        cur, kept := SweepNext(cur, r, v, kept, j);
        j := j + 1;
      }
      SweptAll(r, v, kept, j);
      assert forall i {:trigger r[i]} :: 0 <= i < |r| ==> r[i].Value() == old(r[i].Value());
    }

    lemma SweepStart()
      requires Circle(ring) && ring[0] == current
      ensures Swept(ring, Values(ring), [current], 1)
      ensures forall i {:trigger ring[i]} :: 0 <= i < |ring| ==> Values(ring)[i] == ring[i].Value()
    {
      assert Values(ring)[1..1] == [];
      assert ring == [current] + ring[1..];
    }

    lemma SweptMembers(r: seq<Task>, v: seq<Info>, kept: seq<Task>, j: nat)
      requires Swept(r, v, kept, j)
      ensures j <= |r| && kept != [] && kept[|kept| - 1] in r && (j < |r| || kept[|kept| - 1].next == current)
    {
      hide Values, Alive;
      assert kept[|kept| - 1] in kept;
      assert ring[|kept| - 1] == kept[|kept| - 1];
    }

    lemma SweptAll(r: seq<Task>, v: seq<Info>, kept: seq<Task>, j: nat)
      requires Swept(r, v, kept, j) && kept[|kept| - 1].next == current
      ensures Circle(ring) && ring[0] == current && Values(ring) == [v[0]] + Alive(v[1..])
      ensures forall u :: u in ring <==> u in r && (u == current || u.state != Dead)
      ensures forall i {:trigger r[i]} :: 0 <= i < |r| ==> r[i].Value() == v[i]
    {
      hide Values, Alive;
      LastKept(ring, kept, r, j);
      assert v[1..j] == v[1..];
    }

    /** clean_dead: unlink every dead task behind current. `end` is left alone, so it still names a
        ring member exactly if it named current or a living task. */
    method CleanDead()
      requires Valid()
      modifies this`ring, this`endAt, ring
      ensures Linked() && current == old(current) && idle == old(idle) && end == old(end)
      ensures Values(ring) == [old(Abs()).tasks[0]] + Alive(old(Abs()).tasks[1..])
      ensures end in ring <==> EndSurvives(old(Abs()))
      ensures EndSurvives(old(Abs())) ==> Valid() && Abs() == Clean(old(Abs()))
    {
      hide *;
      ValidParts();
      ghost var q, r := Abs(), ring;
      ValueAt(r, endAt);
      assert end in r;
      SweptWf(q);
      IdleAlive(q, r, idle);
      EndNotFirst(r, endAt);
      EndSurvivesIs(q);
      TaskValue(end);
      TaskValue(idle);
      Sweep();
      TaskValue(end);
      TaskValue(idle);
      ValidParts();
      if EndSurvives(q) {
        CleanIs(q);
        CleanKeepsWf(q);
        EndPosition(ring, end, q);
        endAt := Clean(q).end;
        ValidParts();
      }
    }

    // ----- process calls -----

    /** Write the fields of one task; the values of the ring change at its position only. */
    method SetTask(ghost i: nat, t: Task, v: Info)
      requires i < |ring| && ring[i] == t && Circle(ring) && v.pid == t.pid && v.ppid == t.ppid
      modifies t`state, t`sleep, t`waitPid, t`retVal
      ensures Circle(ring) && Values(ring) == old(Values(ring))[i := v] && t.Value() == v
    {
      ghost var was := Values(ring);
      t.state, t.sleep, t.waitPid, t.retVal := v.state, v.sleep, v.waitPid, v.retVal;
      hide Values;
      forall j | 0 <= j < |ring|
        ensures Values(ring)[j] == was[i := v][j]
      {
        assert Values(ring)[j] == ring[j].Value();
        assert old(Values(ring))[j] == old(ring[j].Value());
      }
    }

    /** find_task_struct: once around the ring, starting at current. */
    method FindTask(pid: int) returns (t: Task?, ghost i: nat)
      requires Circle(ring) && ring[0] == current
      ensures i == Find(Values(ring), pid, 0) <= |ring|
      ensures t == if Find(Values(ring), pid, 0) < |ring| then ring[Find(Values(ring), pid, 0)] else null
    {
      hide Values;
      assert forall k {:trigger ring[k]} :: 0 <= k < |ring| ==> Values(ring)[k] == ring[k].Value();
      var traverse: Task := current;
      i := 0;
      while true
        invariant 0 <= i < |ring| && traverse == ring[i]
        invariant Find(Values(ring), pid, 0) == Find(Values(ring), pid, i)
        decreases |ring| - i
      {
        assert Values(ring)[i] == traverse.Value();
        if traverse.pid == pid {
          return traverse, i;
        }
        traverse := traverse.next;
        i := i + 1;
        if traverse == current {
          assert i == |ring|;
          return null, i;
        }
      }
    }

    /** do_exit: become a zombie, tell and wake the parent, leave. */
    method Exit(status: int)
      requires Valid() && current.pid != IDLE_PID
      modifies this`current, this`end, this`ring, this`endAt, ring
      ensures Wf(Handshake.Exited(old(Abs()), status))
      ensures Valid() && Abs() == Scheduler.Schedule(Handshake.Exited(old(Abs()), status))
    {
      hide *;
      ValidParts();
      ghost var q := Abs();
      ValueAt(ring, 0);
      TaskValue(current);
      Handshake.ExitedWf(q, status);
      WfAnyEnd(Handshake.Exited(q, status));
      SetTask(0, current, Info(current.pid, current.ppid, Zombie, current.sleep, current.waitPid, status));
      TellParent(q, status);
      ValidParts();
      Schedule();
    }

    /** The second half of do_exit. */
    method TellParent(ghost q: Scheduler.Queue, ghost status: int)
      requires Circle(ring) && ring[0] == current && |q.tasks| == |ring| && endAt == q.end
      requires Values(ring) == q.tasks[0 := q.tasks[0].(state := Zombie, retVal := status)]
      modifies ring`state, ring`sleep, ring`waitPid, ring`retVal
      ensures Circle(ring) && ring[0] == current && Abs() == Handshake.Exited(q, status)
    {
      ValueAt(ring, 0);
      TaskValue(current);
      var parent, i := FindTask(current.ppid);
      if parent != null {
        ValueAt(ring, i);
        TaskValue(parent);
        SetTask(i, parent, Info(parent.pid, parent.ppid, if parent.state == Blocked then Ready else parent.state,
                                parent.sleep, current.pid, parent.retVal));
      }
      hide Values, Find, Circle;
    }

    /** do_waitpid as far as the reschedule: block unless the child has already been reported. */
    method BeginWait(pid: int)
      requires Valid() && current.pid != IDLE_PID
      modifies this`current, this`end, this`ring, this`endAt, ring
      ensures Valid() && HasIdle(Handshake.BlockedInWait(old(Abs())))
      ensures Abs() == if old(Abs()).tasks[0].waitPid != pid
                       then Scheduler.Schedule(Handshake.BlockedInWait(old(Abs())))
                       else old(Abs())
    {
      hide *;
      ValidParts();
      ghost var q := Abs();
      ValueAt(ring, 0);
      TaskValue(current);
      BlockedWf(q);
      if current.waitPid != pid {
        SetTask(0, current, Info(current.pid, current.ppid, Blocked, current.sleep, current.waitPid, current.retVal));
        ValidParts();
        Schedule();
      }
    }

    /** The rest of do_waitpid. */
    method Collect(pid: int) returns (found: bool, status: int)
      requires Valid() && pid != IDLE_PID
      modifies ring`state, ring`sleep, ring`waitPid, ring`retVal
      ensures Valid() && Abs() == Handshake.Collect(old(Abs()), pid).0
      ensures found <==> Find(old(Abs()).tasks, pid, 0) < |old(Abs()).tasks|
      ensures found ==> status == Handshake.Collect(old(Abs()), pid).1
    {
      hide *;
      ValidParts();
      ghost var q := Abs();
      CollectWf(q, pid);
      var child, i := FindTask(pid);
      status := 0;
      found := child != null;
      if child != null {
        ValueAt(ring, i);
        TaskValue(child);
        status := child.retVal;
        SetTask(i, child, Info(child.pid, child.ppid, Dead, child.sleep, child.waitPid, child.retVal));
        ValidParts();
      }
    }

    /** do_kill: processes 0 and 1 are spared. */
    method Kill(pid: int) returns (r: int)
      requires Valid()
      modifies ring`state, ring`sleep, ring`waitPid, ring`retVal
      ensures Valid()
      ensures pid > 1 && Find(old(Abs()).tasks, pid, 0) < |old(Abs()).tasks| ==>
                r == 0 && Abs() == Handshake.Collect(old(Abs()), pid).0
      ensures !(pid > 1 && Find(old(Abs()).tasks, pid, 0) < |old(Abs()).tasks|) ==> r == -1 && Abs() == old(Abs())
    {
      if pid > 1 {
        var found, _ := Collect(pid);
        r := if found then 0 else -1;
        CollectMissing(old(Abs()), pid);
        hide Find;
      } else {
        r := -1;
      }
    }

    /** do_sleep. */
    method Sleep(seconds: nat)
      requires Valid() && current.pid != IDLE_PID
      modifies this`current, this`end, this`ring, this`endAt, ring
      ensures Valid() && |old(Abs()).tasks| > 0
      ensures var q := Update(old(Abs()), 0, Timer.Asleep(old(Abs()).tasks[0], seconds));
              Wf(q) && Abs() == Scheduler.Schedule(q)
    {
      hide *;
      ValidParts();
      ghost var q := Abs();
      ValueAt(ring, 0);
      TaskValue(current);
      AsleepWf(q, seconds);
      SetTask(0, current, Info(current.pid, current.ppid, Sleeping, Timer.Milliseconds(seconds), current.waitPid,
                               current.retVal));
      ValidParts();
      Schedule();
    }

    /** sleep_time_decrease: once around the ring. */
    method SleepTimeDecrease()
      requires Valid()
      modifies ring`state, ring`sleep, ring`waitPid, ring`retVal
      ensures Valid() && Abs() == TimerTicks(old(Abs()))
    {
      hide *;
      ValidParts();
      ghost var q := Abs();
      TimerTicksWf(q);
      var traverse: Task := current;
      ghost var i := 0;
      TimerNone(q.tasks);
      while true
        invariant 0 <= i < |ring| && traverse == ring[i] && Circle(ring) && |ring| == |q.tasks|
        invariant Values(ring) == TimerPrefix(q.tasks, i)
        decreases |ring| - i
      {
        TickOne(i, traverse, q.tasks);
        CircleNext(ring, i);
        traverse := traverse.next;
        i := i + 1;
        if traverse == current {
          TimerAll(q.tasks);
          ValidParts();
          return;
        }
      }
    }

    method TickOne(ghost i: nat, t: Task, ghost tasks: seq<Info>)
      requires Circle(ring) && i < |ring| && |tasks| == |ring| && ring[i] == t && Values(ring) == TimerPrefix(tasks, i)
      modifies t`state, t`sleep, t`waitPid, t`retVal
      ensures Circle(ring) && Values(ring) == TimerPrefix(tasks, i + 1)
    {
      ValueAt(ring, i);
      TimerPrefixNext(tasks, i);
      hide Values, Circle, TimerPrefix;
      if t.state == Sleeping && t.sleep < U64 {
        var left := if t.sleep >= PERIOD then t.sleep - PERIOD else t.sleep - PERIOD + U64;
        SetTask(i, t, Info(t.pid, t.ppid, if left <= 0 then Ready else Sleeping, left, t.waitPid, t.retVal));
      }
    }

    /** The loop of schedule. */
    method PickNext(prev: Task, ghost r: seq<Task>) returns (ghost k: nat)
      requires Circle(r) && r[0] == prev == current && idle in r && idle.pid == IDLE_PID && UniquePids(Values(r))
      modifies this`current
      ensures k == Pick(Values(r)) && k < |r| && current == r[k]
    {
      ghost var n := |r|;
      hide Values, UniquePids, Find, Pick, FirstRunnable;
      current := current.next;
      k := 1;
      while current.state != Ready || current.pid == IDLE_PID
        invariant 1 <= k <= n && current == r[if k < n then k else 0] && (k == n ==> n == 1)
        invariant forall i {:trigger r[i]} :: 1 <= i < k ==> !Scheduler.Runnable(r[i].Value())
        decreases n - k
      {
        assert k < n ==> !Scheduler.Runnable(r[k].Value());
        current := current.next;
        k := k + 1;
        if current == prev {
          current := idle;
          k := PickIdle(r, idle);
          return;
        }
      }
      assert k < n;
      PickFirst(r, k);
    }
  }

  lemma PickFirst(r: seq<Task>, k: nat)
    requires 1 <= k < |r| && Scheduler.Runnable(r[k].Value())
    requires forall i {:trigger r[i]} :: 1 <= i < k ==> !Scheduler.Runnable(r[i].Value())
    ensures Pick(Values(r)) == k
  {
    hide Values;
    var v := Values(r);
    assert forall i :: 1 <= i < k ==> v[i] == r[i].Value();
    assert FirstRunnable(v, 1) == k;
  }

  lemma PickIdle(r: seq<Task>, idle: Task) returns (k: nat)
    requires idle in r && idle.pid == IDLE_PID && UniquePids(Values(r))
    requires forall i {:trigger r[i]} :: 1 <= i < |r| ==> !Scheduler.Runnable(r[i].Value())
    ensures k < |r| && r[k] == idle && k == Pick(Values(r))
  {
    hide Values;
    var v := Values(r);
    k :| 0 <= k < |r| && r[k] == idle;
    assert forall i :: 1 <= i < |v| ==> v[i] == r[i].Value();
    assert FirstRunnable(v, 1) == |v|;
    assert v[k].pid == IDLE_PID;
    assert Find(v, IDLE_PID, 0) == k;
  }

  lemma RotatedCircle(r: seq<Task>, k: nat)
    requires Circle(r) && k < |r|
    ensures Circle(Rotate(r, k)) && Rotate(r, k)[0] == r[k] && |Rotate(r, k)| == |r|
    ensures Values(Rotate(r, k)) == Rotate(Values(r), k)
    ensures forall u :: u in Rotate(r, k) <==> u in r
  {
    hide Values;
    var s := Rotate(r, k);
    RotateMembers(r, k);
    forall i | 0 <= i < |s|
      ensures s[i] == r[if i + k < |r| then i + k else i + k - |r|] && s[i].next == s[After(s, i)]
      ensures Values(s)[i] == Rotate(Values(r), k)[i]
    {
      RotateAt(r, k, i);
      RotateAt(r, k, After(s, i));
      RotateAt(Values(r), k, i);
    }
  }

  ghost function Inserted(ring: seq<Task>, at: nat, t: Task): seq<Task>
    requires at < |ring|
  {
    ring[..at + 1] + [t] + ring[at + 1..]
  }

  ghost predicate DistinctTasks(ring: seq<Task>) {
    forall i, j {:trigger ring[i], ring[j]} :: 0 <= i < j < |ring| ==> ring[i] != ring[j]
  }

  /** The position behind i on the circle. */
  ghost function After(ring: seq<Task>, i: nat): nat {
    if i + 1 < |ring| then i + 1 else 0
  }

  /** Linking a new task behind position `at` keeps the circle. */
  lemma InsertedCircle(ring: seq<Task>, at: nat, t: Task)
    requires at < |ring| && t !in ring && DistinctTasks(ring)
    requires forall i {:trigger ring[i].next} :: 0 <= i < |ring| && i != at ==> ring[i].next == ring[After(ring, i)]
    requires ring[at].next == t && t.next == ring[After(ring, at)]
    ensures Circle(Inserted(ring, at, t))
  {
    var r := Inserted(ring, at, t);
    assert forall i {:trigger r[i]} :: 0 <= i < |r| ==>
      r[i] == if i <= at then ring[i] else if i == at + 1 then t else ring[i - 1];
    forall i | 0 <= i < |r| - 1
      ensures r[i].next == r[i + 1]
    {
    }
  }

  lemma AddIs(q: Scheduler.Queue, t: Info)
    requires q.end < |q.tasks|
    ensures Add(q, t) == Scheduler.Queue(q.tasks[..q.end + 1] + [t] + q.tasks[q.end + 1..], q.end + 1)
  {
  }

  lemma InsertedEnds(ring: seq<Task>, at: nat, t: Task)
    requires at < |ring|
    ensures |Inserted(ring, at, t)| == |ring| + 1 && Inserted(ring, at, t)[at + 1] == t
    ensures Inserted(ring, at, t)[0] == ring[0]
    ensures forall u :: u in ring ==> u in Inserted(ring, at, t)
  {
    assert ring == ring[..at + 1] + ring[at + 1..];
  }

  lemma InsertedValues(ring: seq<Task>, at: nat, t: Task)
    requires at < |ring|
    ensures Values(Inserted(ring, at, t)) == Values(ring)[..at + 1] + [t.Value()] + Values(ring)[at + 1..]
  {
    hide Values;
    forall i | 0 <= i < |ring| + 1
      ensures Values(Inserted(ring, at, t))[i] == (Values(ring)[..at + 1] + [t.Value()] + Values(ring)[at + 1..])[i]
    {
      InsertedAt(ring, at, t, i);
    }
  }

  lemma InsertedAt(ring: seq<Task>, at: nat, t: Task, i: nat)
    requires at < |ring| && i <= |ring|
    ensures |Values(Inserted(ring, at, t))| == |ring| + 1 && |Values(ring)| == |ring|
    ensures Values(Inserted(ring, at, t))[i] == (Values(ring)[..at + 1] + [t.Value()] + Values(ring)[at + 1..])[i]
  {
    hide Values;
    var r := Inserted(ring, at, t);
    assert Values(r)[i] == r[i].Value();
    if i <= at {
      assert r[i] == ring[i];
      assert Values(ring)[i] == ring[i].Value();
    } else if i > at + 1 {
      assert r[i] == ring[i - 1];
      assert Values(ring)[i - 1] == ring[i - 1].Value();
    }
  }

  lemma WfUnique(q: Scheduler.Queue)
    requires Wf(q)
    ensures UniquePids(q.tasks) && UniquePids(Preempted(q))
  {
    PreemptedFacts(q);
  }

  lemma WfAnyEnd(q: Scheduler.Queue)
    requires Wf(q)
    ensures Wf(q.(end := 0)) && q.end < |q.tasks| && HasIdle(q)
  {
    hide UniquePids, OnlyCurrentRuns, Find;
  }

  ghost predicate Kept(r: seq<Task>, kept: seq<Task>, j: nat)
    requires 1 <= j <= |r|
    reads r
  {
    && (forall u {:trigger u in kept} :: u in kept ==> u in r[..j] && (u == r[0] || u.state != Dead))
    && (forall u {:trigger u in r[..j]} :: u in r[..j] && (u == r[0] || u.state != Dead) ==> u in kept)
  }

  lemma KeptSkip(r: seq<Task>, kept: seq<Task>, j: nat)
    requires 1 <= j < |r| && Kept(r, kept, j) && r[j].state == Dead && r[j] != r[0]
    ensures Kept(r, kept, j + 1)
  {
    assert r[..j + 1] == r[..j] + [r[j]];
  }

  lemma KeptSnoc(r: seq<Task>, kept: seq<Task>, j: nat)
    requires 1 <= j < |r| && Kept(r, kept, j) && r[j].state != Dead
    ensures Kept(r, kept + [r[j]], j + 1)
  {
    assert r[..j + 1] == r[..j] + [r[j]];
  }

  lemma UnlinkedCircle(r: seq<Task>, at: nat, s: seq<Task>)
    requires at + 1 < |r| && DistinctTasks(r) && s == r[..at + 1] + r[at + 2..]
    requires forall i {:trigger r[i].next} :: 0 <= i < |r| && i != at ==> r[i].next == r[After(r, i)]
    requires r[at].next == r[After(r, at + 1)]
    ensures Circle(s)
  {
    assert forall i {:trigger s[i]} :: 0 <= i < |s| ==> s[i] == if i <= at then r[i] else r[i + 1];
  }

  lemma AliveSnoc(v: seq<Info>, j: nat)
    requires 1 <= j < |v|
    ensures Alive(v[1..j + 1]) == if v[j].state == Dead then Alive(v[1..j]) else Alive(v[1..j]) + [v[j]]
  {
    assert v[1..j + 1] == v[1..j] + [v[j]];
    AliveAppend(v[1..j], [v[j]]);
  }

  lemma ValuesSnoc(kept: seq<Task>, u: Task)
    ensures Values(kept + [u]) == Values(kept) + [u.Value()]
  {
    hide Values;
    assert forall i {:trigger Values(kept + [u])[i]} :: 0 <= i < |kept| + 1 ==>
      Values(kept + [u])[i] == (Values(kept) + [u.Value()])[i];
  }

  /** The circle has only kept tasks left when the last one's successor is current. */
  lemma LastKept(ring: seq<Task>, kept: seq<Task>, r: seq<Task>, j: nat)
    requires Circle(ring) && j <= |r| && kept != [] && ring == kept + r[j..] && kept[|kept| - 1].next == ring[0]
    ensures j == |r| && ring == kept && r[..j] == r
  {
    assert ring[|kept| - 1] == kept[|kept| - 1];
  }

  lemma NextOfKept(ring: seq<Task>, kept: seq<Task>, r: seq<Task>, j: nat)
    requires Circle(ring) && j <= |r| && kept != [] && ring == kept + r[j..] && kept[|kept| - 1].next != ring[0]
    ensures j < |r| && kept[|kept| - 1].next == r[j] && ring[|kept| - 1] == kept[|kept| - 1]
    ensures ring[..|kept|] + ring[|kept| + 1..] == kept + r[j + 1..]
  {
    assert ring[|kept| - 1] == kept[|kept| - 1];
  }

  lemma SweptWf(q: Scheduler.Queue)
    requires Wf(q)
    ensures Wf(Scheduler.Queue([q.tasks[0]] + Alive(q.tasks[1..]), 0))
  {
    WfAnyEnd(q);
    CleanKeepsWf(q.(end := 0));
    assert q.tasks[1..1] == [];
  }

  lemma IdleAlive(q: Scheduler.Queue, ring: seq<Task>, idle: Task)
    requires Wf(q) && q.tasks == Values(ring) && idle in ring && idle.pid == IDLE_PID
    ensures idle.state != Dead
  {
    var i :| 0 <= i < |ring| && ring[i] == idle;
    assert Values(ring)[i] == idle.Value();
    assert Values(ring)[i] in q.tasks;
  }

  lemma EndNotFirst(ring: seq<Task>, at: nat)
    requires DistinctTasks(ring) && at < |ring|
    ensures ring[at] == ring[0] <==> at == 0
  {
  }

  lemma TaskValue(t: Task)
    ensures t.Value() == Info(t.pid, t.ppid, t.state, t.sleep, t.waitPid, t.retVal)
  {
  }

  lemma ValueAt(ring: seq<Task>, i: nat)
    requires i < |ring|
    ensures |Values(ring)| == |ring| && Values(ring)[i] == ring[i].Value() && ring[i].Value().state == ring[i].state
  {
    hide Values;
  }

  lemma EndSurvivesIs(q: Scheduler.Queue)
    ensures EndSurvives(q) <==> q.end < |q.tasks| && (q.end == 0 || q.tasks[q.end].state != Dead)
  {
  }

  lemma CleanIs(q: Scheduler.Queue)
    requires EndSurvives(q)
    ensures Clean(q).tasks == [q.tasks[0]] + Alive(q.tasks[1..])
  {
    hide Alive;
  }

  /** After a sweep that kept it, `end` stands where Clean says. */
  lemma EndPosition(ring: seq<Task>, end: Task, q: Scheduler.Queue)
    requires end in ring && Wf(q) && EndSurvives(q) && Values(ring) == Clean(q).tasks && end.Value() == q.tasks[q.end]
    ensures Clean(q).end < |ring| && ring[Clean(q).end] == end
  {
    CleanKeepsWf(q);
    WfUnique(Clean(q));
    hide Values, Wf, Alive, Find, UniquePids, Clean, EndSurvives;
    PidNamesTask(ring, end, Clean(q).end);
  }

  lemma PidNamesTask(ring: seq<Task>, u: Task, i: nat)
    requires UniquePids(Values(ring)) && u in ring && i < |ring| && Values(ring)[i] == u.Value()
    ensures ring[i] == u
  {
    hide *;
    var k :| 0 <= k < |ring| && ring[k] == u;
    ValueAt(ring, k);
    ValueAt(ring, i);
    SamePid(Values(ring), i, k);
  }

  lemma SamePid(tasks: seq<Info>, i: nat, k: nat)
    requires UniquePids(tasks) && i < |tasks| && k < |tasks| && tasks[i].pid == tasks[k].pid
    ensures i == k
  {
  }

  lemma BlockedWf(q: Scheduler.Queue)
    requires Wf(q) && q.tasks[0].pid != IDLE_PID
    ensures Wf(Handshake.BlockedInWait(q)) && HasIdle(Handshake.BlockedInWait(q))
            && Wf(Handshake.BlockedInWait(q).(end := 0))
    ensures Handshake.BlockedInWait(q) == q.(tasks := q.tasks[0 := q.tasks[0].(state := Blocked)])
  {
    ApplyKeepsWf(q, Change(0, q.tasks[0].(state := Blocked)));
    WfAnyEnd(Handshake.BlockedInWait(q));
    hide Wf, Find, HasIdle;
  }

  lemma AsleepWf(q: Scheduler.Queue, seconds: nat)
    requires Wf(q) && q.tasks[0].pid != IDLE_PID
    ensures var r := Update(q, 0, Timer.Asleep(q.tasks[0], seconds));
            Wf(r) && Wf(r.(end := 0))
              && r == q.(tasks := q.tasks[0 := q.tasks[0].(state := Sleeping, sleep := Timer.Milliseconds(seconds))])
  {
    ApplyKeepsWf(q, Change(0, Timer.Asleep(q.tasks[0], seconds)));
    WfAnyEnd(Update(q, 0, Timer.Asleep(q.tasks[0], seconds)));
    hide Wf, Find, HasIdle;
  }

  lemma CollectWf(q: Scheduler.Queue, pid: int)
    requires Wf(q) && pid != IDLE_PID
    ensures Wf(Handshake.Collect(q, pid).0) && Wf(Handshake.Collect(q, pid).0.(end := 0))
    ensures var i := Find(q.tasks, pid, 0);
            if i == |q.tasks| then Handshake.Collect(q, pid).0 == q
            else Handshake.Collect(q, pid) == (q.(tasks := q.tasks[i := q.tasks[i].(state := Dead)]), q.tasks[i].retVal)
  {
    var i := Find(q.tasks, pid, 0);
    if i < |q.tasks| {
      ApplyKeepsWf(q, Change(i, q.tasks[i].(state := Dead)));
    }
    WfAnyEnd(Handshake.Collect(q, pid).0);
    hide Wf, HasIdle;
  }

  lemma CollectMissing(q: Scheduler.Queue, pid: int)
    ensures Find(q.tasks, pid, 0) == |q.tasks| ==> Handshake.Collect(q, pid).0 == q
    ensures Find(q.tasks, pid, 0) <= |q.tasks|
  {
  }

  // ----- the timer over the whole ring -----

  /** The first i tasks have seen this interrupt. */
  ghost function TimerPrefix(tasks: seq<Info>, i: nat): (r: seq<Info>)
    requires i <= |tasks|
    ensures |r| == |tasks|
    ensures forall k {:trigger r[k]} :: 0 <= k < |r| ==> r[k] == if k < i then TimerTick(tasks[k]) else tasks[k]
  {
    if i == 0 then tasks else TimerPrefix(tasks, i - 1)[i - 1 := TimerTick(tasks[i - 1])]
  }

  lemma TimerNone(tasks: seq<Info>)
    ensures TimerPrefix(tasks, 0) == tasks
  {
  }

  lemma TimerAll(tasks: seq<Info>)
    ensures forall q: Scheduler.Queue {:trigger TimerTicks(q)} :: q.tasks == tasks ==>
              TimerTicks(q) == q.(tasks := TimerPrefix(tasks, |tasks|))
  {
    hide TimerPrefix, TimerTick;
    forall q: Scheduler.Queue | q.tasks == tasks
      ensures TimerTicks(q) == q.(tasks := TimerPrefix(tasks, |tasks|))
    {
      assert TimerTicks(q).tasks == TimerPrefix(tasks, |tasks|);
    }
  }

  lemma TimerPrefixNext(tasks: seq<Info>, i: nat)
    requires i < |tasks|
    ensures TimerPrefix(tasks, i)[i] == tasks[i]
    ensures TimerPrefix(tasks, i + 1) == TimerPrefix(tasks, i)[i := TimerTick(tasks[i])]
  {
  }

  lemma TimerTicksWf(q: Scheduler.Queue)
    requires Wf(q)
    ensures Wf(TimerTicks(q)) && Wf(TimerTicks(q).(end := 0))
  {
    TimerKeepsWf(q);
    WfAnyEnd(TimerTicks(q));
    hide Wf, TimerTicks;
  }

  lemma CircleNext(ring: seq<Task>, i: nat)
    requires Circle(ring) && i < |ring|
    ensures ring[i].next == ring[After(ring, i)] && After(ring, i) == if i + 1 < |ring| then i + 1 else 0
    ensures ring[After(ring, i)] == ring[0] <==> i + 1 == |ring|
  {
  }
}
