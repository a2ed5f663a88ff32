/** waitpid and exit: a parent with one unreaped child gets that child's exit status, whichever of
    the two calls comes first. */
module Handshake {
  import opened Scheduler

  /** The ring and, for the parent, whether it is inside waitpid, past the test of wait_pid. */
  datatype Wait = Wait(q: Queue, waiting: bool)

  predicate Ended(t: Info) {
    t.state == Zombie || t.state == Dead
  }

  // ----- the calls -----

  /** do_exit up to its call of schedule. */
  function Exited(q: Queue, status: int): Queue
    requires |q.tasks| > 0
  {
    var tasks := q.tasks[0 := q.tasks[0].(state := Zombie, retVal := status)];
    var i := Find(tasks, tasks[0].ppid, 0);
    if i == |tasks| then q.(tasks := tasks)
    else
      var woken := if tasks[i].state == Blocked then Ready else tasks[i].state;
      q.(tasks := tasks[i := tasks[i].(waitPid := tasks[0].pid, state := woken)])
  }

  /** do_waitpid up to its call of schedule, if it has to block. */
  function BlockedInWait(q: Queue): Queue
    requires |q.tasks| > 0
  {
    q.(tasks := q.tasks[0 := q.tasks[0].(state := Blocked)])
  }

  /** The rest of do_waitpid: hand out the child's return value and mark it dead. */
  function Collect(q: Queue, pid: int): (Queue, int)
  {
    var i := Find(q.tasks, pid, 0);
    if i == |q.tasks| then (q, 0)
    else (q.(tasks := q.tasks[i := q.tasks[i].(state := Dead)]), q.tasks[i].retVal)
  }

  datatype Call =
    | Yield
    | Fork(t: Info)
    | Sweep
    | Exit(status: int)
    | WaitFor(pid: int)
    | Resume
    | Interrupt
    | Alter(i: nat, t: Info)

  /** Timer interrupts are free, and so are calls by other processes, except that the parent and its child are
      not killed, the parent forks no second child, and the child exits with the status given. */
  ghost predicate Permitted(w: Wait, e: Call, parent: int, child: int, status: int) {
    var q := w.q;
    HasIdle(q) &&
    match e
    case Yield => true
    case Fork(t) => t.ppid != parent && t.pid != child && Allowed(q, Arrive(t))
    case Sweep => EndSurvives(q)
    case Exit(s) =>
      && q.tasks[0].state == Running && q.tasks[0].pid != IDLE_PID && q.tasks[0].pid != parent
      && (q.tasks[0].ppid == parent ==> q.tasks[0].pid == child)
      && (q.tasks[0].pid == child ==> s == status)
    case WaitFor(pid) =>
      q.tasks[0].state == Running && q.tasks[0].pid == parent && pid == child && !w.waiting && !ChildGone(q, child)
    case Resume => q.tasks[0].state == Running && q.tasks[0].pid == parent && w.waiting
    case Interrupt => true
    case Alter(i, t) =>
      && Allowed(q, Change(i, t)) && t.ppid == q.tasks[i].ppid
      && (Ended(q.tasks[i]) ==> Ended(t))
      && (t.pid == child ==> !Ended(t) && !Ended(q.tasks[i]) && t.retVal == q.tasks[i].retVal)
      && (t.pid == parent ==> t.waitPid == q.tasks[i].waitPid && !Ended(t) && t.state != Blocked && !w.waiting)
  }

  ghost function Do(w: Wait, e: Call, child: int): Wait
    requires Wf(w.q)
    requires e.Fork? ==> Allowed(w.q, Arrive(e.t))
    requires e.Sweep? ==> EndSurvives(w.q)
    requires e.Alter? ==> Allowed(w.q, Change(e.i, e.t))
    requires e.Exit? ==> HasIdle(Exited(w.q, e.status))
    requires e.WaitFor? ==> HasIdle(BlockedInWait(w.q))
  {
    match e
    case Yield => w.(q := Schedule(w.q))
    case Fork(t) => w.(q := Add(w.q, t))
    case Sweep => w.(q := Clean(w.q))
    case Exit(status) => w.(q := Schedule(Exited(w.q, status)))
    case WaitFor(pid) =>
      if w.q.tasks[0].waitPid != pid then Wait(Schedule(BlockedInWait(w.q)), true)
      else Wait(w.q, true)
    case Resume => Wait(Collect(w.q, child).0, false)
    case Interrupt => w.(q := TimerTicks(w.q))
    case Alter(i, t) => w.(q := Update(w.q, i, t))
  }

  // ----- the invariant -----

  /** The child is still running. */
  ghost predicate ChildAlive(q: Queue, child: int) {
    exists t :: t in q.tasks && t.pid == child && !Ended(t)
  }

  /** The child has exited and waits to be collected. */
  ghost predicate ChildZombie(q: Queue, child: int, status: int) {
    exists t :: t in q.tasks && t.pid == child && t.state == Zombie && t.retVal == status
  }

  /** The child has been collected. */
  ghost predicate ChildGone(q: Queue, child: int) {
    forall t :: t in q.tasks && t.pid == child ==> t.state == Dead
  }

  ghost predicate ParentIs(q: Queue, parent: int, child: int, waiting: bool, ended: bool, known: bool) {
    exists t :: t in q.tasks && t.pid == parent && !Ended(t)
      && (t.state == Blocked <==> waiting && !ended) && (known ==> (t.waitPid == child <==> ended))
  }

  /** The parent has no second running child; idle is no one's. */
  ghost predicate OtherChildren(q: Queue, parent: int, child: int) {
    forall t {:trigger t in q.tasks} :: t in q.tasks && t.ppid == parent && t.pid != child ==>
        Ended(t) && t.pid != IDLE_PID
  }

  /** Before the exit: a waiting parent is blocked and has not been told. After it: the parent has
      been told and is not blocked. After the collection: the parent is out of waitpid. */
  ghost predicate Synced(w: Wait, parent: int, child: int, status: int) {
    && Wf(w.q) && parent != child && parent != IDLE_PID && child != IDLE_PID
    && OtherChildren(w.q, parent, child)
    && ((ChildAlive(w.q, child) && ChildOf(w.q, child, parent) && ParentIs(w.q, parent, child, w.waiting, false, true))
        || (ChildZombie(w.q, child, status) && ParentIs(w.q, parent, child, w.waiting, true, true))
        || (ChildGone(w.q, child) && !w.waiting && ParentIs(w.q, parent, child, false, true, false)))
  }

  ghost predicate ChildOf(q: Queue, child: int, parent: int) {
    forall t :: t in q.tasks && t.pid == child ==> t.ppid == parent
  }

  /** The phase the invariant is in; the three phases exclude each other. */
  ghost predicate Before(q: Queue, waiting: bool, parent: int, child: int) {
    ChildAlive(q, child) && ChildOf(q, child, parent) && ParentIs(q, parent, child, waiting, false, true)
  }

  ghost predicate After(q: Queue, waiting: bool, parent: int, child: int, status: int) {
    ChildZombie(q, child, status) && ParentIs(q, parent, child, waiting, true, true)
  }

  ghost predicate Over(q: Queue, waiting: bool, parent: int, child: int) {
    ChildGone(q, child) && !waiting && ParentIs(q, parent, child, false, true, false)
  }

  ghost predicate Phases(q: Queue, waiting: bool, parent: int, child: int, status: int) {
    OtherChildren(q, parent, child)
    && (|| Before(q, waiting, parent, child)
        || After(q, waiting, parent, child, status)
        || Over(q, waiting, parent, child))
  }

  // ----- the scheduler moves tasks but keeps what they are -----

  ghost predicate SameTask(u: Info, t: Info) {
    && t.pid == u.pid && t.ppid == u.ppid && t.waitPid == u.waitPid && t.retVal == u.retVal
    && (t.pid == IDLE_PID || t.state == u.state || (t.state in {Ready, Running} && u.state in {Ready, Running}))
  }

  /** Every task of a is still in b. */
  ghost predicate Covers(a: seq<Info>, b: seq<Info>) {
    forall u {:trigger u in a} :: u in a ==> exists t :: t in b && SameTask(u, t)
  }

  ghost predicate SameTasks(a: seq<Info>, b: seq<Info>) {
    Covers(a, b) && Covers(b, a)
  }

  lemma PointwiseCovers(a: seq<Info>, b: seq<Info>)
    requires |a| == |b| && forall i :: 0 <= i < |a| ==> SameTask(a[i], b[i])
    ensures Covers(a, b)
  {
    forall u | u in a
      ensures exists t :: t in b && SameTask(u, t)
    {
      var i :| 0 <= i < |a| && a[i] == u;
      assert b[i] in b && SameTask(u, b[i]);
    }
  }

  lemma PointwiseSame(a: seq<Info>, b: seq<Info>)
    requires |a| == |b| && forall i :: 0 <= i < |a| ==> SameTask(a[i], b[i])
    ensures SameTasks(a, b)
  {
    hide Covers;
    PointwiseCovers(a, b);
    PointwiseCovers(b, a);
  }

  lemma CoversTrans(a: seq<Info>, b: seq<Info>, c: seq<Info>)
    requires Covers(a, b) && Covers(b, c)
    ensures Covers(a, c)
  {
    forall u | u in a
      ensures exists t :: t in c && SameTask(u, t)
    {
      var v :| v in b && SameTask(u, v);
      var t :| t in c && SameTask(v, t);
      assert SameTask(u, t);
    }
  }

  lemma RotateCovers(a: seq<Info>, k: nat)
    requires k <= |a|
    ensures SameTasks(a, Rotate(a, k))
  {
    RotateMembers(a, k);
    hide Rotate;
    assert forall t :: t in a ==> SameTask(t, t);
  }

  lemma ScheduleSame(q: Queue)
    requires Wf(q)
    ensures SameTasks(q.tasks, Schedule(q).tasks)
  {
    var tasks := Preempted(q);
    IdleStays(q);
    var k := Pick(tasks);
    PointwiseSame(q.tasks, tasks);
    RotateCovers(tasks, k);
    RotateAt(tasks, k, 0);
    PointwiseSame(Rotate(tasks, k), Schedule(q).tasks);
    hide Rotate, Pick, Preempted, Covers;
    CoversTrans(q.tasks, tasks, Rotate(tasks, k));
    CoversTrans(q.tasks, Rotate(tasks, k), Schedule(q).tasks);
    CoversTrans(Rotate(tasks, k), tasks, q.tasks);
    CoversTrans(Schedule(q).tasks, Rotate(tasks, k), q.tasks);
  }

  // ----- changes the handshake does not notice -----

  /** The parent keeps what it was told and whether it is blocked, the child its phase and status. */
  ghost predicate Quiet(u: Info, t: Info, parent: int, child: int) {
    && t.pid == u.pid && t.ppid == u.ppid
    && (u.pid == parent ==>
          t.waitPid == u.waitPid && (t.state == Blocked <==> u.state == Blocked) && (Ended(t) <==> Ended(u)))
    && (u.pid == child ==>
          && t.retVal == u.retVal
          && (t.state == Zombie <==> u.state == Zombie) && (t.state == Dead <==> u.state == Dead))
  }

  ghost predicate QuietInto(a: seq<Info>, b: seq<Info>, parent: int, child: int) {
    forall u {:trigger u in a} :: u in a && (u.pid == parent || u.pid == child) ==>
      exists t :: t in b && Quiet(u, t, parent, child)
  }

  lemma CoversQuiet(a: seq<Info>, b: seq<Info>, parent: int, child: int)
    requires Covers(a, b) && parent != IDLE_PID && child != IDLE_PID
    ensures QuietInto(a, b, parent, child)
  {
    forall u | u in a && (u.pid == parent || u.pid == child)
      ensures exists t :: t in b && Quiet(u, t, parent, child)
    {
      var t :| t in b && SameTask(u, t);
      assert Quiet(u, t, parent, child);
    }
  }

  lemma PointwiseQuiet(a: seq<Info>, b: seq<Info>, parent: int, child: int)
    requires |a| == |b| && forall i :: 0 <= i < |a| ==> Quiet(a[i], b[i], parent, child)
    ensures QuietInto(a, b, parent, child) && QuietInto(b, a, parent, child)
  {
    forall u | u in a
      ensures exists t :: t in b && Quiet(u, t, parent, child)
    {
      var i :| 0 <= i < |a| && a[i] == u;
      assert b[i] in b && Quiet(u, b[i], parent, child);
    }
    forall u | u in b
      ensures exists t :: t in a && Quiet(u, t, parent, child)
    {
      var i :| 0 <= i < |b| && b[i] == u;
      assert a[i] in a && Quiet(u, a[i], parent, child);
    }
  }

  lemma AliveMoves(q: Queue, r: Queue, parent: int, child: int)
    requires QuietInto(q.tasks, r.tasks, parent, child) && ChildAlive(q, child)
    ensures ChildAlive(r, child)
  {
    var u :| u in q.tasks && u.pid == child && !Ended(u);
    var t :| t in r.tasks && Quiet(u, t, parent, child);
  }

  lemma ZombieMoves(q: Queue, r: Queue, parent: int, child: int, status: int)
    requires QuietInto(q.tasks, r.tasks, parent, child) && ChildZombie(q, child, status)
    ensures ChildZombie(r, child, status)
  {
    var u :| u in q.tasks && u.pid == child && u.state == Zombie && u.retVal == status;
    var t :| t in r.tasks && Quiet(u, t, parent, child);
  }

  lemma GoneMoves(q: Queue, r: Queue, parent: int, child: int)
    requires QuietInto(r.tasks, q.tasks, parent, child) && ChildGone(q, child)
    ensures ChildGone(r, child)
  {
    forall t | t in r.tasks && t.pid == child
      ensures t.state == Dead
    {
      var u :| u in q.tasks && Quiet(t, u, parent, child);
    }
  }

  lemma ChildOfMoves(q: Queue, r: Queue, parent: int, child: int)
    requires QuietInto(r.tasks, q.tasks, parent, child) && ChildOf(q, child, parent)
    ensures ChildOf(r, child, parent)
  {
    forall t | t in r.tasks && t.pid == child
      ensures t.ppid == parent
    {
      var u :| u in q.tasks && Quiet(t, u, parent, child);
    }
  }

  lemma ParentMoves(q: Queue, r: Queue, parent: int, child: int, waiting: bool, ended: bool, known: bool)
    requires QuietInto(q.tasks, r.tasks, parent, child) && ParentIs(q, parent, child, waiting, ended, known)
    ensures ParentIs(r, parent, child, waiting, ended, known)
  {
    var u :| u in q.tasks && u.pid == parent && !Ended(u)
             && (u.state == Blocked <==> waiting && !ended) && (known ==> (u.waitPid == child <==> ended));
    var t :| t in r.tasks && Quiet(u, t, parent, child);
  }

  lemma QuietPhases(q: Queue, r: Queue, waiting: bool, parent: int, child: int, status: int)
    requires Phases(q, waiting, parent, child, status) && OtherChildren(r, parent, child)
    requires QuietInto(q.tasks, r.tasks, parent, child) && QuietInto(r.tasks, q.tasks, parent, child)
    ensures Phases(r, waiting, parent, child, status)
  {
    hide ParentIs, ChildGone, ChildOf, ChildAlive, ChildZombie, OtherChildren, QuietInto;
    if Before(q, waiting, parent, child) {
      AliveMoves(q, r, parent, child);
      ChildOfMoves(q, r, parent, child);
      ParentMoves(q, r, parent, child, waiting, false, true);
    } else if After(q, waiting, parent, child, status) {
      ZombieMoves(q, r, parent, child, status);
      ParentMoves(q, r, parent, child, waiting, true, true);
    } else {
      GoneMoves(q, r, parent, child);
      ParentMoves(q, r, parent, child, false, true, false);
    }
  }

  lemma OthersMove(q: Queue, r: Queue, parent: int, child: int)
    requires Covers(r.tasks, q.tasks) && OtherChildren(q, parent, child)
    ensures OtherChildren(r, parent, child)
  {
    forall t | t in r.tasks && t.ppid == parent && t.pid != child
      ensures Ended(t) && t.pid != IDLE_PID
    {
      var u :| u in q.tasks && SameTask(t, u);
    }
  }

  /** The phases do not depend on the order of the ring or on which ready task runs. */
  lemma SchedulePhases(q: Queue, waiting: bool, parent: int, child: int, status: int)
    requires Wf(q) && parent != IDLE_PID && child != IDLE_PID && Phases(q, waiting, parent, child, status)
    ensures Phases(Schedule(q), waiting, parent, child, status)
  {
    var r := Schedule(q);
    ScheduleSame(q);
    hide Schedule, Wf, Covers, OtherChildren, Before, After, Over;
    OthersMove(q, r, parent, child);
    CoversQuiet(q.tasks, r.tasks, parent, child);
    CoversQuiet(r.tasks, q.tasks, parent, child);
    QuietPhases(q, r, waiting, parent, child, status);
  }

  // ----- each call -----

  lemma WfFind(q: Queue, t: Info, i: nat)
    requires UniquePids(q.tasks) && i < |q.tasks| && q.tasks[i] == t
    ensures Find(q.tasks, t.pid, 0) == i
    ensures forall u :: u in q.tasks && u.pid == t.pid ==> u == t
  {
  }

  lemma ExitedWf(q: Queue, status: int)
    requires Wf(q) && q.tasks[0].pid != IDLE_PID
    ensures Wf(Exited(q, status)) && |Exited(q, status).tasks| == |q.tasks|
    ensures forall i {:trigger Exited(q, status).tasks[i]} :: 0 <= i < |q.tasks| ==>
              Exited(q, status).tasks[i] == ExitEffect(q, status, i)
  {
    ExitedTasks(q, status);
    var r := Exited(q, status);
    var d := Find(q.tasks, IDLE_PID, 0);
    assert q.tasks[d] in q.tasks;
    hide Exited;
    assert r.tasks[d].pid == IDLE_PID;
    assert forall t :: t in r.tasks ==> exists j :: 0 <= j < |q.tasks| && r.tasks[j] == t;
  }

  lemma ExitedTasks(q: Queue, status: int)
    requires Wf(q) && q.tasks[0].pid != IDLE_PID
    ensures Exited(q, status).end == q.end && |Exited(q, status).tasks| == |q.tasks|
    ensures forall i {:trigger Exited(q, status).tasks[i]} :: 0 <= i < |q.tasks| ==>
              Exited(q, status).tasks[i] == ExitEffect(q, status, i)
  {
    var r := Exited(q, status);
    var z := q.tasks[0 := q.tasks[0].(state := Zombie, retVal := status)];
    var i := Find(z, q.tasks[0].ppid, 0);
    forall j | 0 <= j < |q.tasks|
      ensures r.tasks[j] == ExitEffect(q, status, j)
    {
      assert z[j].pid == q.tasks[j].pid;
      if i < |z| && z[j].pid == z[i].pid {
        assert q.tasks[j].pid == q.tasks[i].pid;
      }
    }
  }

  /** What do_exit does to the task at position i: current ends, its parent is told and woken. */
  function ExitEffect(q: Queue, status: int, i: nat): Info
    requires i < |q.tasks|
  {
    var t := if i == 0 then q.tasks[0].(state := Zombie, retVal := status) else q.tasks[i];
    if t.pid == q.tasks[0].ppid then
      t.(waitPid := q.tasks[0].pid, state := if t.state == Blocked then Ready else t.state)
    else t
  }

  /** do_exit in its effect on each task: the caller becomes a zombie with its status and keeps its other
      fields; its parent learns the caller's pid, and if it is BLOCKED, and only then, becomes READY, any
      other state kept; every other task keeps every field. */
  lemma ExitSparesOthers(q: Queue, status: int, i: nat)
    requires Wf(q) && q.tasks[0].pid != IDLE_PID && q.tasks[0].ppid != q.tasks[0].pid && i < |q.tasks|
    ensures |Exited(q, status).tasks| == |q.tasks|
    ensures var c, t, u := q.tasks[0], q.tasks[i], Exited(q, status).tasks[i];
            if i == 0 then u == Info(c.pid, c.ppid, Zombie, c.sleep, c.waitPid, status)
            else if t.pid != c.ppid then u == t
            else u == Info(t.pid, t.ppid, if t.state == Blocked then Ready else t.state, t.sleep, c.pid, t.retVal)
  {
    ExitedTasks(q, status);
    hide Exited, Wf;
    assert Exited(q, status).tasks[i] == ExitEffect(q, status, i);
  }

  /** waitpid, the collection of a child, and kill, in their effect on each task: the caller blocks, or the
      task with the pid becomes DEAD and its return value is handed out; the rest stays. */
  lemma WaitSparesOthers(q: Queue, pid: int, i: nat)
    requires Wf(q) && i < |q.tasks|
    ensures |BlockedInWait(q).tasks| == |q.tasks| && |Collect(q, pid).0.tasks| == |q.tasks|
    ensures var t, u := q.tasks[i], BlockedInWait(q).tasks[i];
            u == Info(t.pid, t.ppid, if i == 0 then Blocked else t.state, t.sleep, t.waitPid, t.retVal)
    ensures var t, u := q.tasks[i], Collect(q, pid).0.tasks[i];
            && u == Info(t.pid, t.ppid, if t.pid == pid then Dead else t.state, t.sleep, t.waitPid, t.retVal)
            && (t.pid == pid ==> Collect(q, pid).1 == t.retVal)
  {
    if q.tasks[i].pid == pid {
      WfFind(q, q.tasks[i], i);
    }
  }

  lemma SyncedIsPhases(w: Wait, parent: int, child: int, status: int)
    ensures Synced(w, parent, child, status) <==>
              Wf(w.q) && parent != child && parent != IDLE_PID && child != IDLE_PID
              && Phases(w.q, w.waiting, parent, child, status)
  {
    hide OtherChildren, ChildAlive, ChildZombie, ChildGone, ParentIs, ChildOf, Wf;
  }

  lemma ForkPhases(q: Queue, t: Info, waiting: bool, parent: int, child: int, status: int)
    requires Wf(q) && Allowed(q, Arrive(t)) && t.ppid != parent && t.pid != child
             && Phases(q, waiting, parent, child, status)
    ensures Phases(Add(q, t), waiting, parent, child, status)
  {
    AddMembers(q, t);
    hide Add, Wf, Find;
  }

  lemma AddMembers(q: Queue, t: Info)
    requires q.end < |q.tasks|
    ensures forall u {:trigger u in Add(q, t).tasks} {:trigger u in q.tasks} :: u in Add(q, t).tasks <==>
              u == t || u in q.tasks
  {
    assert q.tasks == q.tasks[..q.end + 1] + q.tasks[q.end + 1..];
  }

  lemma SweepPhases(q: Queue, waiting: bool, parent: int, child: int, status: int)
    requires EndSurvives(q) && Phases(q, waiting, parent, child, status)
    ensures Phases(Clean(q), waiting, parent, child, status)
  {
    assert q.tasks[0] in q.tasks;
    hide Clean, ParentIs, ChildZombie, ChildAlive, Ended;
    CleanMembers(q);
    hide EndSurvives;
    var r := Clean(q);
    SurvivorsStay(q, r, waiting, parent, child, status);
  }

  lemma SurvivorsStay(q: Queue, r: Queue, waiting: bool, parent: int, child: int, status: int)
    requires forall t {:trigger t in q.tasks} :: t in q.tasks && t.state != Dead ==> t in r.tasks
    ensures ChildAlive(q, child) ==> ChildAlive(r, child)
    ensures ChildZombie(q, child, status) ==> ChildZombie(r, child, status)
    ensures ParentIs(q, parent, child, waiting, false, true) ==> ParentIs(r, parent, child, waiting, false, true)
    ensures ParentIs(q, parent, child, waiting, true, true) ==> ParentIs(r, parent, child, waiting, true, true)
    ensures ParentIs(q, parent, child, false, true, false) ==> ParentIs(r, parent, child, false, true, false)
  {
  }

  /** Unique tasks: what one task with a pid is, the task with that pid is. */
  lemma TheTask(q: Queue, t: Info, i: nat)
    requires UniquePids(q.tasks) && t in q.tasks && i < |q.tasks| && q.tasks[i].pid == t.pid
    ensures q.tasks[i] == t
  {
  }

  lemma ExitOthers(q: Queue, s: int, parent: int, child: int)
    requires Wf(q) && q.tasks[0].pid != IDLE_PID && OtherChildren(q, parent, child)
    ensures OtherChildren(Exited(q, s), parent, child)
  {
    ExitedWf(q, s);
    var r := Exited(q, s);
    hide Exited, Wf, UniquePids;
    forall t | t in r.tasks && t.ppid == parent && t.pid != child
      ensures Ended(t) && t.pid != IDLE_PID
    {
      var j :| 0 <= j < |q.tasks| && r.tasks[j] == t;
      assert q.tasks[j] in q.tasks;
    }
  }

  /** The child's exit: it becomes a zombie with its status and the parent is told, blocked or not. */
  lemma ChildExits(q: Queue, s: int, waiting: bool, parent: int, child: int)
    requires Wf(q) && q.tasks[0].pid == child && child != IDLE_PID && parent != child && parent != IDLE_PID
    requires Before(q, waiting, parent, child)
    ensures After(Exited(q, s), waiting, parent, child, s)
  {
    ExitedWf(q, s);
    hide Wf, UniquePids, Exited;
    var r := Exited(q, s);
    assert q.tasks[0] in q.tasks && q.tasks[0].ppid == parent;
    assert r.tasks[0] == ExitEffect(q, s, 0) && r.tasks[0] in r.tasks;
    var p :| p in q.tasks && p.pid == parent && !Ended(p);
    var i :| 0 <= i < |q.tasks| && q.tasks[i] == p;
    assert r.tasks[i] == ExitEffect(q, s, i) && r.tasks[i] in r.tasks;
    ParentTold(r, r.tasks[i], waiting, child);
  }

  lemma ParentTold(r: Queue, t: Info, waiting: bool, child: int)
    requires t in r.tasks && !Ended(t) && t.state != Blocked && t.waitPid == child
    ensures ParentIs(r, t.pid, child, waiting, true, true)
  {
  }

  lemma ExitIsQuiet(q: Queue, s: int, i: nat, parent: int, child: int)
    requires i < |q.tasks| && UniquePids(q.tasks)
    requires q.tasks[0].pid != child && q.tasks[0].pid != parent && q.tasks[0].ppid != parent
    ensures Quiet(q.tasks[i], ExitEffect(q, s, i), parent, child)
  {
    hide UniquePids;
  }

  /** Another process exits: the child stays in its phase, the parent is not touched. */
  lemma OtherExits(q: Queue, s: int, waiting: bool, parent: int, child: int, status: int)
    requires Wf(q) && q.tasks[0].pid != child && q.tasks[0].pid != parent && q.tasks[0].pid != IDLE_PID
             && q.tasks[0].ppid != parent
    requires Phases(q, waiting, parent, child, status)
    ensures Phases(Exited(q, s), waiting, parent, child, status)
  {
    assert |q.tasks| > 0 && UniquePids(q.tasks);
    hide Exited, Wf, UniquePids, OtherChildren, Before, After, Over, QuietInto, Quiet, Phases;
    ExitOthers(q, s, parent, child);
    ExitedWf(q, s);
    var r := Exited(q, s);
    forall i | 0 <= i < |q.tasks|
      ensures Quiet(q.tasks[i], r.tasks[i], parent, child)
    {
      ExitIsQuiet(q, s, i, parent, child);
      assert r.tasks[i] == ExitEffect(q, s, i);
    }
    hide ExitEffect;
    PointwiseQuiet(q.tasks, r.tasks, parent, child);
    QuietPhases(q, r, waiting, parent, child, status);
  }

  /** A process that is neither of the two, or the parent outside waitpid, or the running child,
      changes its own fields. */
  lemma AlterPhases(q: Queue, i: nat, t: Info, waiting: bool, parent: int, child: int, status: int)
    requires Wf(q) && Phases(q, waiting, parent, child, status)
             && Permitted(Wait(q, waiting), Alter(i, t), parent, child, status)
    ensures Phases(Update(q, i, t), waiting, parent, child, status)
  {
    var r := Update(q, i, t);
    AlterOthers(q, i, t, parent, child);
    if t.pid == parent {
      ParentNotBlocked(q, i, waiting, parent, child, status);
    }
    hide Wf, OtherChildren, Before, After, Over;
    forall j | 0 <= j < |q.tasks|
      ensures Quiet(q.tasks[j], r.tasks[j], parent, child)
    {
    }
    PointwiseQuiet(q.tasks, r.tasks, parent, child);
    QuietPhases(q, r, waiting, parent, child, status);
  }

  /** No timer interrupt blocks or unblocks a parent, ends a child or brings one back. */
  lemma InterruptPhases(q: Queue, waiting: bool, parent: int, child: int, status: int)
    requires Wf(q) && Phases(q, waiting, parent, child, status)
    ensures Phases(TimerTicks(q), waiting, parent, child, status)
  {
    var r := TimerTicks(q);
    assert OtherChildren(q, parent, child);
    hide Wf, Before, After, Over;
    forall i | 0 <= i < |q.tasks|
      ensures Quiet(q.tasks[i], r.tasks[i], parent, child) && (Ended(q.tasks[i]) ==> r.tasks[i] == q.tasks[i])
    {
      TimerSparesOthers(q, i);
    }
    InterruptOthers(q, parent, child);
    hide TimerTicks, TimerTick, OtherChildren;
    PointwiseQuiet(q.tasks, r.tasks, parent, child);
    QuietPhases(q, r, waiting, parent, child, status);
  }

  lemma InterruptOthers(q: Queue, parent: int, child: int)
    requires OtherChildren(q, parent, child)
    ensures OtherChildren(TimerTicks(q), parent, child)
  {
    var r := TimerTicks(q);
    forall u | u in r.tasks && u.ppid == parent && u.pid != child
      ensures Ended(u) && u.pid != IDLE_PID
    {
      var j :| 0 <= j < |r.tasks| && r.tasks[j] == u;
      TimerSparesOthers(q, j);
      assert q.tasks[j] in q.tasks;
    }
  }

  lemma AlterOthers(q: Queue, i: nat, t: Info, parent: int, child: int)
    requires i < |q.tasks| && OtherChildren(q, parent, child) && t.pid == q.tasks[i].pid && t.ppid == q.tasks[i].ppid
    requires Ended(q.tasks[i]) ==> Ended(t)
    ensures OtherChildren(Update(q, i, t), parent, child)
  {
    var r := Update(q, i, t);
    forall u | u in r.tasks && u.ppid == parent && u.pid != child
      ensures Ended(u) && u.pid != IDLE_PID
    {
      var j :| 0 <= j < |r.tasks| && r.tasks[j] == u;
      assert q.tasks[j] in q.tasks;
    }
  }

  lemma ParentNotBlocked(q: Queue, i: nat, waiting: bool, parent: int, child: int, status: int)
    requires Wf(q) && Phases(q, waiting, parent, child, status) && i < |q.tasks| && q.tasks[i].pid == parent && !waiting
    ensures q.tasks[i].state != Blocked && !Ended(q.tasks[i])
  {
    var ended, known :| ParentIs(q, parent, child, false, ended, known);
    var p :| p in q.tasks && p.pid == parent && !Ended(p) && (p.state == Blocked <==> false && !ended);
    TheTask(q, p, i);
  }

  /** waitpid that has to block: the child has not exited, so the parent is left blocked and untold. */
  lemma WaitBlocks(q: Queue, parent: int, child: int, status: int)
    requires Wf(q) && q.tasks[0].pid == parent && parent != child && parent != IDLE_PID && child != IDLE_PID
    requires Phases(q, false, parent, child, status) && !ChildGone(q, child)
    ensures q.tasks[0].waitPid != child ==>
              Wf(BlockedInWait(q)) && Phases(BlockedInWait(q), true, parent, child, status)
    ensures q.tasks[0].waitPid == child ==> Phases(q, true, parent, child, status)
  {
    assert q.tasks[0] in q.tasks;
    ParentNotBlocked(q, 0, false, parent, child, status);
    if Before(q, false, parent, child) {
      BlockBefore(q, parent, child);
    } else {
      var p :| p in q.tasks && p.pid == parent && p.waitPid == child && p.state != Blocked && !Ended(p);
      TheTask(q, p, 0);
      assert ParentIs(q, parent, child, true, true, true);
    }
  }

  lemma BlockBefore(q: Queue, parent: int, child: int)
    requires Wf(q) && q.tasks[0].pid == parent && parent != child && parent != IDLE_PID
    requires Before(q, false, parent, child) && OtherChildren(q, parent, child) && !Ended(q.tasks[0])
    ensures q.tasks[0].waitPid != child && Wf(BlockedInWait(q))
    ensures Before(BlockedInWait(q), true, parent, child) && OtherChildren(BlockedInWait(q), parent, child)
  {
    assert UniquePids(q.tasks);
    hide Find, UniquePids;
    var r := BlockedInWait(q);
    var p :| p in q.tasks && p.pid == parent && p.waitPid != child;
    TheTask(q, p, 0);
    assert r == Update(q, 0, q.tasks[0].(state := Blocked));
    AlterOthers(q, 0, q.tasks[0].(state := Blocked), parent, child);
    ApplyKeepsWf(q, Change(0, q.tasks[0].(state := Blocked)));
    var c :| c in q.tasks && c.pid == child && !Ended(c);
    var j :| 0 <= j < |q.tasks| && q.tasks[j] == c;
    assert r.tasks[j] == c && r.tasks[0] in r.tasks && r.tasks[0].pid == parent;
    forall t | t in r.tasks && t.pid == child
      ensures t.ppid == parent
    {
      assert t in q.tasks;
    }
  }

  /** The resumed parent finds the child a zombie, hands out its status and marks it dead. */
  lemma ResumeCollects(q: Queue, parent: int, child: int, status: int)
    requires Wf(q) && q.tasks[0].pid == parent && q.tasks[0].state == Running && parent != child && child != IDLE_PID
    requires Phases(q, true, parent, child, status)
    ensures After(q, true, parent, child, status)
    ensures var (r, got) := Collect(q, child); got == status && Wf(r) && Phases(r, false, parent, child, status)
  {
    assert UniquePids(q.tasks) && OtherChildren(q, parent, child);
    hide Wf, UniquePids, Find, OtherChildren;
    assert q.tasks[0] in q.tasks;
    forall p | p in q.tasks && p.pid == parent
      ensures p == q.tasks[0]
    {
      TheTask(q, p, 0);
    }
    var c :| c in q.tasks && c.pid == child && c.state == Zombie && c.retVal == status;
    var j :| 0 <= j < |q.tasks| && q.tasks[j] == c;
    WfFind(q, c, j);
    assert Collect(q, child) == (Update(q, j, c.(state := Dead)), status);
    hide *;
    CollectedPhases(q, j, c, parent, status);
  }

  lemma CollectedPhases(q: Queue, i: nat, c: Info, parent: int, status: int)
    requires Wf(q) && q.tasks[0].pid == parent && q.tasks[0].state == Running && parent != c.pid && c.pid != IDLE_PID
    requires i < |q.tasks| && q.tasks[i] == c && c.state == Zombie && OtherChildren(q, parent, c.pid)
    ensures var r := Update(q, i, c.(state := Dead)); Wf(r) && Phases(r, false, parent, c.pid, status)
  {
    var r := Update(q, i, c.(state := Dead));
    AlterOthers(q, i, c.(state := Dead), parent, c.pid);
    ApplyKeepsWf(q, Change(i, c.(state := Dead)));
    assert UniquePids(q.tasks);
    hide Wf, UniquePids, Find, OtherChildren;
    DeadIsGone(q, i, c);
    ParentFree(r, c.pid);
  }

  lemma DeadIsGone(q: Queue, i: nat, c: Info)
    requires UniquePids(q.tasks) && i < |q.tasks| && q.tasks[i] == c
    ensures ChildGone(Update(q, i, c.(state := Dead)), c.pid)
  {
    var r := Update(q, i, c.(state := Dead));
    forall t | t in r.tasks && t.pid == c.pid
      ensures t.state == Dead
    {
      var k :| 0 <= k < |r.tasks| && r.tasks[k] == t;
      assert q.tasks[k].pid == c.pid;
    }
  }

  /** A parent that runs is out of waitpid. */
  lemma ParentFree(r: Queue, child: int)
    requires r.tasks != [] && r.tasks[0].state == Running
    ensures ParentIs(r, r.tasks[0].pid, child, false, true, false)
  {
    assert r.tasks[0] in r.tasks;
  }

  lemma StepKeepsSynced(w: Wait, e: Call, parent: int, child: int, status: int)
    requires Synced(w, parent, child, status) && Permitted(w, e, parent, child, status)
    ensures (e.Exit? ==> HasIdle(Exited(w.q, e.status))) && (e.WaitFor? ==> HasIdle(BlockedInWait(w.q)))
    ensures Synced(Do(w, e, child), parent, child, status)
  {
    var q := w.q;
    hide Phases, Wf, Exited, Schedule, Add, Clean, Collect, Update, BlockedInWait, Allowed, TimerTicks;
    SyncedIsPhases(w, parent, child, status);
    StepParts(w, e, parent, child, status);
    SyncedIsPhases(Do(w, e, child), parent, child, status);
  }

  lemma StepParts(w: Wait, e: Call, parent: int, child: int, status: int)
    requires Wf(w.q) && parent != child && parent != IDLE_PID && child != IDLE_PID
    requires Phases(w.q, w.waiting, parent, child, status) && Permitted(w, e, parent, child, status)
    ensures (e.Exit? ==> HasIdle(Exited(w.q, e.status))) && (e.WaitFor? ==> HasIdle(BlockedInWait(w.q)))
    ensures Wf(Do(w, e, child).q) && Phases(Do(w, e, child).q, Do(w, e, child).waiting, parent, child, status)
  {
    var q := w.q;
    hide Phases, Exited, Schedule, Add, Clean, Collect, Update, BlockedInWait, Find, UniquePids, TimerTicks;
    match e {
      case Yield =>
        SchedulePhases(q, w.waiting, parent, child, status);
        ScheduleKeepsWf(q);
      case Fork(t) =>
        ForkPhases(q, t, w.waiting, parent, child, status);
        AddKeepsWf(q, t);
      case Sweep =>
        SweepPhases(q, w.waiting, parent, child, status);
        CleanKeepsWf(q);
      case Exit(s) =>
        ExitPhases(q, s, w.waiting, parent, child, status);
        SchedulePhases(Exited(q, s), w.waiting, parent, child, status);
        ScheduleKeepsWf(Exited(q, s));
      case WaitFor(pid) =>
        WaitPhases(q, parent, child, status);
      case Resume =>
        ResumeCollects(q, parent, child, status);
      case Interrupt =>
        InterruptPhases(q, w.waiting, parent, child, status);
        TimerKeepsWf(q);
      case Alter(i, t) =>
        AlterPhases(q, i, t, w.waiting, parent, child, status);
        ApplyKeepsWf(q, Change(i, t));
    }
  }

  lemma ExitPhases(q: Queue, s: int, waiting: bool, parent: int, child: int, status: int)
    requires Wf(q) && parent != child && parent != IDLE_PID && child != IDLE_PID
    requires Phases(q, waiting, parent, child, status) && Permitted(Wait(q, waiting), Exit(s), parent, child, status)
    ensures Wf(Exited(q, s)) && Phases(Exited(q, s), waiting, parent, child, status)
  {
    ExitedWf(q, s);
    ExitOthers(q, s, parent, child);
    if q.tasks[0].pid == child {
      RunningChildIsBefore(q, waiting, parent, child, status);
      ChildExits(q, s, waiting, parent, child);
    } else {
      OtherExits(q, s, waiting, parent, child, status);
    }
    hide OtherChildren, Before, Over, Exited;
  }

  lemma RunningChildIsBefore(q: Queue, waiting: bool, parent: int, child: int, status: int)
    requires Wf(q) && q.tasks[0].pid == child && q.tasks[0].state == Running
             && Phases(q, waiting, parent, child, status)
    ensures Before(q, waiting, parent, child)
  {
    assert q.tasks[0] in q.tasks;
    forall c | c in q.tasks && c.pid == child
      ensures c == q.tasks[0]
    {
      TheTask(q, c, 0);
    }
  }

  lemma WaitPhases(q: Queue, parent: int, child: int, status: int)
    requires Wf(q) && parent != child && parent != IDLE_PID && child != IDLE_PID
    requires Phases(q, false, parent, child, status) && Permitted(Wait(q, false), WaitFor(child), parent, child, status)
    ensures HasIdle(BlockedInWait(q))
    ensures var r := Do(Wait(q, false), WaitFor(child), child).q; Wf(r) && Phases(r, true, parent, child, status)
  {
    WaitBlocks(q, parent, child, status);
    BlockedHasIdle(q);
    hide Phases, Schedule, BlockedInWait, Find, UniquePids;
    if q.tasks[0].waitPid != child {
      SchedulePhases(BlockedInWait(q), true, parent, child, status);
      ScheduleKeepsWf(BlockedInWait(q));
    }
  }

  lemma BlockedHasIdle(q: Queue)
    requires HasIdle(q)
    ensures HasIdle(BlockedInWait(q))
  {
    var d := Find(q.tasks, IDLE_PID, 0);
    assert BlockedInWait(q).tasks[d].pid == IDLE_PID;
  }

  // ----- one child after another -----

  /** A parent without a running child is ready for the next one: as after the last child was collected. */
  lemma ChildlessIsSynced(q: Queue, parent: int, child: int, status: int)
    requires Wf(q) && parent != child && parent != IDLE_PID && child != IDLE_PID
    requires exists p :: p in q.tasks && p.pid == parent && !Ended(p) && p.state != Blocked
    requires forall t :: t in q.tasks && t.ppid == parent ==> Ended(t) && t.pid != IDLE_PID
    requires forall t :: t in q.tasks ==> t.pid != child
    ensures Synced(Wait(q, false), parent, child, status)
  {
    assert OtherChildren(q, parent, child) && ChildGone(q, child);
    assert ParentIs(q, parent, child, false, true, false);
    hide Wf;
  }

  /** The running parent, outside waitpid and with its last child collected, forks again. */
  ghost predicate MayFork(w: Wait, t: Info, parent: int, child: int) {
    && HasIdle(w.q) && w.q.tasks[0].pid == parent && w.q.tasks[0].state == Running && !w.waiting
      && ChildGone(w.q, child)
    && Allowed(w.q, Arrive(t)) && t.ppid == parent && !Ended(t)
    // pids are not reused, so the new one is not that of the child the parent was last told about
    && t.pid != w.q.tasks[0].waitPid
  }

  /** Fork begins the next round of the handshake. */
  lemma ForkSyncs(w: Wait, t: Info, parent: int, child: int, status: int, status': int)
    requires Synced(w, parent, child, status) && MayFork(w, t, parent, child)
    ensures Synced(Wait(Add(w.q, t), false), parent, t.pid, status')
  {
    var q, r := w.q, Add(w.q, t);
    AddMembers(q, t);
    AddKeepsWf(q, t);
    assert q.tasks[0] in q.tasks;
    SyncedIsPhases(w, parent, child, status);
    ParentNotBlocked(q, 0, false, parent, child, status);
    NewPid(q, t, parent);
    hide Add, Wf, Find, UniquePids;
    assert ChildAlive(r, t.pid) && ChildOf(r, t.pid, parent);
    assert ParentIs(r, parent, t.pid, false, false, true);
    OthersEnded(q, r, t, parent, child);
  }

  lemma NewPid(q: Queue, t: Info, parent: int)
    requires Wf(q) && q.tasks[0].pid == parent && forall u :: u in q.tasks ==> u.pid != t.pid
    ensures t.pid != parent && t.pid != IDLE_PID
  {
    assert q.tasks[0] in q.tasks;
    var d := Find(q.tasks, IDLE_PID, 0);
    assert q.tasks[d] in q.tasks;
  }

  lemma OthersEnded(q: Queue, r: Queue, t: Info, parent: int, child: int)
    requires OtherChildren(q, parent, child) && ChildGone(q, child) && child != IDLE_PID
    requires forall u :: u in r.tasks <==> u == t || u in q.tasks
    ensures OtherChildren(r, parent, t.pid)
  {
  }

  // ----- whole runs -----

  /** The system with the parent's present child and the status that child will exit with. */
  datatype Family = Family(w: Wait, child: int, status: int)

  datatype Act = Other(e: Call) | NewChild(t: Info, status: int)

  ghost predicate Possible(f: Family, a: Act, parent: int) {
    match a
    case Other(e) => Permitted(f.w, e, parent, f.child, f.status)
    case NewChild(t, _) => MayFork(f.w, t, parent, f.child)
  }

  lemma ActKeepsSynced(f: Family, a: Act, parent: int)
    requires Synced(f.w, parent, f.child, f.status) && Possible(f, a, parent)
    ensures a.NewChild? ==> f.w.q.end < |f.w.q.tasks|
    ensures a.Other? ==>
              (a.e.Fork? ==> Allowed(f.w.q, Arrive(a.e.t))) && (a.e.Exit? ==> HasIdle(Exited(f.w.q, a.e.status)))
                         && (a.e.WaitFor? ==> HasIdle(BlockedInWait(f.w.q)))
    ensures var g := Acted(f, a, parent); Synced(g.w, parent, g.child, g.status)
  {
    hide Phases, Exited, Schedule, Add, Clean, Collect, Update, BlockedInWait;
    match a {
      case Other(e) => StepKeepsSynced(f.w, e, parent, f.child, f.status);
      case NewChild(t, status) => ForkSyncs(f.w, t, parent, f.child, f.status, status);
    }
  }

  ghost function Acted(f: Family, a: Act, parent: int): Family
    requires Synced(f.w, parent, f.child, f.status) && Possible(f, a, parent)
  {
    match a
    case Other(e) =>
      StepKeepsSynced(f.w, e, parent, f.child, f.status);
      f.(w := Do(f.w, e, f.child))
    case NewChild(t, status) => Family(Wait(Add(f.w.q, t), false), t.pid, status)
  }

  ghost predicate AllPossible(f: Family, acts: seq<Act>, parent: int)
    requires Synced(f.w, parent, f.child, f.status)
    decreases |acts|
  {
    acts == []
    || (Possible(f, acts[0], parent)
        && (ActKeepsSynced(f, acts[0], parent);
            AllPossible(Acted(f, acts[0], parent), acts[1..], parent)))
  }

  ghost function Run(f: Family, acts: seq<Act>, parent: int): (r: Family)
    requires Synced(f.w, parent, f.child, f.status) && AllPossible(f, acts, parent)
    ensures Synced(r.w, parent, r.child, r.status)
    decreases |acts|
  {
    if acts == [] then f
    else
      ActKeepsSynced(f, acts[0], parent);
      Run(Acted(f, acts[0], parent), acts[1..], parent)
  }

  /** Once the child has exited the parent is not blocked; and when the parent runs inside waitpid, the
      child is a zombie, the value handed out is its exit status, and afterwards the child is dead. */
  ghost predicate Met(f: Family, parent: int) {
    && (ChildZombie(f.w.q, f.child, f.status) ==>
          forall p :: p in f.w.q.tasks && p.pid == parent ==> p.state != Blocked)
    && (f.w.waiting && f.w.q.tasks != [] && f.w.q.tasks[0].pid == parent && f.w.q.tasks[0].state == Running ==>
          ChildZombie(f.w.q, f.child, f.status)
          && Collect(f.w.q, f.child).1 == f.status && ChildGone(Collect(f.w.q, f.child).0, f.child))
  }

  /** In every reachable state, for each child in turn and in both orders of wait and exit. */
  lemma WaitMeetsExit(f: Family, acts: seq<Act>, parent: int)
    requires Synced(f.w, parent, f.child, f.status) && AllPossible(f, acts, parent)
    ensures Met(Run(f, acts, parent), parent)
  {
    var g := Run(f, acts, parent);
    var r := g.w;
    SyncedIsPhases(r, parent, g.child, g.status);
    if ChildZombie(r.q, g.child, g.status) {
      ZombieMeansAfter(r.q, r.waiting, parent, g.child, g.status);
      ParentUnblocked(r.q, r.waiting, parent, g.child, g.status);
    }
    if r.waiting && r.q.tasks[0].pid == parent && r.q.tasks[0].state == Running {
      ResumeCollects(r.q, parent, g.child, g.status);
      CollectedIsGone(r.q, g.child, g.status);
    }
  }

  /** Idle and init, as main leaves them. */
  function BootRing(): Queue {
    Queue([Info(0, 0, Ready, 0, 0, 0), Info(1, 0, Ready, 0, 0, 0)], 1)
  }

  /** From boot: init, with no child yet, meets every child it ever forks. */
  lemma BootSynced()
    ensures Wf(BootRing()) && Synced(Wait(BootRing(), false), 1, -1, 0)
  {
    var q := BootRing();
    assert Find(q.tasks, IDLE_PID, 0) == 0;
    assert q.tasks[1] in q.tasks;
    ChildlessIsSynced(q, 1, -1, 0);
  }

  lemma InitMeetsEveryChild(acts: seq<Act>)
    ensures Synced(Wait(BootRing(), false), 1, -1, 0)
    ensures AllPossible(Family(Wait(BootRing(), false), -1, 0), acts, 1) ==>
              Met(Run(Family(Wait(BootRing(), false), -1, 0), acts, 1), 1)
  {
    BootSynced();
    if AllPossible(Family(Wait(BootRing(), false), -1, 0), acts, 1) {
      WaitMeetsExit(Family(Wait(BootRing(), false), -1, 0), acts, 1);
    }
  }

  lemma ZombieMeansAfter(q: Queue, waiting: bool, parent: int, child: int, status: int)
    requires UniquePids(q.tasks) && ChildZombie(q, child, status) && Phases(q, waiting, parent, child, status)
    ensures After(q, waiting, parent, child, status)
  {
    var z :| z in q.tasks && z.pid == child && z.state == Zombie;
    var i :| 0 <= i < |q.tasks| && q.tasks[i] == z;
    forall c | c in q.tasks && c.pid == child
      ensures c == z
    {
      TheTask(q, c, i);
    }
  }

  lemma ParentUnblocked(q: Queue, waiting: bool, parent: int, child: int, status: int)
    requires UniquePids(q.tasks) && After(q, waiting, parent, child, status)
    ensures forall p :: p in q.tasks && p.pid == parent ==> p.state != Blocked
  {
    var z :| z in q.tasks && z.pid == parent && z.state != Blocked;
    var i :| 0 <= i < |q.tasks| && q.tasks[i] == z;
    forall c | c in q.tasks && c.pid == parent
      ensures c == z
    {
      TheTask(q, c, i);
    }
  }

  lemma CollectedIsGone(q: Queue, child: int, status: int)
    requires UniquePids(q.tasks) && ChildZombie(q, child, status)
    ensures ChildGone(Collect(q, child).0, child)
  {
    var z :| z in q.tasks && z.pid == child && z.state == Zombie;
    var i :| 0 <= i < |q.tasks| && q.tasks[i] == z;
    WfFind(q, z, i);
    var r := Collect(q, child).0;
    forall t | t in r.tasks && t.pid == child
      ensures t.state == Dead
    {
      var k :| 0 <= k < |r.tasks| && r.tasks[k] == t;
      assert q.tasks[k].pid == child;
    }
  }

  // ----- with a second child -----

  /** Any child's exit wakes a blocked parent; the child it waits for has ended exactly if it is the
      one that exited. With another child still running, do_waitpid would collect a live process. */
  lemma AnyChildWakes(q: Queue, s: int, parent: int, child: int)
    requires Wf(q) && Before(q, true, parent, child)
    requires q.tasks[0].ppid == parent && q.tasks[0].pid != parent && q.tasks[0].pid != IDLE_PID
    ensures forall p :: p in Exited(q, s).tasks && p.pid == parent ==> p.state == Ready
    ensures (forall c :: c in Exited(q, s).tasks && c.pid == child ==> c.state == Zombie) <==> q.tasks[0].pid == child
  {
    ExitedWf(q, s);
    var p :| p in q.tasks && p.pid == parent && p.state == Blocked;
    var c :| c in q.tasks && c.pid == child && !Ended(c);
    hide Exited, Wf, ParentIs, ChildAlive, ChildOf, Find;
    ParentIsWoken(q, s, p);
    ChildEndsIff(q, s, c);
  }

  lemma ParentIsWoken(q: Queue, s: int, p: Info)
    requires Wf(q) && p in q.tasks && p.state == Blocked && q.tasks[0].ppid == p.pid && q.tasks[0].pid != p.pid
             && q.tasks[0].pid != IDLE_PID
    ensures forall u :: u in Exited(q, s).tasks && u.pid == p.pid ==> u.state == Ready
  {
    ExitedWf(q, s);
    var r := Exited(q, s);
    hide Exited, Find;
    forall u | u in r.tasks && u.pid == p.pid
      ensures u.state == Ready
    {
      var j :| 0 <= j < |r.tasks| && r.tasks[j] == u;
      TheTask(q, p, j);
    }
  }

  lemma ChildEndsIff(q: Queue, s: int, c: Info)
    requires Wf(q) && c in q.tasks && !Ended(c) && q.tasks[0].pid != IDLE_PID && q.tasks[0].ppid != q.tasks[0].pid
    ensures (forall u :: u in Exited(q, s).tasks && u.pid == c.pid ==> u.state == Zombie) <==> q.tasks[0].pid == c.pid
  {
    ExitedWf(q, s);
    var r := Exited(q, s);
    assert UniquePids(q.tasks) && UniquePids(r.tasks);
    hide Exited, Find, Wf;
    var i :| 0 <= i < |q.tasks| && q.tasks[i] == c;
    assert r.tasks[i] == ExitEffect(q, s, i) && r.tasks[i] in r.tasks;
    if q.tasks[0].pid == c.pid {
      TheTask(q, c, 0);
    }
    hide UniquePids;
    forall u | u in r.tasks && u.pid == c.pid
      ensures u == r.tasks[i]
    {
      TheTask(r, u, i);
    }
  }
}
