/** The run ring as a value: a sequence of tasks that starts at `current` and follows `next`, and the
    position of `end`, behind which new tasks go. */
module Scheduler {

  datatype TaskState = New | Ready | Running | Sleeping | Blocked | Zombie | Dead

  datatype Info = Info(pid: int, ppid: int, state: TaskState, sleep: nat, waitPid: int, retVal: int)

  /** tasks[0] is current; tasks[end] is the task behind which add_task inserts. */
  datatype Queue = Queue(tasks: seq<Info>, end: nat)

  const IDLE_PID: int := 0

  // ----- the operations -----

  function Rotate<T>(s: seq<T>, k: nat): seq<T>
    requires k <= |s|
  {
    s[k..] + s[..k]
  }

  predicate Runnable(t: Info) {
    t.state == Ready && t.pid != IDLE_PID
  }

  /** The first runnable task at or after i. */
  function FirstRunnable(tasks: seq<Info>, i: nat): (r: nat)
    requires i <= |tasks|
    ensures i <= r <= |tasks|
    ensures r < |tasks| ==> Runnable(tasks[r])
    ensures forall k {:trigger tasks[k]} :: i <= k < r ==> !Runnable(tasks[k])
    decreases |tasks| - i
  {
    if i == |tasks| || Runnable(tasks[i]) then i else FirstRunnable(tasks, i + 1)
  }

  function Find(tasks: seq<Info>, pid: int, i: nat): (r: nat)
    requires i <= |tasks|
    ensures i <= r <= |tasks|
    ensures r < |tasks| ==> tasks[r].pid == pid
    ensures forall k {:trigger tasks[k]} :: i <= k < r ==> tasks[k].pid != pid
    decreases |tasks| - i
  {
    if i == |tasks| || tasks[i].pid == pid then i else Find(tasks, pid, i + 1)
  }

  function Preempt(t: Info): Info {
    if t.state == Running then t.(state := Ready) else t
  }

  /** Where schedule goes: the first runnable task behind current, or idle after a whole round. */
  function Pick(tasks: seq<Info>): nat
    requires |tasks| > 0
  {
    var k := FirstRunnable(tasks, 1);
    if k < |tasks| then k else Find(tasks, IDLE_PID, 0)
  }

  predicate HasIdle(q: Queue) {
    |q.tasks| > 0 && Find(q.tasks, IDLE_PID, 0) < |q.tasks|
  }

  function Preempted(q: Queue): seq<Info>
    requires |q.tasks| > 0
  {
    q.tasks[0 := Preempt(q.tasks[0])]
  }

  /** schedule. */
  function Schedule(q: Queue): Queue
    requires HasIdle(q)
  {
    var tasks := Preempted(q);
    IdleStays(q);
    var r := Rotate(tasks, Pick(tasks));
    Queue(r[0 := r[0].(state := Running)], 0)
  }

  lemma IdleStays(q: Queue)
    requires HasIdle(q)
    ensures Pick(Preempted(q)) < |q.tasks|
  {
    var i := Find(q.tasks, IDLE_PID, 0);
    assert Preempted(q)[i].pid == IDLE_PID;
  }

  /** add_task. */
  function Add(q: Queue, t: Info): Queue
    requires q.end < |q.tasks|
  {
    Queue(q.tasks[..q.end + 1] + [t] + q.tasks[q.end + 1..], q.end + 1)
  }

  function Alive(tasks: seq<Info>): seq<Info> {
    if tasks == [] then []
    else if tasks[0].state == Dead then Alive(tasks[1..])
    else [tasks[0]] + Alive(tasks[1..])
  }

  /** clean_dead does not repair `end`: it may be current or a task that stays. */
  predicate EndSurvives(q: Queue) {
    q.end < |q.tasks| && (q.end == 0 || q.tasks[q.end].state != Dead)
  }

  /** clean_dead: drop the dead tasks other than current. */
  function Clean(q: Queue): Queue
    requires EndSurvives(q)
  {
    Queue([q.tasks[0]] + Alive(q.tasks[1..]), |Alive(q.tasks[1..q.end + 1])|)
  }

  /** A change to one task's fields by its pid: exit, wait, kill and sleep. */
  function Update(q: Queue, i: nat, t: Info): Queue
    requires i < |q.tasks|
  {
    q.(tasks := q.tasks[i := t])
  }

  // ----- the timer -----

  /** IRQ0_period, in milliseconds. */
  const PERIOD: nat := 5
  const U64: nat := 0x1_0000_0000_0000_0000

  /** The unsigned 64-bit difference. */
  function Minus(x: nat, y: nat): nat
    requires x < U64 && y < U64
  {
    if x >= y then x - y else x - y + U64
  }

  /** One timer interrupt for one task: `sleep_time <= 0` on an unsigned value means zero. */
  function TimerTick(t: Info): Info {
    if t.state != Sleeping || t.sleep >= U64 then t
    else
      var left := Minus(t.sleep, PERIOD);
      if left == 0 then t.(state := Ready, sleep := 0) else t.(sleep := left)
  }

  /** sleep_time_decrease: one timer interrupt seen by every task. */
  function TimerTicks(q: Queue): (r: Queue)
    ensures |r.tasks| == |q.tasks| && r.end == q.end
    ensures forall i {:trigger r.tasks[i]} :: 0 <= i < |q.tasks| ==> r.tasks[i] == TimerTick(q.tasks[i])
  {
    q.(tasks := seq(|q.tasks|, i requires 0 <= i < |q.tasks| => TimerTick(q.tasks[i])))
  }

  /** The interrupt concerns sleepers only: a task in any other state keeps every field, and a sleeper
      all but its remaining time, 5 ms less, and its state, which turns READY exactly at 5 ms. */
  lemma TimerSparesOthers(q: Queue, i: nat)
    requires i < |q.tasks|
    ensures var t, u := q.tasks[i], TimerTicks(q).tasks[i];
            && (t.state in {New, Ready, Running, Blocked, Zombie, Dead} ==> u == t)
            && u.pid == t.pid && u.ppid == t.ppid && u.waitPid == t.waitPid && u.retVal == t.retVal
            && (t.state == Sleeping && t.sleep < U64 ==>
                  && u.sleep == (t.sleep - 5) % 0x1_0000_0000_0000_0000
                  && u.state == if t.sleep == 5 then Ready else Sleeping)
  {
  }

  // ----- the invariant -----

  ghost predicate UniquePids(tasks: seq<Info>) {
    forall i, j {:trigger tasks[i].pid, tasks[j].pid} :: 0 <= i < j < |tasks| ==> tasks[i].pid != tasks[j].pid
  }

  ghost predicate OnlyCurrentRuns(tasks: seq<Info>) {
    forall i {:trigger tasks[i].state} :: 0 < i < |tasks| ==> tasks[i].state != Running
  }

  ghost predicate Wf(q: Queue) {
    && HasIdle(q) && q.end < |q.tasks| && UniquePids(q.tasks) && OnlyCurrentRuns(q.tasks)
    && forall t :: t in q.tasks && t.pid == IDLE_PID ==> t.state != Dead
  }

  lemma RotateAt<T>(s: seq<T>, k: nat, i: nat)
    requires k <= |s| && i < |s|
    ensures Rotate(s, k)[i] == s[if i + k < |s| then i + k else i + k - |s|]
  {
  }

  lemma RotateUnique(tasks: seq<Info>, k: nat)
    requires UniquePids(tasks) && k <= |tasks|
    ensures UniquePids(Rotate(tasks, k))
  {
    var r := Rotate(tasks, k);
    forall i, j | 0 <= i < j < |r|
      ensures r[i].pid != r[j].pid
    {
      RotateAt(tasks, k, i);
      RotateAt(tasks, k, j);
    }
  }

  lemma RotateMembers<T>(s: seq<T>, k: nat)
    requires k <= |s|
    ensures forall t :: t in Rotate(s, k) <==> t in s
  {
    assert s == s[..k] + s[k..];
  }

  lemma PreemptedFacts(q: Queue)
    requires Wf(q)
    ensures var tasks := Preempted(q);
            && |tasks| == |q.tasks| && UniquePids(tasks)
            && (forall t :: t in tasks ==> t.state != Running)
            && (forall t :: t in tasks && t.pid == IDLE_PID ==> t.state != Dead)
  {
  }

  /** Schedule turns the ring to the task it picks: every task keeps its fields and its neighbours, apart
      from the states of the preempted task and of the one that now runs. */
  lemma ScheduleRotates(q: Queue, i: nat)
    requires Wf(q) && i < |q.tasks|
    ensures Pick(Preempted(q)) < |q.tasks| && |Schedule(q).tasks| == |q.tasks|
    ensures var k := Pick(Preempted(q));
            var j := if i + k < |q.tasks| then i + k else i + k - |q.tasks|;
            Schedule(q).tasks[i].(state := q.tasks[j].state) == q.tasks[j]
            && (0 < i && 0 < j ==> Schedule(q).tasks[i].state == q.tasks[j].state)
  {
    IdleStays(q);
    RotateAt(Preempted(q), Pick(Preempted(q)), i);
    hide Rotate, Pick;
  }

  /** Schedule keeps the ring well formed and lets exactly the new current run. */
  lemma ScheduleKeepsWf(q: Queue)
    requires Wf(q)
    ensures Wf(Schedule(q)) && |Schedule(q).tasks| == |q.tasks|
    ensures Schedule(q).tasks[0].state == Running
  {
    var tasks := Preempted(q);
    PreemptedFacts(q);
    IdleStays(q);
    var k := Pick(tasks);
    var r := Rotate(tasks, k);
    RotateUnique(tasks, k);
    RotateMembers(tasks, k);
    var d := Find(q.tasks, IDLE_PID, 0);
    var e := if d >= k then d - k else d - k + |tasks|;
    RotateAt(tasks, k, e);
    hide Rotate, Pick, FirstRunnable, UniquePids;
    RunFirst(r, e);
  }

  lemma RunFirst(r: seq<Info>, e: nat)
    requires e < |r| && r[e].pid == IDLE_PID && UniquePids(r)
    requires forall t :: t in r ==> t.state != Running && (t.pid == IDLE_PID ==> t.state != Dead)
    ensures Wf(Queue(r[0 := r[0].(state := Running)], 0))
  {
    var tasks := r[0 := r[0].(state := Running)];
    assert tasks[e].pid == IDLE_PID;
    assert forall i :: 0 < i < |r| ==> tasks[i] in r;
    assert forall i :: 0 <= i < |r| ==> tasks[i].pid == r[i].pid;
  }

  lemma AddKeepsWf(q: Queue, t: Info)
    requires Wf(q) && t.state != Running && forall u :: u in q.tasks ==> u.pid != t.pid
    ensures Wf(Add(q, t)) && |Add(q, t).tasks| == |q.tasks| + 1
  {
    var r := Add(q, t).tasks;
    forall i | 0 <= i < |r|
      ensures r[i] == if i <= q.end then q.tasks[i] else if i == q.end + 1 then t else q.tasks[i - 1]
    {
    }
    var d := Find(q.tasks, IDLE_PID, 0);
    assert r[if d <= q.end then d else d + 1].pid == IDLE_PID;
    forall i, j | 0 <= i < j < |r|
      ensures r[i].pid != r[j].pid
    {
    }
  }

  function AddAll(q: Queue, ts: seq<Info>): Queue
    requires q.end < |q.tasks|
    decreases |ts|
  {
    if ts == [] then q else AddAll(Add(q, ts[0]), ts[1..])
  }

  /** Tasks added one after the other stand behind the old end in the order in which they came. */
  lemma {:induction false} AddsInOrder(q: Queue, ts: seq<Info>)
    requires q.end < |q.tasks|
    ensures AddAll(q, ts) == Queue(q.tasks[..q.end + 1] + ts + q.tasks[q.end + 1..], q.end + |ts|)
    decreases |ts|
  {
    if ts == [] {
      assert q.tasks[..q.end + 1] + ts + q.tasks[q.end + 1..] == q.tasks;
    } else {
      var r := Add(q, ts[0]);
      AddsInOrder(r, ts[1..]);
      assert r.tasks[..r.end + 1] == q.tasks[..q.end + 1] + [ts[0]] && r.tasks[r.end + 1..] == q.tasks[q.end + 1..];
      assert q.tasks[..q.end + 1] + [ts[0]] + ts[1..] == q.tasks[..q.end + 1] + ts;
    }
  }

  /** schedule leaves end at the task it dispatches, even if that is the one that called it: what is forked
      before the next call runs next, the oldest first, ahead of all who waited. */
  lemma ForkedRunsNext(q: Queue, ts: seq<Info>)
    requires Wf(q) && ts != [] && Runnable(ts[0])
    ensures Schedule(q).end == 0 && |Schedule(q).tasks| > 0
    ensures var r := Schedule(q);
            AddAll(r, ts).tasks == [r.tasks[0]] + ts + r.tasks[1..] && AddAll(r, ts).end == |ts|
    ensures var r := AddAll(Schedule(q), ts);
            HasIdle(r) && Schedule(r).tasks[0] == ts[0].(state := Running)
  {
    var r := Schedule(q);
    ScheduleKeepsWf(q);
    WfHasIdle(r);
    hide Wf, Rotate, Pick, Preempted, HasIdle, AddAll;
    assert r.end == 0;
    hide Schedule;
    AddedBehind(r, ts);
    IdleStaysIn(r, ts);
    NextRuns(AddAll(r, ts));
  }

  lemma AddedBehind(r: Queue, ts: seq<Info>)
    requires r.end == 0 && |r.tasks| > 0
    ensures AddAll(r, ts).tasks == [r.tasks[0]] + ts + r.tasks[1..] && AddAll(r, ts).end == |ts|
  {
    AddsInOrder(r, ts);
    assert r.tasks[..1] == [r.tasks[0]];
  }

  lemma IdleStaysIn(r: Queue, ts: seq<Info>)
    requires r.end == 0 && HasIdle(r)
    ensures HasIdle(AddAll(r, ts))
  {
    AddedBehind(r, ts);
    var d := Find(r.tasks, IDLE_PID, 0);
    hide AddAll;
    assert ([r.tasks[0]] + ts + r.tasks[1..])[if d == 0 then 0 else d + |ts|] == r.tasks[d];
  }

  lemma WfHasIdle(q: Queue)
    requires Wf(q)
    ensures HasIdle(q)
  {
  }

  lemma NextRuns(q: Queue)
    requires HasIdle(q) && |q.tasks| > 1 && Runnable(q.tasks[1])
    ensures Schedule(q).tasks[0] == q.tasks[1].(state := Running)
  {
    assert Preempted(q)[1] == q.tasks[1];
    assert Pick(Preempted(q)) == 1;
  }

  lemma {:induction false} AliveMembers(tasks: seq<Info>)
    ensures forall t :: t in Alive(tasks) <==> t in tasks && t.state != Dead
    decreases |tasks|
  {
    if tasks != [] {
      AliveMembers(tasks[1..]);
    }
  }

  lemma {:induction false} AliveAppend(a: seq<Info>, b: seq<Info>)
    ensures Alive(a + b) == Alive(a) + Alive(b)
    decreases |a|
  {
    if a == [] {
      assert a + b == b;
    } else {
      assert (a + b)[1..] == a[1..] + b;
      AliveAppend(a[1..], b);
    }
  }

  lemma {:induction false} AliveUnique(tasks: seq<Info>)
    requires UniquePids(tasks)
    ensures UniquePids(Alive(tasks))
    decreases |tasks|
  {
    if tasks != [] {
      AliveUnique(tasks[1..]);
      AliveMembers(tasks[1..]);
      var rest := Alive(tasks[1..]);
      forall i | 0 <= i < |rest|
        ensures rest[i].pid != tasks[0].pid
      {
        assert rest[i] in tasks[1..];
      }
    }
  }

  /** Where a surviving task ends up: behind the survivors among those before it. */
  lemma AliveAt(tasks: seq<Info>, i: nat)
    requires i < |tasks| && tasks[i].state != Dead
    ensures |Alive(tasks[..i])| < |Alive(tasks)| && Alive(tasks)[|Alive(tasks[..i])|] == tasks[i]
  {
    assert tasks == tasks[..i] + tasks[i..];
    AliveAppend(tasks[..i], tasks[i..]);
  }

  lemma CleanEnd(q: Queue)
    requires EndSurvives(q)
    ensures Clean(q).end < |Clean(q).tasks| && Clean(q).tasks[Clean(q).end] == q.tasks[q.end]
  {
    var rest := q.tasks[1..];
    if q.end > 0 {
      var before := rest[..q.end - 1];
      AliveAt(rest, q.end - 1);
      assert Alive([q.tasks[q.end]]) == [q.tasks[q.end]];
      AliveAppend(before, [q.tasks[q.end]]);
      assert q.tasks[1..q.end + 1] == before + [q.tasks[q.end]];
      hide Alive;
    } else {
      assert q.tasks[1..q.end + 1] == [];
    }
  }

  lemma CleanMembers(q: Queue)
    requires EndSurvives(q)
    ensures forall t :: t in Clean(q).tasks <==> t == q.tasks[0] || (t in q.tasks && t.state != Dead)
  {
    AliveMembers(q.tasks[1..]);
    hide Alive;
    assert q.tasks == [q.tasks[0]] + q.tasks[1..];
  }

  lemma CleanOthers(q: Queue)
    requires EndSurvives(q) && UniquePids(q.tasks) && OnlyCurrentRuns(q.tasks)
    ensures UniquePids(Clean(q).tasks) && OnlyCurrentRuns(Clean(q).tasks)
  {
    AliveUnique(q.tasks[1..]);
    AliveMembers(q.tasks[1..]);
    hide Alive;
    var rest := Alive(q.tasks[1..]);
    forall i | 0 <= i < |rest|
      ensures rest[i].pid != q.tasks[0].pid && rest[i].state != Running
    {
      assert rest[i] in q.tasks[1..];
    }
  }

  lemma SomeIdle(tasks: seq<Info>, t: Info)
    requires t in tasks && t.pid == IDLE_PID
    ensures Find(tasks, IDLE_PID, 0) < |tasks|
  {
    var i :| 0 <= i < |tasks| && tasks[i] == t;
  }

  /** clean_dead removes exactly the dead tasks other than current, and `end` still names the same task. */
  lemma CleanKeepsWf(q: Queue)
    requires Wf(q) && EndSurvives(q)
    ensures Wf(Clean(q)) && Clean(q).tasks[Clean(q).end] == q.tasks[q.end]
    ensures forall t :: t in Clean(q).tasks <==> t == q.tasks[0] || (t in q.tasks && t.state != Dead)
  {
    CleanEnd(q);
    CleanMembers(q);
    CleanOthers(q);
    SomeIdle(Clean(q).tasks, q.tasks[Find(q.tasks, IDLE_PID, 0)]);
    hide Alive, Clean, UniquePids, OnlyCurrentRuns;
  }

  lemma {:induction false} AliveOrder(tasks: seq<Info>, i: nat, j: nat) returns (a: nat, b: nat)
    requires i < j < |Alive(tasks)|
    ensures a < b < |tasks| && Alive(tasks)[i] == tasks[a] && Alive(tasks)[j] == tasks[b]
    decreases |tasks|
  {
    if tasks[0].state == Dead {
      a, b := AliveOrder(tasks[1..], i, j);
      a, b := a + 1, b + 1;
    } else if i > 0 {
      a, b := AliveOrder(tasks[1..], i - 1, j - 1);
      a, b := a + 1, b + 1;
    } else {
      b := AlivePosition(tasks[1..], j - 1);
      a, b := 0, b + 1;
    }
  }

  lemma {:induction false} AlivePosition(tasks: seq<Info>, j: nat) returns (b: nat)
    requires j < |Alive(tasks)|
    ensures b < |tasks| && Alive(tasks)[j] == tasks[b]
    decreases |tasks|
  {
    if tasks[0].state == Dead {
      b := AlivePosition(tasks[1..], j);
      b := b + 1;
    } else if j > 0 {
      b := AlivePosition(tasks[1..], j - 1);
      b := b + 1;
    } else {
      b := 0;
    }
  }

  /** The tasks that clean_dead keeps stay in ring order. */
  lemma CleanKeepsOrder(q: Queue, i: nat, j: nat)
    requires Wf(q) && EndSurvives(q) && i < j < |Clean(q).tasks|
    ensures Find(q.tasks, Clean(q).tasks[i].pid, 0) < Find(q.tasks, Clean(q).tasks[j].pid, 0) < |q.tasks|
  {
    var rest, r := q.tasks[1..], Clean(q).tasks;
    var b := AlivePosition(rest, j - 1);
    assert r[j] == q.tasks[b + 1];
    DistanceIs(q, r[j].pid, b + 1);
    if i == 0 {
      DistanceIs(q, r[0].pid, 0);
    } else {
      var a, c := AliveOrder(rest, i - 1, j - 1);
      assert r[i] == q.tasks[a + 1] && r[j] == q.tasks[c + 1];
      DistanceIs(q, r[i].pid, a + 1);
      DistanceIs(q, r[j].pid, c + 1);
    }
  }

  // ----- bounded waiting -----

  /** What may happen between two observations of a waiting task. Tick is a call of schedule, Interrupt the
      timer acting on the whole ring; Change stands for exit, wait, kill, sleep and wake-ups. */
  datatype Event = Tick | Interrupt | Arrive(t: Info) | Sweep | Change(i: nat, t: Info)

  ghost predicate Allowed(q: Queue, e: Event) {
    match e
    case Tick => true
    case Interrupt => true
    case Arrive(t) => t.state != Running && forall u :: u in q.tasks ==> u.pid != t.pid
    case Sweep => EndSurvives(q)
    case Change(i, t) =>
      && i < |q.tasks| && t.pid == q.tasks[i].pid
      && (t.state == Running ==> i == 0)
      && (t.pid == IDLE_PID ==> t.state != Dead)
  }

  ghost function Apply(q: Queue, e: Event): Queue
    requires Wf(q) && Allowed(q, e)
  {
    match e
    case Tick => Schedule(q)
    case Interrupt => TimerTicks(q)
    case Arrive(t) => Add(q, t)
    case Sweep => Clean(q)
    case Change(i, t) => Update(q, i, t)
  }

  lemma TimerKeepsWf(q: Queue)
    requires Wf(q)
    ensures Wf(TimerTicks(q))
  {
    var r := TimerTicks(q);
    forall i | 0 <= i < |q.tasks|
      ensures r.tasks[i].pid == q.tasks[i].pid && (r.tasks[i].state == Running ==> q.tasks[i].state == Running)
      ensures r.tasks[i].state == Dead ==> q.tasks[i].state == Dead
    {
      TimerSparesOthers(q, i);
    }
    hide TimerTicks, TimerTick;
    var d := Find(q.tasks, IDLE_PID, 0);
    assert r.tasks[d].pid == IDLE_PID;
    forall t | t in r.tasks && t.pid == IDLE_PID
      ensures t.state != Dead
    {
      var i :| 0 <= i < |r.tasks| && r.tasks[i] == t;
      assert q.tasks[i] in q.tasks;
    }
  }

  lemma ApplyKeepsWf(q: Queue, e: Event)
    requires Wf(q) && Allowed(q, e)
    ensures Wf(Apply(q, e))
  {
    match e {
      case Tick => ScheduleKeepsWf(q);
      case Interrupt => TimerKeepsWf(q);
      case Arrive(t) => AddKeepsWf(q, t);
      case Sweep => CleanKeepsWf(q);
      case Change(i, t) =>
        var d := Find(q.tasks, IDLE_PID, 0);
        assert Update(q, i, t).tasks[d].pid == IDLE_PID;
    }
  }

  /** The ring distance from current. */
  function Distance(q: Queue, pid: int): nat {
    Find(q.tasks, pid, 0)
  }

  ghost predicate Waits(q: Queue, pid: int) {
    pid != IDLE_PID && 0 < Distance(q, pid) < |q.tasks| && q.tasks[Distance(q, pid)].state == Ready
  }

  lemma DistanceIs(q: Queue, pid: int, d: nat)
    requires UniquePids(q.tasks) && d < |q.tasks| && q.tasks[d].pid == pid
    ensures Distance(q, pid) == d
  {
  }

  /** One call of schedule dispatches the task or brings it strictly nearer. */
  lemma TickProgress(q: Queue, pid: int)
    requires Wf(q) && Waits(q, pid)
    ensures var s := Schedule(q);
            s.tasks[0].pid == pid || (Waits(s, pid) && Distance(s, pid) < Distance(q, pid))
  {
    var d := Distance(q, pid);
    var tasks := Preempted(q);
    assert Runnable(tasks[d]);
    var k := Pick(tasks);
    assert 1 <= k <= d;
    ScheduleKeepsWf(q);
    var s := Schedule(q);
    if k < d {
      assert Rotate(tasks, k)[d - k] == tasks[d];
      assert s.tasks[d - k] == tasks[d];
      DistanceIs(s, pid, d - k);
    }
  }

  lemma ArriveProgress(q: Queue, pid: int, t: Info)
    requires Wf(q) && Waits(q, pid) && Allowed(q, Arrive(t))
    ensures Waits(Add(q, t), pid) && Distance(Add(q, t), pid) <= Distance(q, pid) + 1
  {
    var d := Distance(q, pid);
    AddKeepsWf(q, t);
    var d' := if d <= q.end then d else d + 1;
    assert Add(q, t).tasks[d'] == q.tasks[d];
    DistanceIs(Add(q, t), pid, d');
  }

  lemma {:induction false} AliveShorter(tasks: seq<Info>)
    ensures |Alive(tasks)| <= |tasks|
    decreases |tasks|
  {
    if tasks != [] {
      AliveShorter(tasks[1..]);
    }
  }

  /** clean_dead never moves a survivor away from current. */
  lemma SurvivorAt(q: Queue, d: nat) returns (e: nat)
    requires EndSurvives(q) && 0 < d < |q.tasks| && q.tasks[d].state != Dead
    ensures 0 < e <= d && e < |Clean(q).tasks| && Clean(q).tasks[e] == q.tasks[d]
  {
    e := |Alive(q.tasks[1..][..d - 1])| + 1;
    AliveAt(q.tasks[1..], d - 1);
    AliveShorter(q.tasks[1..][..d - 1]);
    hide Alive;
  }

  lemma SweepProgress(q: Queue, pid: int)
    requires Wf(q) && Waits(q, pid) && EndSurvives(q)
    ensures Waits(Clean(q), pid) && Distance(Clean(q), pid) <= Distance(q, pid)
  {
    CleanKeepsWf(q);
    var e := SurvivorAt(q, Distance(q, pid));
    DistanceIs(Clean(q), pid, e);
    hide Clean, Find;
  }

  lemma ChangeProgress(q: Queue, pid: int, i: nat, t: Info)
    requires Wf(q) && Waits(q, pid) && Allowed(q, Change(i, t)) && t.pid != pid
    ensures Waits(Update(q, i, t), pid) && Distance(Update(q, i, t), pid) == Distance(q, pid)
  {
    ApplyKeepsWf(q, Change(i, t));
    DistanceIs(Update(q, i, t), pid, Distance(q, pid));
  }

  /** A timer interrupt moves no task, and leaves a READY one as it is. */
  lemma InterruptProgress(q: Queue, pid: int)
    requires Wf(q) && Waits(q, pid)
    ensures Waits(TimerTicks(q), pid) && Distance(TimerTicks(q), pid) == Distance(q, pid)
  {
    var d := Distance(q, pid);
    TimerSparesOthers(q, d);
    TimerKeepsWf(q);
    hide TimerTicks, TimerTick;
    DistanceIs(TimerTicks(q), pid, d);
  }

  /** The events leave the task alone: it stays READY until it is dispatched. */
  ghost predicate LeaveReady(q: Queue, events: seq<Event>, pid: int)
    requires Wf(q)
    decreases |events|
  {
    events == []
    || (&& Allowed(q, events[0])
        && (events[0].Change? ==> events[0].t.pid != pid)
        && (ApplyKeepsWf(q, events[0]); LeaveReady(Apply(q, events[0]), events[1..], pid)))
  }

  /** Some call of schedule in the run makes the task current. */
  ghost predicate Dispatched(q: Queue, events: seq<Event>, pid: int)
    requires Wf(q) && LeaveReady(q, events, pid)
    decreases |events|
  {
    events != []
    && (ApplyKeepsWf(q, events[0]);
        || (events[0].Tick? && Schedule(q).tasks[0].pid == pid)
        || Dispatched(Apply(q, events[0]), events[1..], pid))
  }

  function Ticks(events: seq<Event>): nat {
    if events == [] then 0 else (if events[0].Tick? then 1 else 0) + Ticks(events[1..])
  }

  function Arrivals(events: seq<Event>): nat {
    if events == [] then 0 else (if events[0].Arrive? then 1 else 0) + Arrivals(events[1..])
  }

  lemma {:induction false} WaitingEnds(q: Queue, events: seq<Event>, pid: int)
    requires Wf(q) && Waits(q, pid) && LeaveReady(q, events, pid)
    requires Ticks(events) >= Distance(q, pid) + Arrivals(events)
    ensures Dispatched(q, events, pid)
    decreases |events|
  {
    if events != [] {
      var e := events[0];
      ApplyKeepsWf(q, e);
      match e {
        case Tick => TickProgress(q, pid);
        case Interrupt => InterruptProgress(q, pid);
        case Arrive(t) => ArriveProgress(q, pid, t);
        case Sweep => SweepProgress(q, pid);
        case Change(i, t) => ChangeProgress(q, pid, i, t);
      }
      if !(e.Tick? && Schedule(q).tasks[0].pid == pid) {
        WaitingEnds(Apply(q, e), events[1..], pid);
      }
    }
  }

  /** Bounded waiting: on a ring of N tasks, a task that stays READY runs within N - 1 calls of
      schedule, plus one for every task added meanwhile. */
  lemma BoundedWaiting(q: Queue, events: seq<Event>, pid: int)
    requires Wf(q) && Waits(q, pid) && LeaveReady(q, events, pid)
    requires Ticks(events) >= |q.tasks| - 1 + Arrivals(events)
    ensures Dispatched(q, events, pid)
  {
    WaitingEnds(q, events, pid);
  }

  /** A preempted task starts to wait, wherever schedule goes: even idle is preferred to it. */
  lemma PreemptedWaits(q: Queue)
    requires Wf(q) && q.tasks[0].state == Running && q.tasks[0].pid != IDLE_PID
    ensures Waits(Schedule(q), q.tasks[0].pid)
  {
    var tasks := Preempted(q);
    IdleStays(q);
    var k := Pick(tasks);
    var n := |tasks|;
    ScheduleKeepsWf(q);
    var s := Schedule(q);
    assert k >= 1;
    assert Rotate(tasks, k)[n - k] == tasks[0];
    assert s.tasks[n - k] == tasks[0];
    DistanceIs(s, q.tasks[0].pid, n - k);
  }

  /** The detour: if only the preempted task is runnable, idle runs once and the next call of
      schedule comes back to it. */
  lemma IdleDetour(q: Queue)
    requires Wf(q) && q.tasks[0].state == Running && q.tasks[0].pid != IDLE_PID
    requires forall i :: 0 < i < |q.tasks| ==> !Runnable(q.tasks[i])
    ensures Schedule(q).tasks[0].pid == IDLE_PID
    ensures Wf(Schedule(q)) && Schedule(Schedule(q)).tasks[0].pid == q.tasks[0].pid
  {
    var tasks := Preempted(q);
    IdleStays(q);
    var n, k := |tasks|, Pick(tasks);
    assert FirstRunnable(tasks, 1) == n;
    PreemptedWaits(q);
    ScheduleKeepsWf(q);
    var s := Schedule(q);
    forall i | 0 < i < n && i != n - k
      ensures !Runnable(s.tasks[i])
    {
      assert Rotate(tasks, k)[i] == tasks[if i + k < n then i + k else i + k - n];
    }
    var d := Distance(s, q.tasks[0].pid);
    assert Rotate(tasks, k)[n - k] == tasks[0];
    DistanceIs(s, q.tasks[0].pid, n - k);
    var again := Preempted(s);
    assert Runnable(again[d]);
    forall i | 0 < i < n && i != d
      ensures !Runnable(again[i])
    {
      assert again[i] == s.tasks[i];
    }
    assert FirstRunnable(again, 1) == d;
  }
}
