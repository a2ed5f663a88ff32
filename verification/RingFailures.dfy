/** The failures of the run ring and of waitpid and sleep, in rings reachable from boot. */
module RingFailures {
  import opened Scheduler
  import Handshake
  import Timer

  function Task(pid: int, ppid: int, state: TaskState): Info {
    Info(pid, ppid, state, 0, 0, 0)
  }

  /** schedule on a ring whose second task is runnable. */
  lemma PicksNext(q: Queue)
    requires HasIdle(q) && |q.tasks| > 1 && Runnable(q.tasks[1])
    ensures Schedule(q) == Queue([q.tasks[1].(state := Running)] + q.tasks[2..] + [Preempt(q.tasks[0])], 0)
  {
    var tasks := Preempted(q);
    IdleStays(q);
    assert FirstRunnable(tasks, 1) == 1;
    assert Rotate(tasks, 1) == tasks[1..] + [tasks[0]];
    assert tasks[2..] == q.tasks[2..];
  }

  /** ... or the third, if the second is not. */
  lemma PicksThird(q: Queue)
    requires HasIdle(q) && |q.tasks| > 2 && !Runnable(q.tasks[1]) && Runnable(q.tasks[2])
    ensures Schedule(q) == Queue([q.tasks[2].(state := Running)] + q.tasks[3..] + [Preempt(q.tasks[0]), q.tasks[1]], 0)
  {
    var tasks := Preempted(q);
    IdleStays(q);
    assert FirstRunnable(tasks, 1) == FirstRunnable(tasks, 2) == 2;
    assert Rotate(tasks, 2) == tasks[2..] + [tasks[0], tasks[1]];
    assert tasks[3..] == q.tasks[3..];
  }

  /** Some task of the ring is idle. */
  lemma IdleAt(q: Queue, i: nat)
    requires i < |q.tasks| && q.tasks[i].pid == IDLE_PID
    ensures HasIdle(q)
  {
  }

  /** init runs, having just been dispatched. */
  function InitRuns(): Queue {
    Queue([Task(1, 0, Running), Task(0, 0, Ready)], 0)
  }

  lemma InitIsDispatched()
    ensures HasIdle(Handshake.BootRing()) && Schedule(Handshake.BootRing()) == InitRuns()
  {
    var q := Handshake.BootRing();
    IdleAt(q, 0);
    PicksNext(q);
  }

  /** init forks a child and kills it at once: `end` names a dead task, and clean_dead loses it. */
  lemma EndIsLost()
    ensures HasIdle(Handshake.BootRing()) && Schedule(Handshake.BootRing()) == InitRuns()
    ensures var q := Add(InitRuns(), Task(2, 1, Ready));
            && |q.tasks| == 3 && q.tasks[1].pid == 2
            && !EndSurvives(Update(q, 1, q.tasks[1].(state := Dead)))
  {
    InitIsDispatched();
    hide Schedule, HasIdle, Handshake.BootRing;
  }

  /** init, its children 2 and 3, and idle. */
  function TwoChildren(): Queue {
    Add(Add(InitRuns(), Task(2, 1, Ready)), Task(3, 1, Ready))
  }

  /** init waits for 3, so 2 runs. */
  function TwoRuns(): Queue {
    Queue([Task(2, 1, Running), Task(3, 1, Ready), Task(0, 0, Ready), Task(1, 0, Blocked)], 0)
  }

  lemma InitWaits()
    ensures HasIdle(Handshake.BlockedInWait(TwoChildren()))
            && Schedule(Handshake.BlockedInWait(TwoChildren())) == TwoRuns()
  {
    assert TwoChildren().tasks == [Task(1, 0, Running), Task(2, 1, Ready), Task(3, 1, Ready), Task(0, 0, Ready)];
    var q := Handshake.BlockedInWait(TwoChildren());
    assert q.tasks == [Task(1, 0, Blocked), Task(2, 1, Ready), Task(3, 1, Ready), Task(0, 0, Ready)];
    IdleAt(q, 3);
    PicksNext(q);
    hide Schedule, TwoChildren;
  }

  /** 2 exits, which wakes init, and 3 runs. */
  function ThreeRuns(): Queue {
    Queue([Task(3, 1, Running), Task(0, 0, Ready), Info(1, 0, Ready, 0, 2, 0), Info(2, 1, Zombie, 0, 0, 7)], 0)
  }

  lemma TwoExits()
    ensures |TwoRuns().tasks| > 0 && HasIdle(Handshake.Exited(TwoRuns(), 7))
    ensures Schedule(Handshake.Exited(TwoRuns(), 7)) == ThreeRuns()
  {
    ChildTwoExits(TwoRuns());
    var q := Handshake.Exited(TwoRuns(), 7);
    hide Handshake.Exited;
    IdleAt(q, 2);
    PicksNext(q);
    hide Schedule;
  }

  /** 3's time is up, and init resumes in waitpid(3). */
  function InitResumes(): Queue {
    Queue([Info(1, 0, Running, 0, 2, 0), Info(2, 1, Zombie, 0, 0, 7), Task(3, 1, Ready), Task(0, 0, Ready)], 0)
  }

  lemma ThreePreempted()
    ensures HasIdle(ThreeRuns()) && Schedule(ThreeRuns()) == InitResumes()
  {
    IdleAt(ThreeRuns(), 1);
    PicksThird(ThreeRuns());
    hide Schedule;
  }

  /** init waits for 3, 2 exits, 3 runs for a while, and init resumes: the child it collects, and marks
      dead, is a live process that has returned nothing. */
  lemma LiveChildCollected()
    ensures HasIdle(Handshake.BlockedInWait(TwoChildren()))
            && Schedule(Handshake.BlockedInWait(TwoChildren())) == TwoRuns()
    ensures HasIdle(Handshake.Exited(TwoRuns(), 7)) && Schedule(Handshake.Exited(TwoRuns(), 7)) == ThreeRuns()
    ensures HasIdle(ThreeRuns()) && Schedule(ThreeRuns()) == InitResumes()
    ensures InitResumes().tasks[2] == Task(3, 1, Ready)
    ensures Handshake.Collect(InitResumes(), 3) == (Update(InitResumes(), 2, Task(3, 1, Dead)), 0)
  {
    InitWaits();
    TwoExits();
    ThreePreempted();
    FindsThree(InitResumes());
    hide Schedule, HasIdle, Handshake.Exited, Handshake.BlockedInWait;
  }

  lemma ChildTwoExits(q: Queue)
    requires q.tasks == [Task(2, 1, Running), Task(3, 1, Ready), Task(0, 0, Ready), Task(1, 0, Blocked)]
    ensures Handshake.Exited(q, 7).tasks ==
            [Info(2, 1, Zombie, 0, 0, 7), Task(3, 1, Ready), Task(0, 0, Ready), Info(1, 0, Ready, 0, 2, 0)]
  {
    var tasks := q.tasks[0 := q.tasks[0].(state := Zombie, retVal := 7)];
    assert Find(tasks, 1, 3) == 3;
    assert Find(tasks, 1, 2) == 3;
    assert Find(tasks, 1, 1) == 3;
    assert Find(tasks, 1, 0) == 3;
  }

  lemma FindsThree(q: Queue)
    requires q == InitResumes()
    ensures Find(q.tasks, 3, 0) == 2 && Handshake.Collect(q, 3) == (Update(q, 2, Task(3, 1, Dead)), 0)
  {
    assert Find(q.tasks, 3, 2) == 2;
    assert Find(q.tasks, 3, 1) == 2;
  }

  /** sleep(0) does not wake at once, and sleep(4294968) not after 4294968 seconds. */
  lemma SleepGoesWrong(t: Info)
    ensures !Timer.WakesAt(Timer.Asleep(t, 0), 0)
    ensures !Timer.WakesAt(Timer.Asleep(t, 4294968), 200 * 4294968)
  {
    Timer.SleepIsAccurateIff(t, 0);
    Timer.SleepIsAccurateIff(t, 4294968);
    hide Timer.WakesAt;
  }
}
