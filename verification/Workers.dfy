/** Worker supervision in the daemon: fork, record, reap, monitor and shut down.

    The main thread runs the loop of daemon_main.c step by step.  Children exit, and the SIGCHLD
    handler reaps them, at any point in between, in particular after a fork and before the slot of
    the new child is published by the increment of worker_count.  A pid is not handed out twice. */
module Workers {
  import opened Common

  const MAX_WORKERS := 10
  const SPAWN_PERIOD := 30
  const TARGET := 3

  datatype Status = Idle | Busy | Failed
  datatype Worker = Worker(pid: nat, status: Status)  // pid 0: no process in this slot
  datatype Death = Exited | Signaled

  const VACANT := Worker(0, Idle)

  // ---------- one pass over the slots ----------

  function StatusAfter(how: Death): Status {
    if how == Exited then Idle else Failed
  }

  /** The handler's search: the first published slot holding the pid is vacated, if there is one. */
  function Vacate(ws: seq<Worker>, count: nat, pid: nat, how: Death, from: nat := 0): (r: seq<Worker>)
    requires from <= count <= |ws|
    ensures |r| == |ws|
    decreases count - from
  {
    if from == count then ws
    else if ws[from].pid == pid then ws[from := Worker(0, StatusAfter(how))]
    else Vacate(ws, count, pid, how, from + 1)
  }

  /** kill(pid, 0) fails with ESRCH exactly for a pid that is no longer a child. */
  function Checked(w: Worker, children: set<nat>): Worker {
    if w.pid > 0 && w.pid !in children then Worker(0, Failed) else w
  }

  function Swept(ws: seq<Worker>, count: nat, children: set<nat>): (r: seq<Worker>)
    requires count <= |ws|
    ensures |r| == |ws|
    ensures forall i :: 0 <= i < count ==> r[i] == Checked(ws[i], children)
    ensures forall i :: count <= i < |ws| ==> r[i] == ws[i]
  {
    seq(|ws|, i requires 0 <= i < |ws| => if i < count then Checked(ws[i], children) else ws[i])
  }

  function Alive(ws: seq<Worker>, n: nat, children: set<nat>): nat
    requires n <= |ws|
  {
    if n == 0 then 0
    else Alive(ws, n - 1, children) + if ws[n - 1].pid > 0 && ws[n - 1].pid in children then 1 else 0
  }

  // ---------- the daemon and its children ----------

  datatype Pc =
    | Top                          // the test of daemon_running
    | Decide(active: nat)          // daemon_monitor_workers has returned
    | Window(pid: nat, filled: bool)  // forked, slot not published yet
    | Ticking                      // sleep, then loop_count++
    | Terming(i: nat)              // first loop of daemon_shutdown, before the test of slot i
    | TermSend(i: nat)             // the test saw a pid; kill will read the slot again
    | Waiting                      // its sleep
    | Killing(i: nat)              // second loop of daemon_shutdown, before the test of slot i
    | KillProbe(i: nat)            // the test saw a pid; kill(pid, 0) will read the slot again
    | KillSend(i: nat)             // the probe succeeded; kill will read the slot a third time
    | LastReap                     // its closing daemon_reap_zombies
    | Done
    | Dead                         // the daemon has sent SIGKILL to its own process group

  datatype State = State(
    workers: seq<Worker>, count: nat,        // the supervisor's table
    children: set<nat>, zombies: map<nat, Death>,  // unreaped children, and those of them that exited
    pc: Pc, loopCount: nat, stop: bool,
    used: set<nat>,                          // pids ever forked
    missed: set<nat>,                        // children reaped before their slot was published
    leaving: set<nat>,                       // children unreaped when shutdown began
    early: set<nat>,                         // children reaped in the first loop before their signal
    termed: set<nat>, killed: set<nat>)      // sent SIGTERM and SIGKILL; 0 is the daemon's process group

  function Running(s: State): set<nat> {
    s.children - s.zombies.Keys
  }

  /** Whom kill(pid, sig) reaches: an unreaped child of that pid, nobody when there is none, and for pid 0
      the whole process group, the daemon and all its children. */
  function Hit(s: State, pid: nat): set<nat> {
    if pid == 0 then s.children + {0} else if pid in s.children then {pid} else {}
  }

  datatype Step =
    | Stop | Exit(pid: nat, how: Death) | Reap(pid: nat)   // signals and children, at any point
    | Monitor | Fork(pid: nat) | NoFork | Fill | Publish | Tick
    | Leave | TestTerm | SendTerm | Wait | TestKill | ProbeKill | SendKill | Finish

  predicate Enabled(s: State, a: Step) {
    match a
    case Stop => true
    case Exit(pid, _) => pid in Running(s)
    case Reap(pid) => pid in s.zombies && s.count <= |s.workers|
    case Monitor => s.pc.Top? && !s.stop && s.count <= |s.workers|
    case Fork(pid) =>
      && s.pc.Decide? && s.loopCount % SPAWN_PERIOD == 0 && s.pc.active < TARGET
      && s.count < MAX_WORKERS
      && pid > 0 && pid !in s.used
    case NoFork => s.pc.Decide?  // not due, table full, or malloc or fork failed
    case Fill => s.pc.Window? && !s.pc.filled && s.count < |s.workers|
    case Publish => s.pc.Window? && s.pc.filled
    case Tick => s.pc.Ticking?
    case Leave => s.pc.Top? && s.stop
    case TestTerm => s.pc.Terming? && s.pc.i <= s.count <= |s.workers|
    case SendTerm => s.pc.TermSend? && s.pc.i < |s.workers|
    case Wait => s.pc.Waiting?
    case TestKill => s.pc.Killing? && s.pc.i <= s.count <= |s.workers|
    case ProbeKill => s.pc.KillProbe? && s.pc.i < |s.workers|
    case SendKill => s.pc.KillSend? && s.pc.i < |s.workers|
    case Finish => s.pc.LastReap? && s.zombies == map[]  // waitpid found nothing more to reap
  }

  function Next(s: State, a: Step): State
    requires Enabled(s, a)
  {
    match a
    case Stop => s.(stop := true)
    case Exit(pid, how) => s.(zombies := s.zombies[pid := how])
    case Reap(pid) =>
      s.(children := s.children - {pid}, zombies := s.zombies - {pid},
         workers := Vacate(s.workers, s.count, pid, s.zombies[pid]),
         missed := if s.pc.Window? && s.pc.pid == pid then s.missed + {pid} else s.missed,
         early := if InFirstLoop(s.pc) && pid !in s.termed then s.early + {pid} else s.early)
    case Monitor =>
      s.(workers := Swept(s.workers, s.count, s.children),
         pc := Decide(Alive(s.workers, s.count, s.children)))
    case Fork(pid) => s.(children := s.children + {pid}, used := s.used + {pid}, pc := Window(pid, false))
    case NoFork => s.(pc := Ticking)
    case Fill => s.(workers := s.workers[s.count := Worker(s.pc.pid, Busy)], pc := Window(s.pc.pid, true))
    case Publish => s.(count := s.count + 1, pc := Ticking)
    case Tick => s.(loopCount := s.loopCount + 1, pc := Top)
    case Leave => s.(pc := Terming(0), leaving := s.children)
    case TestTerm =>
      s.(pc := if s.pc.i == s.count then Waiting
               else if s.workers[s.pc.i].pid > 0 then TermSend(s.pc.i) else Terming(s.pc.i + 1))
    case SendTerm => s.(pc := Terming(s.pc.i + 1), termed := s.termed + Hit(s, s.workers[s.pc.i].pid))
    case Wait => s.(pc := Killing(0))
    case TestKill =>
      s.(pc := if s.pc.i == s.count then LastReap
               else if s.workers[s.pc.i].pid > 0 then KillProbe(s.pc.i) else Killing(s.pc.i + 1))
    case ProbeKill =>
      s.(pc := if Hit(s, s.workers[s.pc.i].pid) != {} then KillSend(s.pc.i) else Killing(s.pc.i + 1))
    case SendKill =>
      s.(pc := if s.workers[s.pc.i].pid == 0 then Dead else Killing(s.pc.i + 1),
         killed := s.killed + Hit(s, s.workers[s.pc.i].pid))
    case Finish => s.(pc := Done)
  }

  predicate InFirstLoop(pc: Pc) {
    pc.Terming? || pc.TermSend?
  }

  predicate InSecondLoop(pc: Pc) {
    pc.Killing? || pc.KillProbe? || pc.KillSend?
  }

  function Boot(): State {
    State(seq(MAX_WORKERS, _ => VACANT), 0, {}, map[], Top, 0, false, {}, {}, {}, {}, {}, {})
  }

  function Exec(run: seq<Step>): Option<State> {
    if run == [] then Some(Boot()) else
      match Exec(run[..|run| - 1])
      case None => None
      case Some(s) => if Enabled(s, run[|run| - 1]) then Some(Next(s, run[|run| - 1])) else None
  }

  function Forks(run: seq<Step>): nat {
    if run == [] then 0
    else Forks(run[..|run| - 1]) + if run[|run| - 1].Fork? then 1 else 0
  }

  // ---------- what every step keeps ----------

  /** The positive pids of the first n slots. */
  function Pids(ws: seq<Worker>, n: nat): set<nat>
    requires n <= |ws|
  {
    if n == 0 then {}
    else Pids(ws, n - 1) + if ws[n - 1].pid > 0 then {ws[n - 1].pid} else {}
  }

  ghost predicate OnePidPerSlot(ws: seq<Worker>, n: nat)
    requires n <= |ws|
  {
    forall i, j :: 0 <= i < j < n ==> ws[i].pid == 0 || ws[i].pid != ws[j].pid
  }

  function Unpublished(pc: Pc): set<nat> {
    if pc.Window? then {pc.pid} else {}
  }

  /** The table and the children agree: every unreaped child is in exactly one published slot,
      except the one just forked, and every occupied slot names a forked child as busy. */
  ghost predicate Recorded(s: State) {
    && |s.workers| == MAX_WORKERS && s.count <= MAX_WORKERS
    && s.zombies.Keys <= s.children <= s.used && 0 !in s.used
    && s.children <= Pids(s.workers, s.count) + Unpublished(s.pc)
    && Pids(s.workers, s.count) <= s.used
    && Pids(s.workers, s.count) !! Unpublished(s.pc)
    && OnePidPerSlot(s.workers, s.count)
    && (forall i :: 0 <= i < s.count && s.workers[i].pid > 0 ==> s.workers[i].status == Busy)
    && (s.pc.Window? ==> s.count < MAX_WORKERS && s.pc.pid in s.used)
    && (s.pc.Window? && s.pc.filled ==> s.workers[s.count] == Worker(s.pc.pid, Busy))
  }

  /** A slot that names a reaped child is the newest one, its child was reaped before the slot was
      published, and there is none between a monitor pass and the next publication. */
  ghost predicate StaleOnlyNewest(s: State)
    requires s.count <= |s.workers|
  {
    && (s.count > 0 ==> Pids(s.workers, s.count - 1) <= s.children)
    && (s.pc.Decide? || s.pc.Window? ==> Pids(s.workers, s.count) <= s.children)
    && Pids(s.workers, s.count) + Unpublished(s.pc) <= s.children + s.missed
    && s.missed !! s.children && s.missed <= s.used
  }

  ghost predicate Bounded(s: State) {
    && |s.children| <= TARGET
    && (s.pc.Decide? ==> |s.children| <= s.pc.active)
    && |s.used| == s.count + if s.pc.Window? then 1 else 0
  }

  predicate Exiting(pc: Pc) {
    InFirstLoop(pc) || pc.Waiting? || InSecondLoop(pc) || pc.LastReap? || pc.Done? || pc.Dead?
  }

  /** Between a test of a slot and the use of its pid. */
  predicate AtRisk(pc: Pc) {
    pc.TermSend? || pc.KillProbe? || pc.KillSend?
  }

  /** Signals sent so far by shutdown. */
  ghost predicate Signalled(s: State)
    requires s.count <= |s.workers|
  {
    && s.leaving <= s.used
    && (if Exiting(s.pc)
        then s.children <= s.leaving <= s.children + s.termed + s.early && s.termed + s.killed <= s.leaving + {0}
        else s.termed == s.killed == s.early == {})
    && (AtRisk(s.pc) ==> s.pc.i < s.count)
    && (InFirstLoop(s.pc) ==> s.pc.i <= s.count && Pids(s.workers, s.pc.i) * s.children <= s.termed)
    && (Exiting(s.pc) && !InFirstLoop(s.pc) ==> s.children <= s.termed)
    && (InSecondLoop(s.pc) ==> s.pc.i <= s.count && Pids(s.workers, s.pc.i) * s.children <= s.killed)
    && (s.pc.KillSend? ==> s.workers[s.pc.i].pid == 0 || s.workers[s.pc.i].pid in s.children)
    && (s.pc.LastReap? || s.pc.Done? ==> s.children <= s.killed)
  }

  ghost predicate Inv(s: State) {
    Recorded(s) && StaleOnlyNewest(s) && Bounded(s) && Signalled(s)
  }

  // ---------- how the passes change the pids ----------

  lemma {:induction false} PidsOfPrefix(a: seq<Worker>, b: seq<Worker>, n: nat)
    requires n <= |a| == |b| && forall i :: 0 <= i < n ==> a[i] == b[i]
    ensures Pids(a, n) == Pids(b, n)
  {
    if n == 0 {
    } else {
      PidsOfPrefix(a, b, n - 1);
    }
  }

  lemma {:induction false} PidsHas(ws: seq<Worker>, n: nat, i: nat)
    requires i < n <= |ws| && ws[i].pid > 0
    ensures ws[i].pid in Pids(ws, n)
  {
    if i == n - 1 {
    } else {
      PidsHas(ws, n - 1, i);
    }
  }

  lemma {:induction false} PidsOf(ws: seq<Worker>, n: nat, p: nat) returns (i: nat)
    requires n <= |ws| && p in Pids(ws, n)
    ensures i < n && ws[i].pid == p > 0
  {
    if ws[n - 1].pid == p > 0 {
      i := n - 1;
    } else {
      i := PidsOf(ws, n - 1, p);
    }
  }

  lemma {:induction false} VacateChangesOne(ws: seq<Worker>, count: nat, pid: nat, how: Death, from: nat)
    requires from <= count <= |ws| && pid > 0 && OnePidPerSlot(ws, count)
    ensures var r := Vacate(ws, count, pid, how, from);
            forall i :: 0 <= i < |ws| ==>
              r[i] == if from <= i < count && ws[i].pid == pid then Worker(0, StatusAfter(how)) else ws[i]
    decreases count - from
  {
    if from == count || ws[from].pid == pid {
    } else {
      VacateChangesOne(ws, count, pid, how, from + 1);
    }
  }

  lemma {:induction false} PidsAfterVacating(ws: seq<Worker>, r: seq<Worker>, n: nat, pid: nat)
    requires n <= |ws| == |r| && pid > 0
    requires forall i :: 0 <= i < n ==> if ws[i].pid == pid then r[i].pid == 0 else r[i] == ws[i]
    ensures Pids(r, n) == Pids(ws, n) - {pid}
  {
    if n == 0 {
    } else {
      PidsAfterVacating(ws, r, n - 1, pid);
    }
  }

  lemma {:induction false} PidsAfterSweep(ws: seq<Worker>, count: nat, children: set<nat>, n: nat)
    requires n <= count <= |ws|
    ensures Pids(Swept(ws, count, children), n) == Pids(ws, n) * children
  {
    if n == 0 {
    } else {
      PidsAfterSweep(ws, count, children, n - 1);
    }
  }

  lemma SweepKeepsOnePid(ws: seq<Worker>, count: nat, children: set<nat>)
    requires count <= |ws| && OnePidPerSlot(ws, count)
    ensures OnePidPerSlot(Swept(ws, count, children), count)
  {
  }

  lemma NewestPidIsNew(ws: seq<Worker>, n: nat)
    requires 0 < n <= |ws| && OnePidPerSlot(ws, n) && ws[n - 1].pid > 0
    ensures ws[n - 1].pid !in Pids(ws, n - 1)
  {
    if ws[n - 1].pid in Pids(ws, n - 1) {
      var i := PidsOf(ws, n - 1, ws[n - 1].pid);
    }
  }

  lemma OneMore(before: set<nat>, p: nat, children: set<nat>)
    requires p !in before
    ensures |(before + {p}) * children| == |before * children| + if p in children then 1 else 0
  {
    if p in children {
      assert (before + {p}) * children == before * children + {p};
    } else {
      assert (before + {p}) * children == before * children;
    }
  }

  lemma {:induction false} AliveCounts(ws: seq<Worker>, n: nat, children: set<nat>)
    requires n <= |ws| && OnePidPerSlot(ws, n)
    ensures Alive(ws, n, children) == |Pids(ws, n) * children|
  {
    if n == 0 {
      assert Pids(ws, 0) * children == {};
    } else {
      AliveCounts(ws, n - 1, children);
      if ws[n - 1].pid > 0 {
        NewestPidIsNew(ws, n);
        OneMore(Pids(ws, n - 1), ws[n - 1].pid, children);
      } else {
        assert Pids(ws, n) == Pids(ws, n - 1);
      }
    }
  }

  // ---------- each step ----------

  lemma ReapSlots(s: State, pid: nat, n: nat)
    requires Recorded(s) && pid in s.zombies && n <= s.count
    ensures var s' := Next(s, Reap(pid));
            && pid > 0 && pid in s.children
            && Pids(s'.workers, n) == Pids(s.workers, n) - {pid}
            && forall i :: 0 <= i < |s.workers| ==>
                 s'.workers[i] == if i < s.count && s.workers[i].pid == pid
                                  then Worker(0, StatusAfter(s.zombies[pid])) else s.workers[i]
  {
    VacateChangesOne(s.workers, s.count, pid, s.zombies[pid], 0);
    PidsAfterVacating(s.workers, Next(s, Reap(pid)).workers, n, pid);
  }

  lemma ReapKeepsRecorded(s: State, pid: nat)
    requires Recorded(s) && pid in s.zombies
    ensures Recorded(Next(s, Reap(pid)))
  {
    ReapSlots(s, pid, s.count);
  }

  lemma ReapKeepsStale(s: State, pid: nat)
    requires Recorded(s) && StaleOnlyNewest(s) && pid in s.zombies
    ensures StaleOnlyNewest(Next(s, Reap(pid)))
  {
    ReapSlots(s, pid, s.count);
    if s.count > 0 {
      ReapSlots(s, pid, s.count - 1);
    }
    assert pid in Pids(s.workers, s.count) ==> pid !in Unpublished(s.pc);
  }

  lemma ReapKeepsSignalled(s: State, pid: nat)
    requires Recorded(s) && Signalled(s) && pid in s.zombies
    ensures Signalled(Next(s, Reap(pid)))
  {
    ReapSlots(s, pid, s.count);
    if InFirstLoop(s.pc) || InSecondLoop(s.pc) {
      ReapSlots(s, pid, s.pc.i);
    }
  }

  lemma ReapKeepsBounded(s: State, pid: nat)
    requires Bounded(s) && Enabled(s, Reap(pid))
    ensures Bounded(Next(s, Reap(pid)))
  {
    var rest := s.children - {pid};
    if pid in s.children {
      assert s.children == rest + {pid};
    } else {
      assert s.children == rest;
    }
  }

  /** After a monitor pass the positive pids are exactly the unreaped children and the count returned
      is their number, whatever was stale before; a stale slot ends up failed and empty, and every other
      slot stays as it was. */
  lemma MonitorRepairs(s: State)
    requires Recorded(s) && Enabled(s, Monitor)
    ensures var s' := Next(s, Monitor);
            && s'.children == s.children
            && Pids(s'.workers, s'.count) == s.children
            && s'.pc == Decide(|s.children|)
            && forall i :: 0 <= i < s.count ==>
                 s'.workers[i] == if s.workers[i].pid > 0 && s.workers[i].pid !in s.children
                                  then Worker(0, Failed) else s.workers[i]
  {
    AliveCounts(s.workers, s.count, s.children);
    PidsAfterSweep(s.workers, s.count, s.children, s.count);
    assert Pids(s.workers, s.count) * s.children == s.children;
  }

  lemma MonitorKeepsRecorded(s: State)
    requires Recorded(s) && Enabled(s, Monitor)
    ensures Recorded(Next(s, Monitor))
  {
    MonitorRepairs(s);
  }

  lemma MonitorKeepsStale(s: State)
    requires Recorded(s) && StaleOnlyNewest(s) && Enabled(s, Monitor)
    ensures StaleOnlyNewest(Next(s, Monitor))
  {
    MonitorRepairs(s);
    if s.count > 0 {
      PidsAfterSweep(s.workers, s.count, s.children, s.count - 1);
    }
  }

  lemma MonitorKeepsBounded(s: State)
    requires Recorded(s) && Bounded(s) && Enabled(s, Monitor)
    ensures Bounded(Next(s, Monitor))
  {
    MonitorRepairs(s);
  }

  lemma MonitorKeepsSignalled(s: State)
    requires Recorded(s) && Signalled(s) && Enabled(s, Monitor)
    ensures Signalled(Next(s, Monitor))
  {
  }

  lemma MonitorKeepsInv(s: State)
    requires Inv(s) && Enabled(s, Monitor)
    ensures Inv(Next(s, Monitor))
  {
    MonitorKeepsRecorded(s);
    MonitorKeepsStale(s);
    MonitorKeepsBounded(s);
    MonitorKeepsSignalled(s);
  }

  predicate TableStep(a: Step) {
    a.Reap? || a.Monitor? || a.Fill?
  }

  lemma FillKeepsTable(s: State)
    requires Recorded(s) && StaleOnlyNewest(s) && Enabled(s, Fill)
    ensures Recorded(Next(s, Fill)) && StaleOnlyNewest(Next(s, Fill))
  {
    var s' := Next(s, Fill);
    PidsOfPrefix(s.workers, s'.workers, s.count);
    if s.count > 0 {
      PidsOfPrefix(s.workers, s'.workers, s.count - 1);
    }
  }

  lemma PublishKeepsTable(s: State)
    requires Recorded(s) && StaleOnlyNewest(s) && Enabled(s, Publish)
    ensures Recorded(Next(s, Publish)) && StaleOnlyNewest(Next(s, Publish))
  {
    var s' := Next(s, Publish);
    assert Pids(s'.workers, s'.count) == Pids(s.workers, s.count) + {s.pc.pid};
    forall i | 0 <= i < s.count
      ensures s.workers[i].pid != s.pc.pid
    {
      if s.workers[i].pid > 0 {
        PidsHas(s.workers, s.count, i);
      }
    }
  }

  lemma ForkKeepsTable(s: State, pid: nat)
    requires Recorded(s) && StaleOnlyNewest(s) && Enabled(s, Fork(pid))
    ensures Recorded(Next(s, Fork(pid))) && StaleOnlyNewest(Next(s, Fork(pid)))
  {
  }

  lemma OtherStepsKeepRecorded(s: State, a: Step)
    requires Recorded(s) && Enabled(s, a) && !TableStep(a) && !a.Publish? && !a.Fork?
    ensures Recorded(Next(s, a))
  {
    var s' := Next(s, a);
    assert s'.workers == s.workers && s'.count == s.count && s'.children == s.children;
    assert Unpublished(s'.pc) == Unpublished(s.pc);
  }

  lemma OtherStepsKeepStale(s: State, a: Step)
    requires Recorded(s) && StaleOnlyNewest(s) && Enabled(s, a) && !TableStep(a) && !a.Publish? && !a.Fork?
    ensures StaleOnlyNewest(Next(s, a))
  {
    var s' := Next(s, a);
    assert s'.workers == s.workers && s'.count == s.count && s'.children == s.children;
    assert Unpublished(s'.pc) == Unpublished(s.pc);
  }

  lemma OtherStepsKeepBounded(s: State, a: Step)
    requires Bounded(s) && Enabled(s, a) && !a.Reap? && !a.Monitor?
    ensures Bounded(Next(s, a))
  {
    if a.Fork? {
      var s' := Next(s, a);
      assert |s'.children| <= |s.children| + 1 by {
        if a.pid in s.children {
          assert s'.children == s.children;
        }
      }
    }
  }

  lemma SendTermKeepsSignalled(s: State)
    requires Recorded(s) && Signalled(s) && Enabled(s, SendTerm)
    ensures Signalled(Next(s, SendTerm))
  {
    var s' := Next(s, SendTerm);
    assert Pids(s.workers, s.pc.i + 1) * s.children <= s'.termed;
  }

  lemma SendKillKeepsSignalled(s: State)
    requires Recorded(s) && Signalled(s) && Enabled(s, SendKill)
    ensures Signalled(Next(s, SendKill))
  {
    var s' := Next(s, SendKill);
    assert Pids(s.workers, s.pc.i + 1) * s.children <= s'.killed;
  }

  predicate TestStep(a: Step) {
    a.TestTerm? || a.TestKill? || a.ProbeKill?
  }

  lemma TestsKeepSignalled(s: State, a: Step)
    requires Recorded(s) && Signalled(s) && Enabled(s, a) && TestStep(a)
    ensures Signalled(Next(s, a))
  {
  }

  lemma QuietStepsKeepSignalled(s: State, a: Step)
    requires Recorded(s) && Signalled(s) && Enabled(s, a)
    requires !TableStep(a) && !TestStep(a) && !a.SendTerm? && !a.SendKill?
    ensures Signalled(Next(s, a))
  {
  }

  lemma OtherStepsKeepSignalled(s: State, a: Step)
    requires Recorded(s) && Signalled(s) && Enabled(s, a) && !TableStep(a)
    ensures Signalled(Next(s, a))
  {
    if a.SendTerm? {
      SendTermKeepsSignalled(s);
    } else if a.SendKill? {
      SendKillKeepsSignalled(s);
    } else if TestStep(a) {
      TestsKeepSignalled(s, a);
    } else {
      QuietStepsKeepSignalled(s, a);
    }
  }

  lemma ReapKeepsInv(s: State, pid: nat)
    requires Inv(s) && Enabled(s, Reap(pid))
    ensures Inv(Next(s, Reap(pid)))
  {
    ReapKeepsRecorded(s, pid);
    ReapKeepsStale(s, pid);
    ReapKeepsBounded(s, pid);
    ReapKeepsSignalled(s, pid);
  }

  lemma FillKeepsInv(s: State)
    requires Inv(s) && Enabled(s, Fill)
    ensures Inv(Next(s, Fill))
  {
    FillKeepsTable(s);
    OtherStepsKeepBounded(s, Fill);
  }

  lemma OtherStepsKeepInv(s: State, a: Step)
    requires Inv(s) && Enabled(s, a) && !TableStep(a)
    ensures Inv(Next(s, a))
  {
    if a.Publish? {
      PublishKeepsTable(s);
    } else if a.Fork? {
      ForkKeepsTable(s, a.pid);
    } else {
      OtherStepsKeepRecorded(s, a);
      OtherStepsKeepStale(s, a);
    }
    OtherStepsKeepBounded(s, a);
    OtherStepsKeepSignalled(s, a);
  }

  lemma StepKeepsInv(s: State, a: Step)
    requires Inv(s) && Enabled(s, a)
    ensures Inv(Next(s, a))
  {
    if a.Reap? {
      ReapKeepsInv(s, a.pid);
    } else if a.Monitor? {
      MonitorKeepsInv(s);
    } else if a.Fill? {
      FillKeepsInv(s);
    } else {
      OtherStepsKeepInv(s, a);
    }
  }

  lemma BootKeepsInv()
    ensures Inv(Boot())
  {
  }

  lemma UsedGrows(s: State, a: Step)
    requires Enabled(s, a)
    ensures |Next(s, a).used| == |s.used| + if a.Fork? then 1 else 0
  {
  }

  /** Every reachable state, for any timing of exits and of the handler. */
  lemma {:induction false} EveryRunKeepsInv(run: seq<Step>)
    requires Exec(run).Some?
    ensures Inv(Exec(run).value)
    ensures |Exec(run).value.used| == Forks(run)
  {
    if run == [] {
      BootKeepsInv();
    } else {
      var pre := run[..|run| - 1];
      EveryRunKeepsInv(pre);
      StepKeepsInv(Exec(pre).value, run[|run| - 1]);
      UsedGrows(Exec(pre).value, run[|run| - 1]);
    }
  }

  // ---------- what this means for every run ----------

  /** At most three unreaped workers at once, and ten forks over the whole life of the daemon. */
  lemma WorkersAreBounded(run: seq<Step>)
    requires Exec(run).Some?
    ensures |Exec(run).value.children| <= 3
    ensures Forks(run) <= 10
  {
    EveryRunKeepsInv(run);
  }

  /** Outside its window an unreaped child is in exactly one published slot, as busy. */
  lemma OneSlotPerChild(run: seq<Step>, p: nat) returns (i: nat)
    requires Exec(run).Some? && p in Exec(run).value.children
    requires p !in Unpublished(Exec(run).value.pc)
    ensures var s := Exec(run).value;
            && i < s.count <= |s.workers|
            && s.workers[i] == Worker(p, Busy)
            && forall j :: 0 <= j < s.count && s.workers[j].pid == p ==> j == i
  {
    var s := Exec(run).value;
    EveryRunKeepsInv(run);
    i := PidsOf(s.workers, s.count, p);
  }

  /** An occupied slot is stale exactly when its child was reaped in its own window; then it is the
      newest slot, and one monitor pass empties it. */
  lemma StaleSlots(run: seq<Step>, i: nat)
    requires Exec(run).Some?
    requires i < Exec(run).value.count <= |Exec(run).value.workers| && Exec(run).value.workers[i].pid > 0
    ensures var s := Exec(run).value;
            var p := s.workers[i].pid;
            && (p !in s.children <==> p in s.missed)
            && (p !in s.children ==> i == s.count - 1)
            && (p !in s.children && Enabled(s, Monitor) ==>
                  Next(s, Monitor).workers[i] == Worker(0, Failed) &&
                  Next(s, Monitor).pc == Decide(|s.children|))
  {
    var s := Exec(run).value;
    EveryRunKeepsInv(run);
    PidsHas(s.workers, s.count, i);
    if i < s.count - 1 {
      PidsHas(s.workers, s.count - 1, i);
    }
    if Enabled(s, Monitor) {
      MonitorRepairs(s);
    }
  }

  /** When shutdown is over, every worker there was at its start has been sent SIGTERM or was reaped in
      the first loop before its signal, and every worker still running has been sent SIGKILL. */
  lemma ShutdownReachesEveryone(run: seq<Step>)
    requires Exec(run).Some? && Exec(run).value.pc.Done?
    ensures var s := Exec(run).value;
            && s.leaving <= s.termed + s.early
            && Running(s) <= s.killed
  {
    EveryRunKeepsInv(run);
  }

  /** The handler vacates a slot between a test of it and the use of its pid. */
  predicate Slip(s: State, a: Step) {
    AtRisk(s.pc) && s.pc.i < |s.workers| && a.Reap? && s.workers[s.pc.i].pid == a.pid
  }

  predicate Slipped(run: seq<Step>)
    requires Exec(run).Some?
  {
    run != [] && (Slipped(run[..|run| - 1]) || Slip(Exec(run[..|run| - 1]).value, run[|run| - 1]))
  }

  /** The pid about to be used has become 0. */
  predicate Aimed(s: State) {
    AtRisk(s.pc) && s.pc.i < |s.workers| && s.workers[s.pc.i].pid == 0
  }

  predicate GroupHit(s: State) {
    0 in s.termed + s.killed
  }

  lemma SlipOnReap(s: State, pid: nat)
    requires Recorded(s) && (AtRisk(s.pc) ==> s.pc.i < s.count) && Enabled(s, Reap(pid))
    ensures GroupHit(Next(s, Reap(pid))) <==> GroupHit(s)
    ensures Aimed(Next(s, Reap(pid))) <==> Aimed(s) || Slip(s, Reap(pid))
  {
    ReapSlots(s, pid, 0);
  }

  lemma SlipOnSend(s: State, a: Step)
    requires 0 !in s.children && (a.SendTerm? || a.SendKill?) && Enabled(s, a)
    ensures GroupHit(Next(s, a)) <==> GroupHit(s) || Aimed(s)
    ensures !Aimed(Next(s, a))
  {
  }

  lemma SlipOnTest(s: State, a: Step)
    requires TestStep(a) && Enabled(s, a)
    ensures GroupHit(Next(s, a)) <==> GroupHit(s)
    ensures Aimed(Next(s, a)) <==> Aimed(s)
  {
  }

  lemma SlipOnOther(s: State, a: Step)
    requires Enabled(s, a) && !a.Reap? && !TestStep(a) && !a.SendTerm? && !a.SendKill?
    ensures GroupHit(Next(s, a)) <==> GroupHit(s)
    ensures Aimed(Next(s, a)) <==> Aimed(s)
  {
  }

  lemma SlipStep(s: State, a: Step)
    requires Inv(s) && Enabled(s, a)
    ensures GroupHit(Next(s, a)) || Aimed(Next(s, a)) <==> GroupHit(s) || Aimed(s) || Slip(s, a)
  {
    if a.Reap? {
      SlipOnReap(s, a.pid);
    } else if a.SendTerm? || a.SendKill? {
      SlipOnSend(s, a);
    } else if TestStep(a) {
      SlipOnTest(s, a);
    } else {
      SlipOnOther(s, a);
    }
  }

  lemma {:induction false} SlipsHitTheGroup(run: seq<Step>)
    requires Exec(run).Some?
    ensures var s := Exec(run).value;
            Slipped(run) <==> GroupHit(s) || Aimed(s)
  {
    if run == [] {
    } else {
      var pre := run[..|run| - 1];
      SlipsHitTheGroup(pre);
      EveryRunKeepsInv(pre);
      SlipStep(Exec(pre).value, run[|run| - 1]);
    }
  }

  /** Shutdown signals workers only, exactly when no slot is vacated between its test and the use of its
      pid; otherwise the daemon's whole process group is signalled, the daemon included. */
  lemma OnlyWorkersSignalledIff(run: seq<Step>)
    requires Exec(run).Some? && !AtRisk(Exec(run).value.pc)
    ensures var s := Exec(run).value;
            && (s.termed + s.killed <= s.leaving <==> !Slipped(run))
            && (Slipped(run) ==> 0 in s.termed + s.killed)
  {
    EveryRunKeepsInv(run);
    SlipsHitTheGroup(run);
  }

  /** One worker, busy in slot 0, when shutdown starts. */
  lemma OneWorkerLeaving() returns (run: seq<Step>)
    ensures Exec(run).Some?
    ensures var s := Exec(run).value;
            && |s.workers| == MAX_WORKERS && s.count == 1 && s.workers[0] == Worker(7, Busy)
            && s.children == {7} == s.leaving && s.zombies == map[] && s.pc == Terming(0) && s.termed == {}
  {
    var r1 := [] + [Monitor];
    var r2 := r1 + [Fork(7)];
    var r3 := r2 + [Fill];
    var r4 := r3 + [Publish];
    var r5 := r4 + [Stop];
    var r6 := r5 + [Tick];
    run := r6 + [Leave];
    assert Exec([]) == Some(Boot());
    ExecSnoc([], Monitor);
    ExecSnoc(r1, Fork(7));
    ExecSnoc(r2, Fill);
    ExecSnoc(r3, Publish);
    ExecSnoc(r4, Stop);
    ExecSnoc(r5, Tick);
    ExecSnoc(r6, Leave);
  }

  /** That worker exits and is reaped between the test of its slot and the kill: SIGTERM goes to the
      process group. */
  lemma GroupSignalWitness() returns (run: seq<Step>)
    ensures Exec(run).Some? && Exec(run).value.pc == Terming(1)
    ensures Slipped(run) && Exec(run).value.termed == {0} && Exec(run).value.leaving == {7}
  {
    var r1 := OneWorkerLeaving();
    var r2 := r1 + [TestTerm];
    var r3 := r2 + [Exit(7, Exited)];
    var r4 := r3 + [Reap(7)];
    run := r4 + [SendTerm];
    ExecSnoc(r1, TestTerm);
    ExecSnoc(r2, Exit(7, Exited));
    ExecSnoc(r3, Reap(7));
    var s := Exec(r4).value;
    assert s.children == {} && s.workers[0].pid == 0;
    ExecSnoc(r4, SendTerm);
    SlipsHitTheGroup(run);
  }

  lemma ExecSnoc(run: seq<Step>, a: Step)
    requires Exec(run).Some? && Enabled(Exec(run).value, a)
    ensures Exec(run + [a]) == Some(Next(Exec(run).value, a))
  {
    assert (run + [a])[..|run|] == run;
  }

  /** The handler firing in the window does leave a stale slot. */
  lemma WindowReapWitness() returns (run: seq<Step>)
    ensures Exec(run).Some?
    ensures var s := Exec(run).value;
            && |s.workers| == MAX_WORKERS && s.count == 1 && s.workers[0] == Worker(7, Busy)
            && s.children == {} && s.missed == {7}
  {
    var r1 := [] + [Monitor];
    var r2 := r1 + [Fork(7)];
    var r3 := r2 + [Exit(7, Exited)];
    var r4 := r3 + [Reap(7)];
    var r5 := r4 + [Fill];
    run := r5 + [Publish];
    assert Exec([]) == Some(Boot());
    ExecSnoc([], Monitor);
    ExecSnoc(r1, Fork(7));
    ExecSnoc(r2, Exit(7, Exited));
    ExecSnoc(r3, Reap(7));
    assert Exec(r4).value.children == {};
    ExecSnoc(r4, Fill);
    ExecSnoc(r5, Publish);
  }

  // ---------- the code ----------

  /** The supervisor's table, with the children the kernel knows of. */
  class Supervisor {
    var workers: array<Worker>
    var count: nat
    var children: set<nat>
    var zombies: map<nat, Death>

    ghost predicate Valid()
      reads this, workers
    {
      && workers.Length == MAX_WORKERS && count <= MAX_WORKERS
      && zombies.Keys <= children && 0 !in children
      && OnePidPerSlot(workers[..], count)
    }

    constructor ()
      ensures Valid() && fresh(workers) && count == 0 && children == {} && zombies == map[]
    {
      workers := new Worker[MAX_WORKERS](_ => VACANT);
      count, children, zombies := 0, {}, map[];
    }

    /** daemon_reap_zombies, one waitpid answer: the inner search loop. */
    method ReapOne(pid: nat)
      requires Valid() && pid in zombies
      modifies this`children, this`zombies, workers
      ensures Valid() && zombies == old(zombies) - {pid} && children == old(children) - {pid}
      ensures workers[..] == Vacate(old(workers[..]), count, pid, old(zombies)[pid])
      ensures forall i :: 0 <= i < MAX_WORKERS ==>
                workers[i] == (if i < count && old(workers[i]).pid == pid
                               then Worker(0, if old(zombies)[pid] == Exited then Idle else Failed)
                               else old(workers[i]))
    {
      var how := zombies[pid];
      children, zombies := children - {pid}, zombies - {pid};
      VacateChangesOne(workers[..], count, pid, how, 0);
      var i := 0;
      while i < count
        invariant 0 <= i <= count
        invariant workers[..] == old(workers[..])
        invariant forall j :: 0 <= j < i ==> workers[j].pid != pid
      {
        if workers[i].pid == pid {
          var status := if how == Exited then Idle else Failed;
          workers[i] := Worker(0, status);
          return;
        }
        i := i + 1;
      }
    }

    /** daemon_reap_zombies: every exited child is reaped, and exactly the published slots of those
        children are vacated, as idle after a normal exit and as failed otherwise. */
    method ReapZombies()
      requires Valid()
      modifies this`children, this`zombies, workers
      ensures Valid() && zombies == map[] && children == old(children - zombies.Keys)
      ensures forall i :: 0 <= i < MAX_WORKERS ==>
                workers[i] == (if i < count && old(workers[i]).pid in old(zombies)
                               then Worker(0, if old(zombies)[old(workers[i]).pid] == Exited then Idle else Failed)
                               else old(workers[i]))
    {
      ghost var all := zombies;
      while zombies != map[]
        invariant Valid()
        invariant zombies.Keys <= all.Keys && forall p :: p in zombies ==> zombies[p] == all[p]
        invariant children == old(children) - (all.Keys - zombies.Keys)
        invariant forall i :: 0 <= i < MAX_WORKERS ==>
                    workers[i] == (if i < count && old(workers[i]).pid in all && old(workers[i]).pid !in zombies
                                   then Worker(0, if all[old(workers[i]).pid] == Exited then Idle else Failed)
                                   else old(workers[i]))
        decreases zombies.Keys
      {
        var pid :| pid in zombies;
        ReapOne(pid);
      }
    }

    /** The body of the monitor loop: a slot whose child is gone becomes failed and empty. */
    method CheckSlot(i: nat) returns (found: bool)
      requires i < workers.Length
      modifies workers
      ensures found == (old(workers[i]).pid > 0 && old(workers[i]).pid in children)
      ensures workers[i] == Checked(old(workers[i]), children)
      ensures forall j :: 0 <= j < workers.Length && j != i ==> workers[j] == old(workers[j])
    {
      found := false;
      if workers[i].pid > 0 {
        if workers[i].pid !in children {
          workers[i] := Worker(0, Failed);
        } else {
          found := true;
        }
      }
    }

    /** daemon_monitor_workers. */
    method MonitorWorkers() returns (active: nat)
      requires Valid()
      modifies workers
      ensures Valid() && workers[..] == Swept(old(workers[..]), count, children)
      ensures forall i :: 0 <= i < MAX_WORKERS ==>
                workers[i] == (if i < count && old(workers[i]).pid > 0 && old(workers[i]).pid !in children
                               then Worker(0, Failed) else old(workers[i]))
      ensures active == |Pids(old(workers[..]), count) * children|
    {
      active := 0;
      AliveCounts(workers[..], count, children);
      ghost var before := workers[..];
      var i := 0;
      while i < count && i < MAX_WORKERS
        invariant 0 <= i <= count
        invariant forall j :: 0 <= j < i ==> workers[j] == Checked(before[j], children)
        invariant forall j :: i <= j < MAX_WORKERS ==> workers[j] == before[j]
        invariant active == Alive(before, i, children)
      {
        var found := CheckSlot(i);
        if found {
          active := active + 1;
        }
        i := i + 1;
      }
      assert workers[..] == Swept(before, count, children);
      SweepKeepsOnePid(before, count, children);
    }

    /** daemon_spawn_worker; forked is what fork returned, negative on failure. */
    method SpawnWorker(forked: int) returns (code: int)
      requires Valid()
      requires forked != 0 && (forked > 0 ==> forked !in children + Pids(workers[..], count))
      modifies this`children, this`count, workers
      ensures Valid()
      ensures code == (if old(count) < MAX_WORKERS && forked > 0 then 0 else -1)
      ensures code == 0 ==>
                && count == old(count) + 1 && children == old(children) + {forked}
                && workers[..] == old(workers[..])[old(count) := Worker(forked, Busy)]
      ensures code != 0 ==> count == old(count) && children == old(children) && workers[..] == old(workers[..])
    {
      if count >= MAX_WORKERS {
        return -1;
      }
      if forked < 0 {
        return -1;
      }
      forall i | 0 <= i < count
        ensures workers[i].pid != forked
      {
        if workers[i].pid > 0 {
          PidsHas(workers[..], count, i);
        }
      }
      children := children + {forked};
      workers[count] := Worker(forked, Busy);
      count := count + 1;
      return 0;
    }
  }
}
