/** What the table of workers shows, read off the labels of the run that led to it. */
module WorkerLabels {
  import opened Common
  import opened Workers

  // ---------- who is in which slot ----------

  /** The children in the order of their forks; slot i is for the i-th of them. */
  function Forked(run: seq<Step>): seq<nat> {
    if run == [] then []
    else Forked(run[..|run| - 1]) + if run[|run| - 1].Fork? then [run[|run| - 1].pid] else []
  }

  function Publications(run: seq<Step>): nat {
    if run == [] then 0
    else Publications(run[..|run| - 1]) + if run[|run| - 1].Publish? then 1 else 0
  }

  ghost predicate AllDifferent(ps: seq<nat>) {
    forall i, j :: 0 <= i < j < |ps| ==> ps[i] != ps[j]
  }

  lemma LastStep(run: seq<Step>) returns (pre: seq<Step>, a: Step, s: State)
    requires run != [] && Exec(run).Some?
    ensures run == pre + [a] && |pre| < |run| && pre == run[..|run| - 1]
    ensures Exec(pre) == Some(s) && Enabled(s, a) && Exec(run) == Some(Next(s, a))
  {
    pre, a := run[..|run| - 1], run[|run| - 1];
    s := Exec(pre).value;
  }

  lemma WindowStep(s: State, a: Step)
    requires Enabled(s, a)
    ensures var s' := Next(s, a);
            && s'.count == s.count + (if a.Publish? then 1 else 0)
            && s'.used == s.used + (if a.Fork? then {a.pid} else {})
            && (s'.pc.Window? <==> a.Fork? || (s.pc.Window? && !a.Publish?))
            && (s'.pc.Window? ==> s'.pc.pid == if a.Fork? then a.pid else s.pc.pid)
            && (a.Fork? ==> !s.pc.Window? && a.pid !in s.used)
            && (a.Publish? ==> s.pc.Window?)
  {
  }

  /** Forks and publications as the state counts them. */
  lemma {:induction false} ForkedAre(run: seq<Step>)
    requires Exec(run).Some?
    ensures var s, ps := Exec(run).value, Forked(run);
            && s.count == Publications(run) && AllDifferent(ps) && (forall p :: p in ps ==> p in s.used)
            && |ps| == s.count + (if s.pc.Window? then 1 else 0)
            && (s.pc.Window? ==> ps[s.count] == s.pc.pid)
  {
    if run == [] {
    } else {
      var pre, a, s := LastStep(run);
      ForkedAre(pre);
      WindowStep(s, a);
    }
  }

  // ---------- how the children ended ----------

  lemma ZombieStep(s: State, a: Step, p: nat)
    requires Enabled(s, a) && p in Next(s, a).zombies
    ensures a == Exit(p, Next(s, a).zombies[p]) || (p in s.zombies && s.zombies[p] == Next(s, a).zombies[p])
  {
  }

  lemma RunningStep(s: State, a: Step, p: nat)
    requires Enabled(s, a) && p in Running(Next(s, a))
    ensures a == Fork(p) || p in Running(s)
    ensures a == Fork(p) ==> p !in s.used
    ensures !(a.Exit? && a.pid == p)
  {
  }

  lemma ExitingWasRunning(s: State, a: Step)
    requires Recorded(s) && a.Exit? && Enabled(s, a)
    ensures a.pid in Running(s) && a.pid in s.used
    ensures a.pid in Next(s, a).zombies && Next(s, a).zombies[a.pid] == a.how
  {
  }

  /** How a child ended is what its Exit label says, once it has one. */
  ghost predicate Ended(s: State, p: nat, how: Death) {
    p in s.used && p !in Running(s) && (p in s.zombies ==> s.zombies[p] == how)
  }

  lemma EndedStays(s: State, a: Step, p: nat, how: Death)
    requires Enabled(s, a) && Ended(s, p, how)
    ensures Ended(Next(s, a), p, how)
  {
    var s' := Next(s, a);
    WindowStep(s, a);
    if p in Running(s') {
      RunningStep(s, a, p);
    }
    if p in s'.zombies {
      ZombieStep(s, a, p);
    }
  }

  lemma {:induction false} ExitLabels(run: seq<Step>, p: nat, how: Death)
    requires Exec(run).Some?
    ensures var s := Exec(run).value;
            && (p in s.zombies ==> Exit(p, s.zombies[p]) in run)
            && (Exit(p, how) in run ==> Ended(s, p, how))
  {
    if run == [] {
    } else {
      var pre, a, s := LastStep(run);
      ExitLabels(pre, p, how);
      if p in Next(s, a).zombies {
        ZombieStep(s, a, p);
      }
      if Exit(p, how) in pre {
        EndedStays(s, a, p, how);
      } else if a == Exit(p, how) {
        EveryRunKeepsInv(pre);
        ExitingWasRunning(s, a);
        WindowStep(s, a);
      }
    }
  }

  /** A child ends in one way only. */
  lemma {:induction false} EndsOneWay(run: seq<Step>, p: nat)
    requires Exec(run).Some?
    ensures !(Exit(p, Exited) in run && Exit(p, Signaled) in run)
  {
    if run == [] {
    } else {
      var pre, a, s := LastStep(run);
      EndsOneWay(pre, p);
      ExitLabels(pre, p, Exited);
      ExitLabels(pre, p, Signaled);
    }
  }

  // ---------- what an empty slot says ----------

  /** The handler reaped the child of slot i after the slot was published. */
  predicate Vacated(run: seq<Step>, i: nat) {
    run != [] &&
    (Vacated(run[..|run| - 1], i) ||
     (i < Publications(run[..|run| - 1]) && i < |Forked(run[..|run| - 1])| &&
      run[|run| - 1] == Reap(Forked(run[..|run| - 1])[i])))
  }

  /** Slot w for child p, given whether the handler vacated it and whether the child exited normally. */
  ghost predicate Tells(w: Worker, p: nat, vacated: bool, normally: bool) {
    if vacated then w == Worker(0, if normally then Idle else Failed)
    else w == Worker(p, Busy) || w == Worker(0, Failed)
  }

  lemma ReapTells(s: State, p: nat, i: nat, how: Death)
    requires Inv(s) && Enabled(s, Reap(p)) && s.zombies[p] == how && i < s.count
    ensures |Next(s, Reap(p)).workers| == |s.workers|
    ensures Next(s, Reap(p)).workers[i] ==
            if s.workers[i].pid == p then Worker(0, if how == Exited then Idle else Failed) else s.workers[i]
  {
    VacateChangesOne(s.workers, s.count, p, how, 0);
  }

  /** An unreaped child whose slot is published is in it. */
  lemma StillThere(s: State, ps: seq<nat>, i: nat)
    requires Recorded(s) && i < s.count <= |ps| && AllDifferent(ps) && ps[i] in s.children
    requires s.pc.Window? ==> s.count < |ps| && ps[s.count] == s.pc.pid
    requires forall j :: 0 <= j < s.count ==> s.workers[j].pid == 0 || s.workers[j].pid == ps[j]
    ensures s.workers[i].pid == ps[i] > 0
  {
    assert ps[i] in Pids(s.workers, s.count);
    var j := PidsOf(s.workers, s.count, ps[i]);
  }

  ghost predicate AllTell(run: seq<Step>)
    requires Exec(run).Some?
  {
    var s, ps := Exec(run).value, Forked(run);
    && s.count <= |ps| && s.count <= |s.workers|
    && forall i :: 0 <= i < s.count ==>
         Tells(s.workers[i], ps[i], Vacated(run, i), Exit(ps[i], Exited) in run)
  }

  lemma ChildInSlot(pre: seq<Step>, i: nat)
    requires Exec(pre).Some? && AllTell(pre) && i < Exec(pre).value.count
    requires Forked(pre)[i] in Exec(pre).value.children
    ensures Exec(pre).value.workers[i].pid == Forked(pre)[i] && !Vacated(pre, i)
  {
    SlotPids(pre);
    assert Recorded(Exec(pre).value) by {
      EveryRunKeepsInv(pre);
    }
    ForkedAre(pre);
    StillThere(Exec(pre).value, Forked(pre), i);
    assert Tells(Exec(pre).value.workers[i], Forked(pre)[i], Vacated(pre, i), Exit(Forked(pre)[i], Exited) in pre);
  }

  lemma SlotPids(run: seq<Step>)
    requires Exec(run).Some? && AllTell(run)
    ensures var s := Exec(run).value;
            forall j :: 0 <= j < s.count ==> s.workers[j].pid == 0 || s.workers[j].pid == Forked(run)[j]
  {
  }

  lemma ReapStep(pre: seq<Step>, p: nat, i: nat)
    requires Exec(pre).Some? && AllTell(pre) && Enabled(Exec(pre).value, Reap(p)) && i < Exec(pre).value.count
    ensures var s' := Next(Exec(pre).value, Reap(p));
            && i < |s'.workers|
            && Tells(s'.workers[i], Forked(pre)[i], Vacated(pre, i) || p == Forked(pre)[i],
                     Exit(Forked(pre)[i], Exited) in pre)
  {
    var s := Exec(pre).value;
    ReapedIsChild(pre, p);
    ExitLabels(pre, p, Exited);
    ReapTells(s, p, i, s.zombies[p]);
    if p == Forked(pre)[i] {
      ChildInSlot(pre, i);
    }
  }

  lemma ReapedIsChild(pre: seq<Step>, p: nat)
    requires Exec(pre).Some? && p in Exec(pre).value.zombies
    ensures p in Exec(pre).value.children && p > 0 && Inv(Exec(pre).value)
  {
    EveryRunKeepsInv(pre);
    ZombiesAreChildren(Exec(pre).value);
  }

  lemma ZombiesAreChildren(s: State)
    requires Recorded(s)
    ensures forall p :: p in s.zombies ==> p in s.children && p > 0
  {
  }

  lemma ExitStep(pre: seq<Step>, p: nat, how: Death, i: nat)
    requires Exec(pre).Some? && AllTell(pre) && Enabled(Exec(pre).value, Exit(p, how)) && i < Exec(pre).value.count
    ensures Tells(Exec(pre).value.workers[i], Forked(pre)[i], Vacated(pre, i),
                  Exit(Forked(pre)[i], Exited) in pre || (p == Forked(pre)[i] && how == Exited))
  {
    if p == Forked(pre)[i] {
      ChildInSlot(pre, i);
    }
  }

  lemma OtherStep(s: State, a: Step, i: nat)
    requires Inv(s) && Enabled(s, a) && !a.Reap? && i < s.count
    ensures i < |Next(s, a).workers|
    ensures Next(s, a).workers[i] == s.workers[i] || (a.Monitor? && s.workers[i].pid > 0 &&
              Next(s, a).workers[i] == Worker(0, Failed))
  {
  }

  lemma SlotStep(run: seq<Step>, pre: seq<Step>, a: Step, i: nat)
    requires run == pre + [a] && Exec(pre).Some? && Enabled(Exec(pre).value, a) && AllTell(pre)
    requires Exec(run) == Some(Next(Exec(pre).value, a)) && i < Exec(pre).value.count
    ensures i < |Forked(run)| && i < |Exec(run).value.workers|
    ensures Tells(Exec(run).value.workers[i], Forked(run)[i], Vacated(run, i), Exit(Forked(run)[i], Exited) in run)
  {
    var s := Exec(pre).value;
    EveryRunKeepsInv(pre);
    ForkedAre(pre);
    assert run[..|run| - 1] == pre && run[|run| - 1] == a;
    var p := Forked(pre)[i];
    assert Forked(run)[i] == p;
    assert Exit(p, Exited) in run <==> Exit(p, Exited) in pre || a == Exit(p, Exited);
    assert Vacated(run, i) <==> Vacated(pre, i) || a == Reap(p);
    if a.Reap? {
      ReapStep(pre, a.pid, i);
    } else if a.Exit? {
      ExitStep(pre, a.pid, a.how, i);
    } else {
      OtherStep(s, a, i);
    }
  }

  lemma PublishTells(run: seq<Step>, pre: seq<Step>)
    requires run == pre + [Publish] && Exec(pre).Some? && Enabled(Exec(pre).value, Publish)
    requires Exec(run) == Some(Next(Exec(pre).value, Publish))
    ensures var i := Exec(pre).value.count;
            && i < |Forked(run)| && i < |Exec(run).value.workers|
            && Exec(run).value.workers[i] == Worker(Forked(run)[i], Busy) && !Vacated(run, i)
  {
    EveryRunKeepsInv(pre);
    ForkedAre(pre);
    assert run[..|run| - 1] == pre;
    NotVacatedYet(pre, Publications(pre));
  }

  lemma {:induction false} NotVacatedYet(run: seq<Step>, i: nat)
    requires i >= Publications(run)
    ensures !Vacated(run, i)
  {
    if run == [] {
    } else {
      NotVacatedYet(run[..|run| - 1], i);
    }
  }

  lemma {:induction false} SlotsTell(run: seq<Step>)
    requires Exec(run).Some?
    ensures AllTell(run)
  {
    ForkedAre(run);
    EveryRunKeepsInv(run);
    if run == [] {
    } else {
      var pre, a, s := LastStep(run);
      SlotsTell(pre);
      var s' := Exec(run).value;
      assert s'.count == s.count + if a.Publish? then 1 else 0;
      forall i | 0 <= i < s'.count
        ensures Tells(s'.workers[i], Forked(run)[i], Vacated(run, i), Exit(Forked(run)[i], Exited) in run)
      {
        if i == s.count {
          PublishTells(run, pre);
        } else {
          SlotStep(run, pre, a, i);
        }
      }
    }
  }

  /** Over every run: a published slot is for the child of its fork.  It is busy with that child or empty.
      An empty one is idle exactly when the handler vacated it and its child exited normally, and failed
      otherwise: killed by a signal, or reaped before the slot was published and found gone by a monitor
      pass.  No monitor pass ever changes an empty slot. */
  lemma EmptySlots(run: seq<Step>, i: nat)
    requires Exec(run).Some? && i < Exec(run).value.count
    ensures var s := Exec(run).value;
            && i < |Forked(run)| && i < |s.workers|
            && (s.workers[i] == Worker(Forked(run)[i], Busy) || s.workers[i] == Worker(0, Idle)
                || s.workers[i] == Worker(0, Failed))
            && (s.workers[i] == Worker(0, Idle) <==> Vacated(run, i) && Exit(Forked(run)[i], Exited) in run)
            && (Vacated(run, i) && Exit(Forked(run)[i], Signaled) in run ==> s.workers[i] == Worker(0, Failed))
            && (Enabled(s, Monitor) && s.workers[i].pid == 0 ==>
                  |Next(s, Monitor).workers| > i && Next(s, Monitor).workers[i] == s.workers[i])
  {
    SlotsTell(run);
    EveryRunKeepsInv(run);
    EndsOneWay(run, Forked(run)[i]);
    var s := Exec(run).value;
    assert Tells(s.workers[i], Forked(run)[i], Vacated(run, i), Exit(Forked(run)[i], Exited) in run);
  }

  // ---------- how often there is a fork ----------

  function Ticks(run: seq<Step>): nat {
    if run == [] then 0 else Ticks(run[..|run| - 1]) + if run[|run| - 1].Tick? then 1 else 0
  }

  lemma {:induction false} LoopCountIsTicks(run: seq<Step>)
    requires Exec(run).Some?
    ensures Exec(run).value.loopCount == Ticks(run)
  {
    if run == [] {
    } else {
      var pre, a, s := LastStep(run);
      LoopCountIsTicks(pre);
    }
  }

  lemma {:induction false} PrefixRuns(run: seq<Step>, n: nat)
    requires Exec(run).Some? && n <= |run|
    ensures Exec(run[..n]).Some?
  {
    if n == |run| {
      assert run[..n] == run;
    } else {
      assert run[..|run| - 1][..n] == run[..n];
      PrefixRuns(run[..|run| - 1], n);
    }
  }

  /** After a fork and before the next tick the loop does not come back to its decision. */
  lemma {:induction false} TickAfterFork(run: seq<Step>, i: nat)
    requires Exec(run).Some? && i < |run| && run[i].Fork?
    ensures Ticks(run) >= Ticks(run[..i])
    ensures var pc := Exec(run).value.pc; Ticks(run) > Ticks(run[..i]) || pc.Window? || pc.Ticking?
  {
    var pre, a, s := LastStep(run);
    if i == |run| - 1 {
    } else {
      assert pre[..i] == run[..i];
      TickAfterFork(pre, i);
    }
  }

  lemma MultiplesApart(a: nat, b: nat)
    requires a < b && a % 30 == 0 && b % 30 == 0
    ensures b >= a + 30
  {
  }

  /** The main loop has just decided to fork. */
  predicate Due(run: seq<Step>) {
    Exec(run).Some? && Exec(run).value.pc.Decide? && Ticks(run) % 30 == 0
  }

  lemma ForkIsDue(run: seq<Step>)
    requires run != [] && Exec(run).Some? && run[|run| - 1].Fork?
    ensures Due(run[..|run| - 1])
  {
    LoopCountIsTicks(run[..|run| - 1]);
  }

  lemma ForkInRunIsDue(run: seq<Step>, i: nat)
    requires Exec(run).Some? && i < |run| && run[i].Fork?
    ensures Due(run[..i])
  {
    PrefixRuns(run, i + 1);
    assert run[..i + 1][..i] == run[..i];
    ForkIsDue(run[..i + 1]);
  }

  lemma DueAgain(run: seq<Step>, i: nat)
    requires Due(run) && i < |run| && run[i].Fork? && Due(run[..i])
    ensures Ticks(run) >= Ticks(run[..i]) + 30
  {
    TickAfterFork(run, i);
    MultiplesApart(Ticks(run[..i]), Ticks(run));
  }

  /** Over every run: between two forks there are at least thirty ticks of the main loop. */
  lemma ForksAreSpaced(run: seq<Step>, i: nat, j: nat)
    requires Exec(run).Some? && i < j < |run| && run[i].Fork? && run[j].Fork?
    ensures Ticks(run[..j]) >= Ticks(run[..i]) + 30
  {
    ForkInRunIsDue(run, i);
    ForkInRunIsDue(run, j);
    SpacedWithin(run[..j], run[..i]);
  }

  lemma SpacedWithin(run: seq<Step>, pre: seq<Step>)
    requires Due(run) && Due(pre) && |pre| < |run| && pre == run[..|pre|] && run[|pre|].Fork?
    ensures Ticks(run) >= Ticks(pre) + 30
  {
    DueAgain(run, |pre|);
  }
}
