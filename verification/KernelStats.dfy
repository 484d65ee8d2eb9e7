/** The statistics table of the storage_stats kernel module.

    Every call of update_storage_stats takes the spinlock twice: once to find or create the
    device's slot, and once to add the operation to it.  When the slot was created, its address
    is computed from device_count after the first unlock.  The model makes each critical section,
    and that unlocked read, one step, and lets any number of threads interleave them. */
module KernelStats {
  import opened Common

  const MAX_DEVICES := 16

  datatype Update = Update(device: string, isRead: bool, bytes: nat, latency: nat)

  datatype Counters = Counters(readOps: nat, writeOps: nat, readBytes: nat, writeBytes: nat,
                               latency: nat, ops: nat)

  datatype Slot = Slot(name: string, counters: Counters, active: bool)

  datatype Table = Table(slots: seq<Slot>, count: nat)

  const ZERO := Counters(0, 0, 0, 0, 0, 0)
  const BLANK := Slot("", ZERO, false)

  // ---------- counters ----------

  /** What one operation contributes. */
  function One(u: Update): Counters {
    if u.isRead then Counters(1, 0, u.bytes, 0, u.latency, 1)
    else Counters(0, 1, 0, u.bytes, u.latency, 1)
  }

  function Plus(a: Counters, b: Counters): Counters {
    Counters(a.readOps + b.readOps, a.writeOps + b.writeOps, a.readBytes + b.readBytes,
             a.writeBytes + b.writeBytes, a.latency + b.latency, a.ops + b.ops)
  }

  function Wrap(c: Counters): Counters {
    Counters(c.readOps % WORD, c.writeOps % WORD, c.readBytes % WORD,
             c.writeBytes % WORD, c.latency % WORD, c.ops % WORD)
  }

  /** The second critical section on one slot: only the touched fields are written, modulo the word. */
  function Credit(c: Counters, u: Update): Counters {
    var d := if u.isRead then c.(readOps := (c.readOps + 1) % WORD,
                                 readBytes := (c.readBytes + u.bytes) % WORD)
             else c.(writeOps := (c.writeOps + 1) % WORD,
                     writeBytes := (c.writeBytes + u.bytes) % WORD);
    d.(latency := (d.latency + u.latency) % WORD, ops := (d.ops + 1) % WORD)
  }

  /** Reference totals over unbounded integers. */
  function Tally(us: seq<Update>): Counters {
    if us == [] then ZERO else Plus(Tally(us[..|us| - 1]), One(us[|us| - 1]))
  }

  lemma ModPlus(a: nat, b: nat, c: nat)
    requires a % WORD == b % WORD
    ensures (a + c % WORD) % WORD == (b + c) % WORD
  {
    var ka, kb, kc := a / WORD, b / WORD, c / WORD;
    assert a + c % WORD == b + c + (ka - kb - kc) * WORD;
    ModMultiple(b + c, ka - kb - kc);
  }

  lemma ModAdd(a: nat, b: nat)
    ensures (a % WORD + b) % WORD == (a + b) % WORD
  {
    ModMultiple(a % WORD + b, a / WORD);
  }

  lemma CreditWraps(c: Counters, u: Update)
    ensures Credit(Wrap(c), u) == Wrap(Plus(c, One(u)))
  {
    var x, y := Credit(Wrap(c), u), Wrap(Plus(c, One(u)));
    assert x.readOps == y.readOps by { ModAdd(c.readOps, One(u).readOps); }
    assert x.writeOps == y.writeOps by { ModAdd(c.writeOps, One(u).writeOps); }
    assert x.readBytes == y.readBytes by { ModAdd(c.readBytes, One(u).readBytes); }
    assert x.writeBytes == y.writeBytes by { ModAdd(c.writeBytes, One(u).writeBytes); }
    assert x.latency == y.latency by { ModAdd(c.latency, u.latency); }
    assert x.ops == y.ops by { ModAdd(c.ops, 1); }
  }

  lemma TallySnoc(us: seq<Update>, u: Update)
    ensures Tally(us + [u]) == Plus(Tally(us), One(u))
  {
    assert (us + [u])[..|us|] == us;
  }

  lemma {:induction false} TallyOpsSplit(us: seq<Update>)
    ensures Tally(us).ops == Tally(us).readOps + Tally(us).writeOps
  {
    if us == [] {
    } else {
      TallyOpsSplit(us[..|us| - 1]);
    }
  }

  // ---------- the table under one critical section each ----------

  /** The first slot below count whose stored name is the given one, or count. */
  function Find(t: Table, name: string, from: nat := 0): (i: nat)
    requires from <= t.count <= |t.slots|
    ensures from <= i <= t.count
    ensures i < t.count ==> t.slots[i].name == name
    ensures forall j :: from <= j < i ==> t.slots[j].name != name
    decreases t.count - from
  {
    if from == t.count || t.slots[from].name == name then from else Find(t, name, from + 1)
  }

  datatype Outcome = Found(i: nat) | Created | Full

  ghost predicate Shaped(t: Table) {
    && |t.slots| == MAX_DEVICES
    && t.count <= MAX_DEVICES
    && (forall i :: 0 <= i < t.count ==> t.slots[i].active)
    && (forall i :: t.count <= i < MAX_DEVICES ==> t.slots[i] == BLANK)
  }

  function LookupOutcome(t: Table, device: string): Outcome
    requires t.count <= |t.slots|
  {
    var i := Find(t, device);
    if i < t.count then Found(i) else if t.count < MAX_DEVICES then Created else Full
  }

  function LookupTable(t: Table, device: string): Table
    requires t.count <= |t.slots| == MAX_DEVICES
  {
    if LookupOutcome(t, device) == Created
    then Table(t.slots[t.count := Slot(Clip(device), ZERO, true)], t.count + 1)
    else t
  }

  function ApplyTable(t: Table, i: nat, u: Update): Table
    requires i < |t.slots|
  {
    t.(slots := t.slots[i := t.slots[i].(counters := Credit(t.slots[i].counters, u))])
  }

  function ResetSlot(s: Slot, tracked: bool): Slot {
    if tracked then s.(counters := ZERO) else s
  }

  function ResetTable(t: Table): Table
    requires t.count <= |t.slots|
  {
    Table(seq(|t.slots|, i requires 0 <= i < |t.slots| => ResetSlot(t.slots[i], i < t.count)), t.count)
  }

  ghost predicate Distinct(t: Table)
    requires t.count <= |t.slots|
  {
    forall i, j :: 0 <= i < j < t.count ==> t.slots[i].name != t.slots[j].name
  }

  /** A lookup keeps the stored names distinct exactly when it creates nothing, the name fits,
      or the clipped name is not stored yet. */
  lemma LookupKeepsDistinctIff(t: Table, device: string)
    requires Shaped(t) && Distinct(t)
    ensures Distinct(LookupTable(t, device)) <==>
            || LookupOutcome(t, device) != Created
            || |device| <= 63
            || Find(t, Clip(device)) == t.count
  {
    var t' := LookupTable(t, device);
    if LookupOutcome(t, device) == Created {
      var k := Find(t, Clip(device));
      if k < t.count {
        assert t'.slots[k].name == t'.slots[t.count].name;
      }
    }
  }

  // ---------- interleaved runs ----------

  /** Where a thread stands inside update_storage_stats; a thread outside it is not in the map. */
  datatype Phase = Fresh(u: Update) | Holding(u: Update, i: nat)

  datatype State = State(table: Table, threads: map<nat, Phase>)

  datatype Step =
    | Lookup(t: nat, u: Update, o: Outcome)  // first critical section
    | ReadIndex(t: nat)                      // device_count - 1, read after the unlock
    | Apply(t: nat, i: nat, u: Update)       // second critical section
    | Reset

  function EmptyTable(): Table {
    Table(seq(MAX_DEVICES, _ => BLANK), 0)
  }

  predicate Enabled(s: State, a: Step) {
    match a
    case Lookup(t, u, o) =>
      && t !in s.threads && s.table.count <= |s.table.slots| == MAX_DEVICES
      && o == LookupOutcome(s.table, u.device)
    case ReadIndex(t) => t in s.threads && s.threads[t].Fresh? && s.table.count > 0
    case Apply(t, i, u) => t in s.threads && s.threads[t] == Holding(u, i) && i < |s.table.slots|
    case Reset => s.table.count <= |s.table.slots|
  }

  function Next(s: State, a: Step): State
    requires Enabled(s, a)
  {
    match a
    case Lookup(t, u, o) =>
      State(LookupTable(s.table, u.device),
            match o
            case Found(i) => s.threads[t := Holding(u, i)]
            case Created => s.threads[t := Fresh(u)]
            case Full => s.threads)
    case ReadIndex(t) => s.(threads := s.threads[t := Holding(s.threads[t].u, s.table.count - 1)])
    case Apply(t, i, u) => State(ApplyTable(s.table, i, u), s.threads - {t})
    case Reset => s.(table := ResetTable(s.table))
  }

  /** The state after a run from module load, or None when some step was not enabled. */
  function Exec(run: seq<Step>): Option<State> {
    if run == [] then Some(State(EmptyTable(), map[])) else
      match Exec(run[..|run| - 1])
      case None => None
      case Some(s) => if Enabled(s, run[|run| - 1]) then Some(Next(s, run[|run| - 1])) else None
  }

  predicate IsRun(run: seq<Step>) {
    Exec(run).Some?
  }

  function End(run: seq<Step>): State
    requires IsRun(run)
  {
    Exec(run).value
  }

  lemma RunSnoc(run: seq<Step>, a: Step)
    requires IsRun(run) && Enabled(End(run), a)
    ensures IsRun(run + [a]) && End(run + [a]) == Next(End(run), a)
  {
    assert (run + [a])[..|run|] == run;
  }

  /** A name of 64 bytes does not match its stored copy: its second lookup takes a second slot with the
      same stored name. */
  lemma LongNameWitness() returns (run: seq<Step>, name: string)
    ensures |name| == 64 && IsRun(run)
    ensures var t := End(run).table;
            && t.count == 2 && |t.slots| == MAX_DEVICES && !Distinct(t)
            && t.slots[0].name == t.slots[1].name == name[..NAME_MAX]
  {
    name := seq(NAME_MAX + 1, _ => 'd');
    var u := Update(name, true, 0, 0);
    var r1 := [] + [Lookup(1, u, Created)];
    run := r1 + [Lookup(2, u, Created)];
    assert Exec([]) == Some(State(EmptyTable(), map[]));
    RunSnoc([], Lookup(1, u, Created));
    assert |End(r1).table.slots[0].name| != |name|;
    RunSnoc(r1, Lookup(2, u, Created));
    assert End(run).table.slots[0].name == End(run).table.slots[1].name;
  }

  datatype Entry = Entry(i: nat, u: Update)

  /** The update sections executed since the last reset, read off the labels of the run alone. */
  function SinceReset(run: seq<Step>): seq<Entry> {
    if run == [] then [] else
      var before := SinceReset(run[..|run| - 1]);
      match run[|run| - 1]
      case Reset => []
      case Apply(_, i, u) => before + [Entry(i, u)]
      case _ => before
  }

  function Updates(es: seq<Entry>): seq<Update> {
    if es == [] then [] else Updates(es[..|es| - 1]) + [es[|es| - 1].u]
  }

  function UpdatesAt(es: seq<Entry>, i: nat): seq<Update> {
    if es == [] then [] else
      var before := UpdatesAt(es[..|es| - 1], i);
      if es[|es| - 1].i == i then before + [es[|es| - 1].u] else before
  }

  function UpdatesFor(es: seq<Entry>, device: string): seq<Update> {
    if es == [] then [] else
      var before := UpdatesFor(es[..|es| - 1], device);
      if es[|es| - 1].u.device == device then before + [es[|es| - 1].u] else before
  }

  // ---------- safety of every interleaving ----------

  ghost predicate Safe(s: State, es: seq<Entry>) {
    && Shaped(s.table)
    && (forall t :: t in s.threads ==>
          if s.threads[t].Fresh? then s.table.count > 0 else s.threads[t].i < s.table.count)
    && (forall k :: 0 <= k < |es| ==> es[k].i < s.table.count)
    && (forall i :: 0 <= i < MAX_DEVICES ==> s.table.slots[i].counters == Wrap(Tally(UpdatesAt(es, i))))
  }

  lemma {:induction false} NoUpdatesAt(es: seq<Entry>, i: nat)
    requires forall k :: 0 <= k < |es| ==> es[k].i != i
    ensures UpdatesAt(es, i) == []
  {
    if es == [] {
    } else {
      NoUpdatesAt(es[..|es| - 1], i);
    }
  }

  lemma ApplyKeepsSafe(s: State, es: seq<Entry>, t: nat, i: nat, u: Update)
    requires Safe(s, es) && Enabled(s, Apply(t, i, u))
    ensures Safe(Next(s, Apply(t, i, u)), es + [Entry(i, u)])
  {
    var es' := es + [Entry(i, u)];
    assert es'[..|es'| - 1] == es;
    forall j | 0 <= j < MAX_DEVICES
      ensures ApplyTable(s.table, i, u).slots[j].counters == Wrap(Tally(UpdatesAt(es', j)))
    {
      if j == i {
        TallySnoc(UpdatesAt(es, i), u);
        CreditWraps(Tally(UpdatesAt(es, i)), u);
      }
    }
  }

  lemma LookupKeepsSafe(s: State, es: seq<Entry>, a: Step)
    requires a.Lookup? && Safe(s, es) && Enabled(s, a)
    ensures Safe(Next(s, a), es)
  {
    if a.o == Created {
      NoUpdatesAt(es, s.table.count);
    }
  }

  lemma ResetKeepsSafe(s: State, es: seq<Entry>)
    requires Safe(s, es)
    ensures Safe(Next(s, Reset), [])
  {
    var t := ResetTable(s.table);
    forall i | 0 <= i < MAX_DEVICES
      ensures t.slots[i].counters == Wrap(Tally(UpdatesAt([], i)))
    {
      assert t.slots[i].counters == ZERO == Wrap(ZERO);
    }
  }

  /** Every reachable state is safe: each slot holds the wrapped tally of exactly the update
      sections executed on it since the last reset. */
  lemma {:induction false} EveryRunIsSafe(run: seq<Step>)
    requires IsRun(run)
    ensures Safe(End(run), SinceReset(run))
  {
    if run == [] {
    } else {
      var pre := run[..|run| - 1];
      var s, es, a := End(pre), SinceReset(pre), run[|run| - 1];
      EveryRunIsSafe(pre);
      match a
      case Lookup(_, _, _) => LookupKeepsSafe(s, es, a);
      case ReadIndex(_) =>
      case Apply(t, i, u) => ApplyKeepsSafe(s, es, t, i, u);
      case Reset => ResetKeepsSafe(s, es);
    }
  }

  function SlotSum(slots: seq<Slot>, n: nat): Counters
    requires n <= |slots|
  {
    if n == 0 then ZERO else Plus(SlotSum(slots, n - 1), slots[n - 1].counters)
  }

  function TallySum(es: seq<Entry>, n: nat): Counters {
    if n == 0 then ZERO else Plus(TallySum(es, n - 1), Tally(UpdatesAt(es, n - 1)))
  }

  lemma PlusSwaps(a: Counters, b: Counters, c: Counters)
    ensures Plus(Plus(a, b), c) == Plus(Plus(a, c), b) == Plus(a, Plus(b, c))
  {
  }

  lemma TallyAtSnoc(es: seq<Entry>, e: Entry, i: nat)
    ensures Tally(UpdatesAt(es + [e], i)) ==
            if e.i == i then Plus(Tally(UpdatesAt(es, i)), One(e.u)) else Tally(UpdatesAt(es, i))
  {
    assert (es + [e])[..|es|] == es;
    if e.i == i {
      TallySnoc(UpdatesAt(es, i), e.u);
    }
  }

  lemma {:induction false} TallySumSnoc(es: seq<Entry>, e: Entry, n: nat)
    ensures TallySum(es + [e], n) ==
            if e.i < n then Plus(TallySum(es, n), One(e.u)) else TallySum(es, n)
  {
    if n == 0 {
    } else {
      TallySumSnoc(es, e, n - 1);
      TallyAtSnoc(es, e, n - 1);
      PlusSwaps(TallySum(es, n - 1), Tally(UpdatesAt(es, n - 1)), One(e.u));
    }
  }

  lemma {:induction false} TallySumOfNone(n: nat)
    ensures TallySum([], n) == ZERO
  {
    if n == 0 {
    } else {
      TallySumOfNone(n - 1);
    }
  }

  lemma {:induction false} SlotsPartitionUpdates(es: seq<Entry>, n: nat)
    requires forall k :: 0 <= k < |es| ==> es[k].i < n
    ensures TallySum(es, n) == Tally(Updates(es))
  {
    if es == [] {
      TallySumOfNone(n);
    } else {
      var pre, e := es[..|es| - 1], es[|es| - 1];
      assert es == pre + [e];
      SlotsPartitionUpdates(pre, n);
      TallySumSnoc(pre, e, n);
      TallySnoc(Updates(pre), e.u);
    }
  }

  lemma WrapPlus(a: Counters, b: Counters, c: Counters)
    requires Wrap(a) == Wrap(b)
    ensures Wrap(Plus(a, Wrap(c))) == Wrap(Plus(b, c))
  {
    var x, y := Wrap(Plus(a, Wrap(c))), Wrap(Plus(b, c));
    assert x.readOps == y.readOps by { ModPlus(a.readOps, b.readOps, c.readOps); }
    assert x.writeOps == y.writeOps by { ModPlus(a.writeOps, b.writeOps, c.writeOps); }
    assert x.readBytes == y.readBytes by { ModPlus(a.readBytes, b.readBytes, c.readBytes); }
    assert x.writeBytes == y.writeBytes by { ModPlus(a.writeBytes, b.writeBytes, c.writeBytes); }
    assert x.latency == y.latency by { ModPlus(a.latency, b.latency, c.latency); }
    assert x.ops == y.ops by { ModPlus(a.ops, b.ops, c.ops); }
  }

  lemma {:induction false} SlotSumWraps(slots: seq<Slot>, es: seq<Entry>, n: nat)
    requires n <= |slots| && forall i :: 0 <= i < n ==> slots[i].counters == Wrap(Tally(UpdatesAt(es, i)))
    ensures Wrap(SlotSum(slots, n)) == Wrap(TallySum(es, n))
  {
    if n == 0 {
    } else {
      SlotSumWraps(slots, es, n - 1);
      WrapPlus(SlotSum(slots, n - 1), TallySum(es, n - 1), Tally(UpdatesAt(es, n - 1)));
    }
  }

  ghost predicate OpsAddUp(c: Counters) {
    c.ops == (c.readOps + c.writeOps) % WORD
  }

  lemma WrapKeepsOpsSplit(c: Counters)
    requires c.ops == c.readOps + c.writeOps
    ensures OpsAddUp(Wrap(c))
  {
    ModPlus(c.readOps % WORD, c.readOps, c.writeOps);
  }

  /** Conservation, in every interleaving: the sums over all slots of every counter are the totals
      of the update sections executed since the last reset, and each slot's op_count is the sum
      of its reads and writes, all modulo the word. */
  lemma Conservation(run: seq<Step>)
    requires IsRun(run)
    ensures Wrap(SlotSum(End(run).table.slots, |End(run).table.slots|)) == Wrap(Tally(Updates(SinceReset(run))))
    ensures forall i :: 0 <= i < |End(run).table.slots| ==> OpsAddUp(End(run).table.slots[i].counters)
  {
    var s, es := End(run), SinceReset(run);
    EveryRunIsSafe(run);
    SlotsPartitionUpdates(es, MAX_DEVICES);
    SlotSumWraps(s.table.slots, es, MAX_DEVICES);
    forall i | 0 <= i < MAX_DEVICES
      ensures OpsAddUp(s.table.slots[i].counters)
    {
      TallyOpsSplit(UpdatesAt(es, i));
      WrapKeepsOpsSplit(Tally(UpdatesAt(es, i)));
    }
  }

  // ---------- per-device attribution ----------

  predicate NamesFit(run: seq<Step>) {
    forall k :: 0 <= k < |run| ==> run[k].Lookup? ==> |run[k].u.device| <= 63
  }

  datatype Creator = Nobody | Thread(t: nat)

  /** The thread whose lookup created the newest slot. */
  function LastCreator(run: seq<Step>): Creator {
    if run == [] then Nobody
    else if run[|run| - 1].Lookup? && run[|run| - 1].o == Created then Thread(run[|run| - 1].t)
    else LastCreator(run[..|run| - 1])
  }

  /** A thread that has created a slot and not yet read its index finds its own device's name below
      count; and it is the newest name exactly when that thread was the last to create. */
  ghost predicate FreshThreadsNamed(s: State, last: Creator)
    requires s.table.count <= |s.table.slots|
  {
    forall t :: t in s.threads && s.threads[t].Fresh? ==>
      var k := Find(s.table, s.threads[t].u.device);
      k < s.table.count && (k == s.table.count - 1 <==> last == Thread(t))
  }

  ghost predicate Named(s: State, last: Creator) {
    && Shaped(s.table)
    && Distinct(s.table)
    && FreshThreadsNamed(s, last)
  }

  lemma FindIsTheIndex(t: Table, k: nat)
    requires Shaped(t) && Distinct(t) && k < t.count
    ensures Find(t, t.slots[k].name) == k
  {
  }

  lemma LookupKeepsNamed(s: State, last: Creator, a: Step)
    requires Named(s, last) && a.Lookup? && Enabled(s, a) && |a.u.device| <= NAME_MAX
    ensures Named(Next(s, a), if a.o == Created then Thread(a.t) else last)
  {
    var s' := Next(s, a);
    LookupKeepsDistinctIff(s.table, a.u.device);
    if a.o == Created {
      FindIsTheIndex(s'.table, s.table.count);
      forall t | t in s.threads && s.threads[t].Fresh?
        ensures Find(s'.table, s.threads[t].u.device) == Find(s.table, s.threads[t].u.device)
      {
        FindIsTheIndex(s'.table, Find(s.table, s.threads[t].u.device));
      }
    }
  }

  lemma SameNamesSameFind(t: Table, t': Table, name: string, from: nat)
    requires t.count == t'.count && |t.slots| == |t'.slots| && from <= t.count <= |t.slots|
    requires forall i :: 0 <= i < |t.slots| ==> t.slots[i].name == t'.slots[i].name
    ensures Find(t, name, from) == Find(t', name, from)
    decreases t.count - from
  {
  }

  lemma OtherStepsKeepNamed(s: State, last: Creator, a: Step)
    requires Named(s, last) && !a.Lookup? && Enabled(s, a) && Shaped(Next(s, a).table)
    ensures Named(Next(s, a), last)
  {
    var s' := Next(s, a);
    forall t | t in s'.threads && s'.threads[t].Fresh?
      ensures Find(s'.table, s'.threads[t].u.device) == Find(s.table, s.threads[t].u.device)
    {
      SameNamesSameFind(s.table, s'.table, s'.threads[t].u.device, 0);
    }
  }

  /** Distinct names in every interleaving, when names fit. */
  lemma {:induction false} NamesStayDistinct(run: seq<Step>)
    requires IsRun(run) && NamesFit(run)
    ensures Named(End(run), LastCreator(run))
  {
    if run == [] {
    } else {
      var pre := run[..|run| - 1];
      var s, a := End(pre), run[|run| - 1];
      NamesStayDistinct(pre);
      EveryRunIsSafe(run);
      if a.Lookup? {
        LookupKeepsNamed(s, LastCreator(pre), a);
      } else {
        OtherStepsKeepNamed(s, LastCreator(pre), a);
      }
    }
  }

  /** The unlocked read hands a thread its own device's slot exactly when no other thread has created
      a slot since; otherwise it hands it the slot of the last creator. */
  lemma IndexReadIsOwnIff(run: seq<Step>, t: nat)
    requires IsRun(run) && NamesFit(run)
    requires t in End(run).threads && End(run).threads[t].Fresh?
    ensures 0 < End(run).table.count <= |End(run).table.slots|
    ensures End(run).table.slots[End(run).table.count - 1].name == End(run).threads[t].u.device
            <==> LastCreator(run) == Thread(t)
  {
    NamesStayDistinct(run);
    var s := End(run);
    if s.table.slots[s.table.count - 1].name == s.threads[t].u.device {
      FindIsTheIndex(s.table, s.table.count - 1);
    }
  }

  /** The index a thread holds is its own device's: found by its lookup, or read undisturbed. */
  predicate OwnIndex(run: seq<Step>, t: nat) {
    if run == [] then false else
      var pre, a := run[..|run| - 1], run[|run| - 1];
      if a.Lookup? && a.t == t then true
      else if a.ReadIndex? && a.t == t then LastCreator(pre) == Thread(t)
      else OwnIndex(pre, t)
  }

  /** Per update section, in every interleaving: the slot about to be credited names the operation's own
      device exactly when the index was found by the lookup or read before any other creation. */
  lemma {:induction false} CreditsOwnDeviceIff(run: seq<Step>, t: nat)
    requires IsRun(run) && NamesFit(run) && t in End(run).threads && End(run).threads[t].Holding?
    ensures var s := End(run);
            && s.threads[t].i < s.table.count <= |s.table.slots|
            && (s.table.slots[s.threads[t].i].name == s.threads[t].u.device <==> OwnIndex(run, t))
  {
    if run == [] {
    } else {
      var pre, a := run[..|run| - 1], run[|run| - 1];
      EveryRunIsSafe(pre);
      if a.ReadIndex? && a.t == t {
        IndexReadIsOwnIff(pre, t);
      } else if a.Lookup? && a.t == t {
        FoundIsOwn(End(pre), a);
      } else {
        OthersKeepHolding(End(pre), a, t);
        CreditsOwnDeviceIff(pre, t);
        StoredNamesStay(End(pre), a);
      }
    }
  }

  lemma FoundIsOwn(s: State, a: Step)
    requires Shaped(s.table) && a.Lookup? && Enabled(s, a)
    requires a.t in Next(s, a).threads && Next(s, a).threads[a.t].Holding?
    ensures var s' := Next(s, a);
            && s'.threads[a.t].i < s'.table.count <= |s'.table.slots|
            && s'.table.slots[s'.threads[a.t].i].name == s'.threads[a.t].u.device
  {
  }

  lemma OthersKeepHolding(s: State, a: Step, t: nat)
    requires Enabled(s, a) && !((a.Lookup? || a.ReadIndex?) && a.t == t)
    requires t in Next(s, a).threads && Next(s, a).threads[t].Holding?
    ensures t in s.threads && s.threads[t] == Next(s, a).threads[t]
  {
  }

  lemma StoredNamesStay(s: State, a: Step)
    requires Shaped(s.table) && Enabled(s, a) && (a.Apply? ==> a.i < s.table.count)
    ensures var t' := Next(s, a).table;
            && s.table.count <= t'.count && |t'.slots| == MAX_DEVICES
            && forall j :: 0 <= j < s.table.count ==> t'.slots[j].name == s.table.slots[j].name
  {
  }

  /** Every update section since the last reset had its own device's index. */
  predicate OwnSinceReset(run: seq<Step>) {
    if run == [] then true else
      var pre, a := run[..|run| - 1], run[|run| - 1];
      a.Reset? || (OwnSinceReset(pre) && (a.Apply? ==> OwnIndex(pre, a.t)))
  }

  ghost predicate EntryOwn(t: Table, e: Entry) {
    e.i < t.count <= |t.slots| && t.slots[e.i].name == e.u.device
  }

  ghost predicate EntriesOwn(t: Table, es: seq<Entry>) {
    forall k :: 0 <= k < |es| ==> EntryOwn(t, es[k])
  }

  lemma EntriesStay(s: State, es: seq<Entry>, a: Step)
    requires Safe(s, es) && Enabled(s, a)
    ensures EntriesOwn(Next(s, a).table, es) <==> EntriesOwn(s.table, es)
  {
    StoredNamesStay(s, a);
    forall k | 0 <= k < |es|
      ensures EntryOwn(Next(s, a).table, es[k]) <==> EntryOwn(s.table, es[k])
    {
      assert es[k].i < s.table.count;
    }
  }

  lemma EntriesGrow(t: Table, es: seq<Entry>, e: Entry)
    ensures EntriesOwn(t, es + [e]) <==> EntriesOwn(t, es) && EntryOwn(t, e)
  {
    assert (es + [e])[|es|] == e;
    assert forall k :: 0 <= k < |es| ==> (es + [e])[k] == es[k];
  }

  /** In every interleaving: each operation since the last reset was credited to its own device exactly
      when each had its own index. */
  lemma {:induction false} CreditedOwnIff(run: seq<Step>)
    requires IsRun(run) && NamesFit(run)
    ensures EntriesOwn(End(run).table, SinceReset(run)) <==> OwnSinceReset(run)
  {
    if run == [] {
    } else {
      var pre, a := run[..|run| - 1], run[|run| - 1];
      CreditedOwnIff(pre);
      EveryRunIsSafe(pre);
      EntriesStay(End(pre), SinceReset(pre), a);
      if a.Apply? {
        CreditsOwnDeviceIff(pre, a.t);
        StoredNamesStay(End(pre), a);
        EntriesGrow(End(run).table, SinceReset(pre), Entry(a.i, a.u));
      }
    }
  }

  lemma {:induction false} AtSlotMeansForDevice(t: Table, es: seq<Entry>, i: nat)
    requires Shaped(t) && Distinct(t) && i < t.count
    requires EntriesOwn(t, es)
    ensures UpdatesAt(es, i) == UpdatesFor(es, t.slots[i].name)
  {
    if es == [] {
    } else {
      AtSlotMeansForDevice(t, es[..|es| - 1], i);
      assert EntryOwn(t, es[|es| - 1]);
    }
  }

  /** When each update section since the last reset had its own index, every tracked device holds exactly
      its own operations since then, in every interleaving. */
  lemma PerDeviceAttribution(run: seq<Step>, i: nat)
    requires IsRun(run) && NamesFit(run) && OwnSinceReset(run)
    requires i < End(run).table.count <= |End(run).table.slots|
    ensures var slot := End(run).table.slots[i];
            slot.counters == Wrap(Tally(UpdatesFor(SinceReset(run), slot.name)))
  {
    EveryRunIsSafe(run);
    NamesStayDistinct(run);
    CreditedOwnIff(run);
    AtSlotMeansForDevice(End(run).table, SinceReset(run), i);
  }

  /** The side condition is needed: two threads creating two devices, the first of them reading its
      index late, leave the first device with no operation and the second with the first's write. */
  lemma DisturbedWitness() returns (run: seq<Step>)
    ensures IsRun(run) && NamesFit(run) && !OwnSinceReset(run)
    ensures var t := End(run).table;
            && t.count == 2 && |t.slots| == MAX_DEVICES
            && t.slots[0].name == "sda" && t.slots[0].counters == ZERO
            && t.slots[1].name == "sdb" && t.slots[1].counters == Counters(0, 1, 0, 512, 7, 1)
            && Updates(SinceReset(run)) == [Update("sda", false, 512, 7)]
  {
    var u, v := Update("sda", false, 512, 7), Update("sdb", true, 4096, 9);
    assert "sda"[2] != "sdb"[2];
    var r2 := TwoCreators(u, v);
    run := (r2 + [ReadIndex(1)]) + [Apply(1, 1, u)];
    LateRead(r2, u);
    assert [Entry(1, u)][..0] == [];
  }

  /** Two threads have each created a slot, and neither has read its index. */
  lemma TwoCreators(u: Update, v: Update) returns (run: seq<Step>)
    requires u.device != v.device && |u.device| <= NAME_MAX && |v.device| <= NAME_MAX
    ensures IsRun(run) && NamesFit(run) && LastCreator(run) == Thread(2) && SinceReset(run) == []
    ensures var s := End(run);
            && s.table.count == 2 && |s.table.slots| == MAX_DEVICES
            && s.table.slots[0] == Slot(u.device, ZERO, true) && s.table.slots[1] == Slot(v.device, ZERO, true)
            && 1 in s.threads && s.threads[1] == Fresh(u)
  {
    var r1 := OneCreator(u);
    run := r1 + [Lookup(2, v, Created)];
    RunSnoc(r1, Lookup(2, v, Created));
    assert run[..|r1|] == r1;
  }

  lemma OneCreator(u: Update) returns (run: seq<Step>)
    requires |u.device| <= 63
    ensures IsRun(run) && NamesFit(run) && SinceReset(run) == []
    ensures var s := End(run);
            && s.table.count == 1 && |s.table.slots| == MAX_DEVICES
            && s.table.slots[0] == Slot(u.device, ZERO, true)
            && 1 in s.threads && s.threads[1] == Fresh(u) && 2 !in s.threads
  {
    var a := Lookup(1, u, Created);
    run := [] + [a];
    RunSnoc([], a);
    OnlyLookup(a);
  }

  lemma OnlyLookup(a: Step)
    requires a.Lookup?
    ensures SinceReset([] + [a]) == []
  {
    assert ([] + [a])[..0] == [];
  }

  /** The first of them then reads its index and adds its operation, to the slot of the second. */
  lemma LateRead(r2: seq<Step>, u: Update)
    requires IsRun(r2) && End(r2).table.count == 2 && |End(r2).table.slots| == MAX_DEVICES
    requires 1 in End(r2).threads && End(r2).threads[1] == Fresh(u)
    requires LastCreator(r2) == Thread(2) && SinceReset(r2) == []
    ensures var run := (r2 + [ReadIndex(1)]) + [Apply(1, 1, u)];
            && IsRun(run) && !OwnSinceReset(run) && SinceReset(run) == [Entry(1, u)]
            && End(run).table == ApplyTable(End(r2).table, 1, u)
  {
    var r3 := r2 + [ReadIndex(1)];
    RunSnoc(r2, ReadIndex(1));
    RunSnoc(r3, Apply(1, 1, u));
    assert r3[..|r2|] == r2 && (r3 + [Apply(1, 1, u)])[..|r3|] == r3;
  }

  // ---------- serial calls refine a map capped at sixteen keys ----------

  /** A whole update_storage_stats call with nothing in between. */
  function SerialUpdate(t: Table, u: Update): Table
    requires Shaped(t)
  {
    var t' := LookupTable(t, u.device);
    match LookupOutcome(t, u.device)
    case Found(i) => ApplyTable(t', i, u)
    case Created => ApplyTable(t', t'.count - 1, u)
    case Full => t'
  }

  /** The tracked rows as a map; rows are added in table order. */
  function AsMap(slots: seq<Slot>, n: nat): map<string, Counters>
    requires n <= |slots|
  {
    if n == 0 then map[] else AsMap(slots, n - 1)[slots[n - 1].name := slots[n - 1].counters]
  }

  function MapOf(t: Table): map<string, Counters>
    requires t.count <= |t.slots|
  {
    AsMap(t.slots, t.count)
  }

  ghost function MapUpdate(m: map<string, Counters>, u: Update): map<string, Counters> {
    if u.device in m then m[u.device := Credit(m[u.device], u)]
    else if |m| < 16 then m[u.device := Credit(ZERO, u)]
    else m
  }

  lemma {:induction false} MapKeys(slots: seq<Slot>, n: nat)
    requires n <= |slots|
    requires forall i, j :: 0 <= i < j < n ==> slots[i].name != slots[j].name
    ensures forall d :: d in AsMap(slots, n) <==> exists i :: 0 <= i < n && slots[i].name == d
    ensures |AsMap(slots, n)| == n
  {
    if n == 0 {
    } else {
      MapKeys(slots, n - 1);
    }
  }

  lemma {:induction false} MapValue(slots: seq<Slot>, n: nat, i: nat)
    requires i < n <= |slots|
    requires forall i, j :: 0 <= i < j < n ==> slots[i].name != slots[j].name
    ensures slots[i].name in AsMap(slots, n) && AsMap(slots, n)[slots[i].name] == slots[i].counters
  {
    if i == n - 1 {
    } else {
      MapValue(slots, n - 1, i);
    }
  }

  /** Replacing one row's counters updates that key. */
  lemma {:induction false} RewrittenRow(t: Table, i: nat, c: Counters, n: nat)
    requires Shaped(t) && Distinct(t) && i < t.count && n <= t.count
    ensures AsMap(t.slots[i := t.slots[i].(counters := c)], n) ==
            if i < n then AsMap(t.slots, n)[t.slots[i].name := c] else AsMap(t.slots, n)
  {
    if n == 0 {
    } else {
      RewrittenRow(t, i, c, n - 1);
    }
  }

  lemma {:induction false} RowsBelowOnly(a: seq<Slot>, b: seq<Slot>, n: nat)
    requires n <= |a| == |b| && forall i :: 0 <= i < n ==> a[i] == b[i]
    ensures AsMap(a, n) == AsMap(b, n)
  {
    if n == 0 {
    } else {
      RowsBelowOnly(a, b, n - 1);
    }
  }

  lemma TrackedRefinesMap(t: Table, u: Update, i: nat)
    requires Shaped(t) && Distinct(t) && LookupOutcome(t, u.device) == Found(i)
    ensures Shaped(SerialUpdate(t, u)) && Distinct(SerialUpdate(t, u))
    ensures MapOf(SerialUpdate(t, u)) == MapUpdate(MapOf(t), u)
  {
    var c := Credit(t.slots[i].counters, u);
    assert SerialUpdate(t, u) == t.(slots := t.slots[i := t.slots[i].(counters := c)]);
    MapValue(t.slots, t.count, i);
    RewrittenRow(t, i, c, t.count);
  }

  lemma UntrackedTable(t: Table, u: Update)
    requires Shaped(t) && Distinct(t) && |u.device| <= NAME_MAX && !LookupOutcome(t, u.device).Found?
    ensures forall i :: 0 <= i < t.count ==> t.slots[i].name != u.device
    ensures SerialUpdate(t, u) ==
            if t.count == MAX_DEVICES then t
            else Table(t.slots[t.count := Slot(u.device, Credit(ZERO, u), true)], t.count + 1)
  {
  }

  lemma NotAKey(t: Table, device: string)
    requires Shaped(t) && Distinct(t) && forall i :: 0 <= i < t.count ==> t.slots[i].name != device
    ensures device !in MapOf(t) && |MapOf(t)| == t.count
  {
    MapKeys(t.slots, t.count);
  }

  lemma AddedRow(t: Table, row: Slot)
    requires Shaped(t) && Distinct(t) && t.count < MAX_DEVICES && row.active
    requires forall i :: 0 <= i < t.count ==> t.slots[i].name != row.name
    ensures var t' := Table(t.slots[t.count := row], t.count + 1);
            && Shaped(t') && Distinct(t')
            && MapOf(t') == MapOf(t)[row.name := row.counters]
  {
    RowsBelowOnly(t.slots, t.slots[t.count := row], t.count);
  }

  lemma UntrackedRefinesMap(t: Table, u: Update)
    requires Shaped(t) && Distinct(t) && |u.device| <= NAME_MAX && !LookupOutcome(t, u.device).Found?
    ensures Shaped(SerialUpdate(t, u)) && Distinct(SerialUpdate(t, u))
    ensures MapOf(SerialUpdate(t, u)) == MapUpdate(MapOf(t), u)
  {
    UntrackedTable(t, u);
    NotAKey(t, u.device);
    if t.count < MAX_DEVICES {
      AddedRow(t, Slot(u.device, Credit(ZERO, u), true));
    }
  }

  /** One serial call does to the map what the map specification says, including the silent drop
      of a seventeenth device. */
  lemma SerialUpdateRefinesMap(t: Table, u: Update)
    requires Shaped(t) && Distinct(t) && |u.device| <= NAME_MAX
    ensures Shaped(SerialUpdate(t, u)) && Distinct(SerialUpdate(t, u))
    ensures MapOf(SerialUpdate(t, u)) == MapUpdate(MapOf(t), u)
  {
    if LookupOutcome(t, u.device).Found? {
      TrackedRefinesMap(t, u, Find(t, u.device));
    } else {
      UntrackedRefinesMap(t, u);
    }
  }

  datatype Call = Record(u: Update) | Clear

  function SerialCalls(calls: seq<Call>): (t: Table)
    ensures Shaped(t)
  {
    if calls == [] then EmptyTable() else
      var t := SerialCalls(calls[..|calls| - 1]);
      match calls[|calls| - 1]
      case Record(u) => SerialUpdate(t, u)
      case Clear => ResetTable(t)
  }

  ghost function MapCalls(calls: seq<Call>): map<string, Counters> {
    if calls == [] then map[] else
      var m := MapCalls(calls[..|calls| - 1]);
      match calls[|calls| - 1]
      case Record(u) => MapUpdate(m, u)
      case Clear => map d | d in m :: ZERO
  }

  lemma {:induction false} ResetRefinesMap(t: Table, n: nat)
    requires n <= t.count <= |t.slots|
    ensures AsMap(ResetTable(t).slots, n) == map d | d in AsMap(t.slots, n) :: ZERO
  {
    if n == 0 {
    } else {
      ResetRefinesMap(t, n - 1);
    }
  }

  /** Any sequence of serial calls and resets is the map specification run on the same calls. */
  lemma {:induction false} SerialRunsRefineMap(calls: seq<Call>)
    requires forall k :: 0 <= k < |calls| ==> calls[k].Record? ==> |calls[k].u.device| <= NAME_MAX
    ensures Distinct(SerialCalls(calls))
    ensures MapOf(SerialCalls(calls)) == MapCalls(calls)
  {
    if calls == [] {
    } else {
      var pre := calls[..|calls| - 1];
      SerialRunsRefineMap(pre);
      match calls[|calls| - 1]
      case Record(u) => SerialUpdateRefinesMap(SerialCalls(pre), u);
      case Clear => ResetRefinesMap(SerialCalls(pre), SerialCalls(pre).count);
    }
  }

  datatype Row = Row(name: string, readOps: nat, writeOps: nat, totalOps: nat,
                     readBytes: nat, writeBytes: nat, totalBytes: nat, average: nat)

  /** The printed average: the floor of latency over operations, and 0 when there were none. */
  function Average(latency: nat, ops: nat): (a: nat)
    ensures ops == 0 ==> a == 0
    ensures ops > 0 ==> a * ops <= latency < (a + 1) * ops
  {
    if ops > 0 then latency / ops else 0
  }

  ghost predicate RowOf(slot: Slot, r: Row) {
    && r.name == slot.name && r.readOps == slot.counters.readOps && r.writeOps == slot.counters.writeOps
    && r.totalOps == (slot.counters.readOps + slot.counters.writeOps) % WORD
    && (OpsAddUp(slot.counters) ==> r.totalOps == slot.counters.ops)
    && r.readBytes == slot.counters.readBytes && r.writeBytes == slot.counters.writeBytes
    && r.totalBytes == (slot.counters.readBytes + slot.counters.writeBytes) % WORD
    && r.average == Average(slot.counters.latency, slot.counters.ops)
  }

  /** The module's globals, with each critical section as a method. */
  class StatsTable {
    var slots: array<Slot>
    var count: nat

    ghost function View(): Table
      reads this, slots
    {
      Table(slots[..], count)
    }

    ghost predicate Valid()
      reads this, slots
    {
      Shaped(View())
    }

    /** storage_stats_init. */
    constructor ()
      ensures Valid() && View() == EmptyTable() && fresh(slots)
    {
      slots := new Slot[MAX_DEVICES](_ => BLANK);
      count := 0;
    }

    /** The locked part of get_device_stats. */
    method FindOrCreate(device: string) returns (o: Outcome)
      requires Valid()
      modifies this`count, slots
      ensures Valid() && slots == old(slots)
      ensures o == LookupOutcome(old(View()), device)
      ensures View() == LookupTable(old(View()), device)
    {
      var i := 0;
      while i < count
        invariant 0 <= i <= count
        invariant Find(View(), device) == Find(View(), device, i)
      {
        if slots[i].name == device {
          return Found(i);
        }
        i := i + 1;
      }
      if count < MAX_DEVICES {
        slots[count] := Slot(Clip(device), ZERO, true);
        count := count + 1;
        return Created;
      }
      return Full;
    }

    /** The locked part of update_storage_stats. */
    method AddOperation(i: nat, u: Update)
      requires Valid() && i < count
      modifies slots
      ensures Valid() && View() == ApplyTable(old(View()), i, u)
    {
      var c := slots[i].counters;
      if u.isRead {
        c := c.(readOps := (c.readOps + 1) % WORD, readBytes := (c.readBytes + u.bytes) % WORD);
      } else {
        c := c.(writeOps := (c.writeOps + 1) % WORD, writeBytes := (c.writeBytes + u.bytes) % WORD);
      }
      c := c.(latency := (c.latency + u.latency) % WORD);
      c := c.(ops := (c.ops + 1) % WORD);
      slots[i] := slots[i].(counters := c);
    }

    /** update_storage_stats called with no other thread inside. */
    method UpdateStorageStats(u: Update) returns (tracked: bool)
      requires Valid()
      modifies this`count, slots
      ensures Valid() && slots == old(slots)
      ensures View() == SerialUpdate(old(View()), u)
      ensures tracked <==> LookupOutcome(old(View()), u.device) != Full
      ensures old(Distinct(View())) && |u.device| <= NAME_MAX ==>
                Distinct(View()) && MapOf(View()) == MapUpdate(old(MapOf(View())), u)
    {
      if Distinct(View()) && |u.device| <= NAME_MAX {
        SerialUpdateRefinesMap(View(), u);
      }
      var o := FindOrCreate(u.device);
      tracked := o != Full;
      match o {
        case Found(i) => AddOperation(i, u);
        case Created => AddOperation(count - 1, u);
        case Full =>
      }
    }

    /** reset_stats. */
    method ResetStats()
      requires Valid()
      modifies slots
      ensures Valid() && View() == ResetTable(old(View()))
    {
      var i := 0;
      while i < count
        invariant 0 <= i <= count
        invariant forall j :: 0 <= j < i ==> slots[j] == old(slots[j]).(counters := ZERO)
        invariant forall j :: i <= j < slots.Length ==> slots[j] == old(slots[j])
      {
        slots[i] := slots[i].(counters := ZERO);
        i := i + 1;
      }
      assert View().slots == ResetTable(old(View())).slots;
    }

    /** The rows of /proc/storage_stats: one per tracked device, in table order, whose printed total
        is the slot's op_count and whose average is the floor of latency over operations. */
    method Show() returns (rows: seq<Row>)
      requires Valid()
      ensures |rows| == count
      ensures forall i :: 0 <= i < count ==> RowOf(slots[i], rows[i])
    {
      rows := [];
      var i := 0;
      while i < count
        invariant 0 <= i <= count && |rows| == i
        invariant forall j :: 0 <= j < i ==> RowOf(slots[j], rows[j])
      {
        if slots[i].active {
          var c := slots[i].counters;
          var average := Average(c.latency, c.ops);
          rows := rows + [Row(slots[i].name, c.readOps, c.writeOps, (c.readOps + c.writeOps) % WORD,
                              c.readBytes, c.writeBytes, (c.readBytes + c.writeBytes) % WORD, average)];
        }
        i := i + 1;
      }
    }
  }
}
