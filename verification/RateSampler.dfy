/** monitor_get_current_performance: the reading of one call is remembered, and the next call on the
    same device turns the difference into rates. */
module RateSampler {
  import opened Common

  const SECTOR := 512
  const MEGABYTE := 1048576

  /** The counters of a device in /proc/diskstats. */
  datatype Reading = Reading(readOps: nat, writeOps: nat, readSectors: nat, writeSectors: nat)

  datatype Stats = Stats(device: string, readOps: nat, writeOps: nat, readBytes: nat, writeBytes: nat)
  datatype Sample = Sample(timestamp: int, iops: real, throughput: real)
  datatype Memory = Memory(stats: Stats, time: int)  // prev_stats and prev_time

  /** The value kept in an unsigned 64-bit word. */
  function Word(x: int): (w: nat)
    ensures w < WORD
  {
    if 0 <= x < WORD then x else x % WORD
  }

  function StatsOf(device: string, r: Reading): Stats {
    Stats(Clip(device), Word(r.readOps), Word(r.writeOps),
          Word(r.readSectors * SECTOR), Word(r.writeSectors * SECTOR))
  }

  /** Differences in unsigned arithmetic. */
  function OpsSince(now: Stats, before: Stats): int {
    Word(Word(now.readOps + now.writeOps) - Word(before.readOps + before.writeOps))
  }

  function BytesSince(now: Stats, before: Stats): int {
    Word(Word(now.readBytes - before.readBytes) + Word(now.writeBytes - before.writeBytes))
  }

  /** The sample after a call whose device could be read; given is the caller's sample before it.  With
      no time elapsed on the same device, its rates are left as they were. */
  function Sampled(m: Memory, device: string, r: Reading, now: int, given: Sample): Sample {
    if m.time > 0 && m.stats.device == device then
      if now > m.time then
        var dt := (now - m.time) as real;
        Sample(now, OpsSince(StatsOf(device, r), m.stats) as real / dt,
               BytesSince(StatsOf(device, r), m.stats) as real / (dt * MEGABYTE as real))
      else given.(timestamp := now)
    else Sample(now, 0.0, 0.0)
  }

  /** The rates come from the readings, and not from what the caller's structure held before, exactly
      when it is not a call on the remembered device without time elapsed. */
  lemma RatesIgnoreGivenIff(m: Memory, device: string, r: Reading, now: int)
    ensures (forall a, b :: Sampled(m, device, r, now, a) == Sampled(m, device, r, now, b)) <==>
            !(m.time > 0 && m.stats.device == device && now <= m.time)
  {
    if m.time > 0 && m.stats.device == device && now <= m.time {
      var a, b := Sample(0, 1.0, 0.0), Sample(0, 2.0, 0.0);
      assert Sampled(m, device, r, now, a).iops != Sampled(m, device, r, now, b).iops;
    }
  }

  // ---------- a stretch of calls on one device ----------

  datatype Call = Call(r: Reading, now: int, given: Sample)

  /** What is remembered before call k of the stretch. */
  function Before(m: Memory, device: string, calls: seq<Call>, k: nat): Memory
    requires k <= |calls|
  {
    if k == 0 then m else Memory(StatsOf(device, calls[k - 1].r), calls[k - 1].now)
  }

  function Output(m: Memory, device: string, calls: seq<Call>, k: nat): Sample
    requires k < |calls|
  {
    Sampled(Before(m, device, calls, k), device, calls[k].r, calls[k].now, calls[k].given)
  }

  function Ops(r: Reading): nat {
    r.readOps + r.writeOps
  }

  function Bytes(r: Reading): nat {
    (r.readSectors + r.writeSectors) * 512
  }

  /** Counters only grow and fit their words. */
  ghost predicate Monotone(calls: seq<Call>) {
    forall i, j :: 0 <= i <= j < |calls| ==> Grew(calls[i].r, calls[j].r)
  }

  ghost predicate Grew(a: Reading, b: Reading) {
    && a.readOps <= b.readOps && a.writeOps <= b.writeOps
    && a.readSectors <= b.readSectors && a.writeSectors <= b.writeSectors
    && Ops(b) < WORD && Bytes(b) < WORD
  }

  /** Call k of the stretch, after its first, reports rates over a positive time. */
  predicate Credited(calls: seq<Call>, k: nat)
    requires 0 < k < |calls|
  {
    calls[k - 1].now > 0 && calls[k].now > calls[k - 1].now
  }

  function Elapsed(calls: seq<Call>, k: nat): real
    requires 0 < k < |calls|
  {
    (calls[k].now - calls[k - 1].now) as real
  }

  /** Rate times time, for a call that reports rates. */
  function ReportOps(m: Memory, device: string, calls: seq<Call>, k: nat): real
    requires k < |calls|
  {
    if k > 0 && Credited(calls, k) then Output(m, device, calls, k).iops * Elapsed(calls, k) else 0.0
  }

  function ReportBytes(m: Memory, device: string, calls: seq<Call>, k: nat): real
    requires k < |calls|
  {
    if k > 0 && Credited(calls, k)
    then Output(m, device, calls, k).throughput * (Elapsed(calls, k) * 1048576.0) else 0.0
  }

  /** What any other call swallows: it replaces the remembered reading without reporting. */
  function AbsorbOps(calls: seq<Call>, k: nat): int
    requires k < |calls|
  {
    if k > 0 && !Credited(calls, k) then Ops(calls[k].r) - Ops(calls[k - 1].r) else 0
  }

  function AbsorbBytes(calls: seq<Call>, k: nat): int
    requires k < |calls|
  {
    if k > 0 && !Credited(calls, k) then Bytes(calls[k].r) - Bytes(calls[k - 1].r) else 0
  }

  function ReportedOps(m: Memory, device: string, calls: seq<Call>): seq<real> {
    seq(|calls|, k requires 0 <= k < |calls| => ReportOps(m, device, calls, k))
  }

  function ReportedBytes(m: Memory, device: string, calls: seq<Call>): seq<real> {
    seq(|calls|, k requires 0 <= k < |calls| => ReportBytes(m, device, calls, k))
  }

  function AbsorbedOps(calls: seq<Call>): seq<int> {
    seq(|calls|, k requires 0 <= k < |calls| => AbsorbOps(calls, k))
  }

  function AbsorbedBytes(calls: seq<Call>): seq<int> {
    seq(|calls|, k requires 0 <= k < |calls| => AbsorbBytes(calls, k))
  }

  /** The sum of the first n, of both. */
  function Sum(reported: seq<real>, absorbed: seq<int>, n: nat): real
    requires n <= |reported| == |absorbed|
  {
    if n == 0 then 0.0 else Sum(reported, absorbed, n - 1) + reported[n - 1] + absorbed[n - 1] as real
  }

  lemma {:induction false} Telescope(reported: seq<real>, absorbed: seq<int>, counter: seq<int>, n: nat)
    requires 0 < n <= |reported| == |absorbed| == |counter|
    requires reported[0] == 0.0 && absorbed[0] == 0
    requires forall k :: 0 < k < n ==> reported[k] + absorbed[k] as real == (counter[k] - counter[k - 1]) as real
    ensures Sum(reported, absorbed, n) == (counter[n - 1] - counter[0]) as real
  {
    if n == 1 {
    } else {
      Telescope(reported, absorbed, counter, n - 1);
    }
  }

  lemma DivideAndMultiply(a: int, b: real)
    requires b != 0.0
    ensures a as real / b * b == a as real
  {
  }

  lemma WordIsModulo(x: int)
    ensures Word(x) == x % WORD == x - x / WORD * WORD
  {
  }

  lemma SameModulo(x: int, y: int, k: int)
    requires x == y + k * WORD
    ensures Word(x) == Word(y)
  {
    ModMultiple(y, k);
    WordIsModulo(x);
    WordIsModulo(y);
  }

  lemma WordOfDifference(x: int, y: int)
    ensures Word(Word(x) - Word(y)) == Word(x - y)
  {
    WordIsModulo(x);
    WordIsModulo(y);
    SameModulo(Word(x) - Word(y), x - y, y / WORD - x / WORD);
  }

  lemma WordOfSum(x: int, y: int)
    ensures Word(Word(x) + Word(y)) == Word(x + y)
  {
    WordIsModulo(x);
    WordIsModulo(y);
    SameModulo(Word(x) + Word(y), x + y, -(x / WORD) - y / WORD);
  }

  lemma DifferenceOfWords(x: int, y: int, p: int, q: int)
    requires x == Word(p) && y == Word(q)
    ensures Word(x - y) == Word(p - q)
  {
    WordOfDifference(p, q);
  }

  lemma SumOfWords(x: int, y: int, p: int, q: int)
    requires x == Word(p) && y == Word(q)
    ensures Word(x + y) == Word(p + q)
  {
    WordOfSum(p, q);
  }

  lemma OpsWord(device: string, r: Reading)
    ensures var s := StatsOf(device, r); Word(s.readOps + s.writeOps) == Word(Ops(r))
  {
    SumOfWords(Word(r.readOps), Word(r.writeOps), r.readOps, r.writeOps);
  }

  /** What a call adds up is what the counters gained, modulo the word, whatever the readings. */
  lemma OpsGainModulo(d: string, e: string, a: Reading, b: Reading)
    ensures OpsSince(StatsOf(e, b), StatsOf(d, a)) == Word(Ops(b) - Ops(a))
  {
    var s, t := StatsOf(e, b), StatsOf(d, a);
    OpsWord(e, b);
    OpsWord(d, a);
    DifferenceOfWords(Word(s.readOps + s.writeOps), Word(t.readOps + t.writeOps), Ops(b), Ops(a));
  }

  lemma BytesGainModulo(d: string, e: string, a: Reading, b: Reading)
    ensures BytesSince(StatsOf(e, b), StatsOf(d, a)) == Word(Bytes(b) - Bytes(a))
  {
    var s, t := StatsOf(e, b), StatsOf(d, a);
    var r, w := b.readSectors * 512 - a.readSectors * 512, b.writeSectors * 512 - a.writeSectors * 512;
    DifferenceOfWords(s.readBytes, t.readBytes, b.readSectors * 512, a.readSectors * 512);
    DifferenceOfWords(s.writeBytes, t.writeBytes, b.writeSectors * 512, a.writeSectors * 512);
    SumOfWords(Word(s.readBytes - t.readBytes), Word(s.writeBytes - t.writeBytes), r, w);
    assert Bytes(b) - Bytes(a) == r + w;
  }

  lemma OpsGained(device: string, a: Reading, b: Reading)
    requires Grew(a, b)
    ensures OpsSince(StatsOf(device, b), StatsOf(device, a)) == Ops(b) - Ops(a)
  {
  }

  lemma BytesGained(device: string, a: Reading, b: Reading)
    requires Grew(a, b)
    ensures BytesSince(StatsOf(device, b), StatsOf(device, a)) == Bytes(b) - Bytes(a)
  {
    assert a.readSectors * SECTOR <= b.readSectors * SECTOR < WORD;
    assert a.writeSectors * SECTOR <= b.writeSectors * SECTOR < WORD;
  }

  lemma OneCallReportsOps(m: Memory, device: string, calls: seq<Call>, k: nat)
    requires |device| <= NAME_MAX && Monotone(calls) && 0 < k < |calls| && Credited(calls, k)
    ensures Output(m, device, calls, k).iops * Elapsed(calls, k) ==
            (Ops(calls[k].r) - Ops(calls[k - 1].r)) as real
  {
    OpsGained(device, calls[k - 1].r, calls[k].r);
    DivideAndMultiply(Ops(calls[k].r) - Ops(calls[k - 1].r), Elapsed(calls, k));
  }

  lemma OneCallReportsBytes(m: Memory, device: string, calls: seq<Call>, k: nat)
    requires |device| <= NAME_MAX && Monotone(calls) && 0 < k < |calls| && Credited(calls, k)
    ensures Output(m, device, calls, k).throughput * (Elapsed(calls, k) * 1048576.0) ==
            (Bytes(calls[k].r) - Bytes(calls[k - 1].r)) as real
  {
    BytesGained(device, calls[k - 1].r, calls[k].r);
    DivideAndMultiply(Bytes(calls[k].r) - Bytes(calls[k - 1].r), Elapsed(calls, k) * MEGABYTE as real);
  }

  lemma OpsBalance(m: Memory, device: string, calls: seq<Call>, k: nat)
    requires |device| <= NAME_MAX && Monotone(calls) && 0 < k < |calls|
    ensures ReportOps(m, device, calls, k) + AbsorbOps(calls, k) as real ==
            (Ops(calls[k].r) - Ops(calls[k - 1].r)) as real
  {
    if Credited(calls, k) {
      OneCallReportsOps(m, device, calls, k);
    }
  }

  lemma BytesBalance(m: Memory, device: string, calls: seq<Call>, k: nat)
    requires |device| <= NAME_MAX && Monotone(calls) && 0 < k < |calls|
    ensures ReportBytes(m, device, calls, k) + AbsorbBytes(calls, k) as real ==
            (Bytes(calls[k].r) - Bytes(calls[k - 1].r)) as real
  {
    if Credited(calls, k) {
      OneCallReportsBytes(m, device, calls, k);
    }
  }

  function OpsCounter(calls: seq<Call>): seq<int> {
    seq(|calls|, k requires 0 <= k < |calls| => Ops(calls[k].r))
  }

  function BytesCounter(calls: seq<Call>): seq<int> {
    seq(|calls|, k requires 0 <= k < |calls| => Bytes(calls[k].r))
  }

  /** Over any stretch of calls on one device, whatever the clock does and whatever was remembered
      before it: what the counters gained from the first call to the last is rate times time summed over
      the calls that report rates, plus exactly what the other calls absorb. */
  lemma OpsConserved(m: Memory, device: string, calls: seq<Call>)
    requires |device| <= NAME_MAX && Monotone(calls) && calls != []
    ensures Sum(ReportedOps(m, device, calls), AbsorbedOps(calls), |calls|) ==
            (Ops(calls[|calls| - 1].r) - Ops(calls[0].r)) as real
  {
    var rep, gone, ops := ReportedOps(m, device, calls), AbsorbedOps(calls), OpsCounter(calls);
    forall k | 0 < k < |calls|
      ensures rep[k] + gone[k] as real == (ops[k] - ops[k - 1]) as real
    {
      OpsBalance(m, device, calls, k);
    }
    Telescope(rep, gone, ops, |calls|);
  }

  lemma BytesConserved(m: Memory, device: string, calls: seq<Call>)
    requires |device| <= NAME_MAX && Monotone(calls) && calls != []
    ensures Sum(ReportedBytes(m, device, calls), AbsorbedBytes(calls), |calls|) ==
            (Bytes(calls[|calls| - 1].r) - Bytes(calls[0].r)) as real
  {
    var rep, gone, bytes := ReportedBytes(m, device, calls), AbsorbedBytes(calls), BytesCounter(calls);
    forall k | 0 < k < |calls|
      ensures rep[k] + gone[k] as real == (bytes[k] - bytes[k - 1]) as real
    {
      BytesBalance(m, device, calls, k);
    }
    Telescope(rep, gone, bytes, |calls|);
  }

  /** The calls that absorb are those made when the clock was not yet positive, or did not advance:
      with a clock that is positive and advances, nothing is absorbed. */
  lemma SteadyClockAbsorbsNothing(calls: seq<Call>, k: nat)
    requires k < |calls| && forall i, j :: 0 <= i < j < |calls| ==> 0 < calls[i].now < calls[j].now
    ensures AbsorbedOps(calls)[k] == 0 && AbsorbedBytes(calls)[k] == 0
  {
    assert k > 0 ==> calls[k - 1].now < calls[k].now;
  }

  // ---------- whole runs ----------

  /** A call of a run: on a device that can be read, or on one that cannot. */
  datatype Event = Read(device: string, c: Call) | Unreadable(device: string)

  function Remembered(m: Memory, es: seq<Event>): Memory {
    if es == [] then m else
      var e := es[|es| - 1];
      if e.Read? then Memory(StatsOf(e.device, e.c.r), e.c.now) else Remembered(m, es[..|es| - 1])
  }

  /** The samples of the calls that succeed, in order. */
  function Samples(m: Memory, es: seq<Event>): seq<Sample> {
    if es == [] then [] else
      var pre, e := es[..|es| - 1], es[|es| - 1];
      if e.Read? then Samples(m, pre) + [Sampled(Remembered(m, pre), e.device, e.c.r, e.c.now, e.c.given)]
      else Samples(m, pre)
  }

  function Reads(es: seq<Event>): seq<Call> {
    if es == [] then []
    else if es[|es| - 1].Read? then Reads(es[..|es| - 1]) + [es[|es| - 1].c]
    else Reads(es[..|es| - 1])
  }

  lemma {:induction false} MemoriesCompose(m: Memory, pre: seq<Event>, es: seq<Event>)
    ensures Remembered(m, pre + es) == Remembered(Remembered(m, pre), es)
  {
    if es == [] {
      assert pre + es == pre;
    } else {
      MemoriesCompose(m, pre, es[..|es| - 1]);
      assert (pre + es)[..|pre + es| - 1] == pre + es[..|es| - 1];
    }
  }

  lemma SamplesSnoc(m: Memory, es: seq<Event>, e: Event)
    ensures Samples(m, es + [e]) == Samples(m, es) +
            if e.Read? then [Sampled(Remembered(m, es), e.device, e.c.r, e.c.now, e.c.given)] else []
  {
    assert (es + [e])[..|es|] == es;
  }

  lemma {:induction false} SamplesCompose(m: Memory, pre: seq<Event>, es: seq<Event>)
    ensures Samples(m, pre + es) == Samples(m, pre) + Samples(Remembered(m, pre), es)
  {
    if es == [] {
      assert pre + es == pre;
    } else {
      var es', e := es[..|es| - 1], es[|es| - 1];
      SamplesCompose(m, pre, es');
      MemoriesCompose(m, pre, es');
      assert pre + es == (pre + es') + [e] && es == es' + [e];
      SamplesSnoc(m, pre + es', e);
      SamplesSnoc(Remembered(m, pre), es', e);
    }
  }

  ghost predicate OnDevice(es: seq<Event>, device: string) {
    forall k :: 0 <= k < |es| && es[k].Read? ==> es[k].device == device
  }

  lemma {:induction false} StretchOutputs(m: Memory, es: seq<Event>, device: string)
    requires OnDevice(es, device)
    ensures |Samples(m, es)| == |Reads(es)|
    ensures Remembered(m, es) == Before(m, device, Reads(es), |Reads(es)|)
    ensures forall k :: 0 <= k < |Reads(es)| ==> Samples(m, es)[k] == Output(m, device, Reads(es), k)
  {
    if es == [] {
    } else {
      var pre := es[..|es| - 1];
      StretchOutputs(m, pre, device);
      var cs := Reads(pre);
      if es[|es| - 1].Read? {
        assert forall k :: 0 <= k <= |cs| ==> Before(m, device, Reads(es), k) == Before(m, device, cs, k);
      }
    }
  }

  /** The samples of a stretch, where they are among those of the run. */
  lemma SamplesOfStretch(m: Memory, before: seq<Event>, es: seq<Event>, after: seq<Event>)
    ensures var n, all := |Samples(m, before)|, Samples(m, before + es + after);
            var part := Samples(Remembered(m, before), es);
            n + |part| <= |all| && forall k :: 0 <= k < |part| ==> all[n + k] == part[k]
  {
    SamplesCompose(m, before + es, after);
    SamplesCompose(m, before, es);
  }

  /** In any run over any devices, with any failed reads: the samples of a stretch in which every
      successful call is on one device are those the conservation lemmas speak of, whatever the run did
      before, and so rate times time and the absorbed part add up to what the counters gained. */
  lemma StretchOfRunConserved(m: Memory, before: seq<Event>, es: seq<Event>, after: seq<Event>, device: string)
    requires OnDevice(es, device) && |device| <= NAME_MAX && Monotone(Reads(es)) && Reads(es) != []
    ensures var m' := Remembered(m, before);
            var n := |Samples(m, before)|;
            var cs := Reads(es);
            && n + |cs| <= |Samples(m, before + es + after)|
            && (forall k :: 0 <= k < |cs| ==> Samples(m, before + es + after)[n + k] == Output(m', device, cs, k))
            && Sum(ReportedOps(m', device, cs), AbsorbedOps(cs), |cs|) ==
               (Ops(cs[|cs| - 1].r) - Ops(cs[0].r)) as real
            && Sum(ReportedBytes(m', device, cs), AbsorbedBytes(cs), |cs|) ==
               (Bytes(cs[|cs| - 1].r) - Bytes(cs[0].r)) as real
  {
    var m' := Remembered(m, before);
    SamplesOfStretch(m, before, es, after);
    StretchOutputs(m', es, device);
    OpsConserved(m', device, Reads(es));
    BytesConserved(m', device, Reads(es));
  }

  /** The differences of two readings as rates over the time between them. */
  method Rates(curr: Stats, prev: Stats, dt: int) returns (iops: real, throughput: real)
    requires dt > 0
    ensures iops == OpsSince(curr, prev) as real / dt as real
    ensures throughput == BytesSince(curr, prev) as real / (dt as real * MEGABYTE as real)
  {
    var readDiff := Word(curr.readBytes - prev.readBytes);
    var writeDiff := Word(curr.writeBytes - prev.writeBytes);
    var opsDiff := Word(Word(curr.readOps + curr.writeOps) - Word(prev.readOps + prev.writeOps));
    iops := opsDiff as real / dt as real;
    throughput := Word(readDiff + writeDiff) as real / (dt as real * MEGABYTE as real);
  }

  // ---------- every sample of every run ----------

  /** No call has succeeded yet. */
  const START := Memory(Stats("", 0, 0, 0, 0), 0)

  function Successes(es: seq<Event>): seq<Event> {
    if es == [] then [] else Successes(es[..|es| - 1]) + if es[|es| - 1].Read? then [es[|es| - 1]] else []
  }

  /** The first 63 bytes of the one name are the other name. */
  predicate TakenFor(previous: string, device: string) {
    device == if |previous| <= 63 then previous else previous[..63]
  }

  function Modulo(x: int): nat {
    x % 0x1_0000_0000_0000_0000
  }

  /** What a sample must be, given the successful call before it, if any. */
  ghost predicate RightSample(out: Sample, e: Event, before: Option<Event>)
    requires e.Read? && (before.Some? ==> before.value.Read?)
  {
    && out.timestamp == e.c.now
    && (if before.None? || before.value.c.now <= 0 || !TakenFor(before.value.device, e.device)
        then out.iops == 0.0 && out.throughput == 0.0
        else if e.c.now <= before.value.c.now
        then out.iops == e.c.given.iops && out.throughput == e.c.given.throughput
        else var dt := (e.c.now - before.value.c.now) as real;
             && out.iops == Modulo(Ops(e.c.r) - Ops(before.value.c.r)) as real / dt
             && out.throughput == Modulo(Bytes(e.c.r) - Bytes(before.value.c.r)) as real / (dt * 1048576.0))
  }

  lemma FirstSample(e: Event)
    requires e.Read?
    ensures RightSample(Sampled(START, e.device, e.c.r, e.c.now, e.c.given), e, None)
  {
  }

  /** The sample of a call after another. */
  ghost function After(before: Event, e: Event): Sample
    requires e.Read? && before.Read?
  {
    Sampled(Memory(StatsOf(before.device, before.c.r), before.c.now), e.device, e.c.r, e.c.now, e.c.given)
  }

  lemma RatesAfter(before: Event, e: Event)
    requires e.Read? && before.Read?
    requires 0 < before.c.now < e.c.now && TakenFor(before.device, e.device)
    ensures var dt := (e.c.now - before.c.now) as real;
            && After(before, e).iops == Modulo(Ops(e.c.r) - Ops(before.c.r)) as real / dt
            && After(before, e).throughput == Modulo(Bytes(e.c.r) - Bytes(before.c.r)) as real / (dt * 1048576.0)
  {
    OpsGainModulo(before.device, e.device, before.c.r, e.c.r);
    BytesGainModulo(before.device, e.device, before.c.r, e.c.r);
    WordIsModulo(Ops(e.c.r) - Ops(before.c.r));
    WordIsModulo(Bytes(e.c.r) - Bytes(before.c.r));
  }

  lemma LaterSample(before: Event, e: Event)
    requires e.Read? && before.Read?
    ensures RightSample(After(before, e), e, Some(before))
  {
    if 0 < before.c.now < e.c.now && TakenFor(before.device, e.device) {
      RatesAfter(before, e);
    }
  }

  lemma {:induction false} RememberedIsLast(es: seq<Event>)
    ensures forall k :: 0 <= k < |Successes(es)| ==> Successes(es)[k].Read?
    ensures var rs := Successes(es);
            Remembered(START, es) == if rs == [] then START else
              Memory(StatsOf(rs[|rs| - 1].device, rs[|rs| - 1].c.r), rs[|rs| - 1].c.now)
  {
    if es == [] {
    } else {
      RememberedIsLast(es[..|es| - 1]);
    }
  }

  /** Every sample of every run, over any devices and with any failed reads: its time is its call's clock;
      its rates are zero if no call succeeded before it, or the last that did was made at a clock that was
      not positive or on a device not taken for this one; they are the caller's if no time elapsed since
      that call; and otherwise they are what the counters gained since then over the time, modulo the
      word. */
  lemma {:induction false} EverySample(es: seq<Event>, k: nat)
    requires k < |Successes(es)|
    ensures |Samples(START, es)| == |Successes(es)| && Successes(es)[k].Read? && (k > 0 ==> Successes(es)[k - 1].Read?)
    ensures RightSample(Samples(START, es)[k], Successes(es)[k], if k == 0 then None else Some(Successes(es)[k - 1]))
  {
    var pre, e := es[..|es| - 1], es[|es| - 1];
    RememberedIsLast(pre);
    RememberedIsLast(es);
    SamplesMatch(pre);
    SamplesMatch(es);
    var rs := Successes(pre);
    if k < |rs| {
      EverySample(pre, k);
    } else if k == 0 {
      FirstSample(e);
    } else {
      LaterSample(rs[k - 1], e);
    }
  }

  lemma {:induction false} SamplesMatch(es: seq<Event>)
    ensures |Samples(START, es)| == |Successes(es)|
  {
    if es == [] {
    } else {
      SamplesMatch(es[..|es| - 1]);
    }
  }

  /** With names of at most 63 bytes a device is taken for itself only; a longer name is never taken for
      itself, so that its rates are always zero. */
  lemma TakenForItselfIff(previous: string, device: string)
    ensures |previous| <= 63 ==> (TakenFor(previous, device) <==> previous == device)
    ensures TakenFor(device, device) <==> |device| <= 63
  {
    assert |device| > 63 ==> |device[..63]| != |device|;
  }

  /** On one device with a positive advancing clock and counters that moved, the second call reports them
      exactly when the name fits the field it is remembered in; a longer name never compares equal. */
  lemma RatedIffNameFits(before: Event, e: Event)
    requires e.Read? && before.Read? && before.device == e.device
    requires 0 < before.c.now < e.c.now && Modulo(Ops(e.c.r) - Ops(before.c.r)) != 0
    ensures After(before, e).iops != 0.0 <==> |e.device| <= 63
  {
    LaterSample(before, e);
    TakenForItselfIff(e.device, e.device);
    DivideAndMultiply(Modulo(Ops(e.c.r) - Ops(before.c.r)), (e.c.now - before.c.now) as real);
  }

  /** Two devices whose names share their first 63 bytes: the second sample reports the difference between
      the counters of the one and of the other. */
  lemma ClippedNameWitness() returns (es: seq<Event>)
    ensures |es| == 2 && es[0].Read? && es[1].Read? && es[0].device != es[1].device
    ensures |Samples(START, es)| == 2 && Samples(START, es)[1] == Sample(2, 10.0, 0.0)
  {
    var long, short := seq(64, _ => 'd'), seq(63, _ => 'd');
    var given := Sample(0, 0.0, 0.0);
    var a, b := Read(long, Call(Reading(0, 0, 0, 0), 1, given)), Read(short, Call(Reading(10, 0, 0, 0), 2, given));
    es := [] + [a] + [b];
    assert |long| != |short| && long[..63] == short;
    SamplesSnoc(START, [], a);
    SamplesSnoc(START, [] + [a], b);
    assert ([] + [a])[..0] == [];
  }

  class Sampler {
    var prev: Stats
    var prevTime: int

    ghost function View(): Memory
      reads this
    {
      Memory(prev, prevTime)
    }

    constructor ()
      ensures View() == START
    {
      prev, prevTime := Stats("", 0, 0, 0, 0), 0;
    }

    /** reading is None when the device is not in /proc/diskstats; then nothing changes. */
    method GetCurrentPerformance(device: string, reading: Option<Reading>, now: int, given: Sample)
      returns (code: int, sample: Sample)
      modifies this
      ensures code == (if reading.Some? then 0 else -1)
      ensures reading.None? ==> sample == given && View() == old(View())
      ensures reading.Some? ==>
                && sample == Sampled(old(View()), device, reading.value, now, given)
                && View() == Memory(StatsOf(device, reading.value), now)
    {
      sample := given;
      if reading.None? {
        return -1, given;
      }
      var r := reading.value;
      var curr := Stats(Clip(device), Word(r.readOps), Word(r.writeOps),
                        Word(r.readSectors * SECTOR), Word(r.writeSectors * SECTOR));
      assert curr == StatsOf(device, r);
      sample := sample.(timestamp := now);
      if prevTime > 0 && prev.device == device {
        var dt := now - prevTime;
        if dt > 0 {
          var iops, throughput := Rates(curr, prev, dt);
          sample := sample.(iops := iops, throughput := throughput);
        }
      } else {
        sample := sample.(iops := 0.0, throughput := 0.0);
      }
      prev, prevTime := curr, now;
      code := 0;
    }
  }
}
