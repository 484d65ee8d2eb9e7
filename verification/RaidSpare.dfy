/** The mdadm listing of an array of fifteen devices and a spare, on which raid_get_status loses the
    spare to the array's own name. */
module RaidSpare {
  import opened Decimals
  import opened RaidDevices
  import LL = LvmListing
  import CO = CommandOutput

  function Disk(i: nat): string
    requires i < SLOTS
  {
    "/dev/sd" + ['a' + i as char]
  }

  /** The columns of the device table before the path. */
  function Columns(i: nat): string {
    "   " + (Decimal(i) + ("   8   0   " + (Decimal(i) + "   active sync   ")))
  }

  /** The lines of the listing down to the first n rows of its device table. */
  function Listing(n: nat): seq<string>
    requires n <= SLOTS
  {
    if n == 0 then ["/dev/md0:", CountLine(5, 15)] else Listing(n - 1) + [Columns(n - 1) + Disk(n - 1)]
  }

  lemma DisksDiffer(i: nat, j: nat)
    requires i < SLOTS && j < SLOTS && i != j
    ensures Disk(i) != Disk(j)
  {
    assert Disk(i)[7] != Disk(j)[7];
  }

  lemma DiskIsPath(i: nat)
    requires i < SLOTS
    ensures IsPath(Disk(i)) && ':' !in Disk(i) && |Disk(i)| == 8
  {
  }

  /** No character that ends a line or a text, or that a label or a path has. */
  predicate Clean(s: string) {
    forall i :: 0 <= i < |s| ==> s[i] != '\n' && s[i] != '\0' && s[i] != ':' && s[i] != '/'
  }

  lemma CleanJoin(a: string, b: string)
    requires Clean(a) && Clean(b)
    ensures Clean(a + b)
  {
  }

  lemma ColumnsAreClean(i: nat)
    ensures Clean(Columns(i))
  {
    var d, status := Decimal(i), "   active sync   ";
    assert forall k :: 0 <= k < |d| ==> IsDigit(d[k]);
    CleanJoin(d, status);
    CleanJoin("   8   0   ", d + status);
    CleanJoin(d, "   8   0   " + (d + status));
    CleanJoin("   ", d + ("   8   0   " + (d + status)));
  }

  lemma RowIsDevice(i: nat)
    requires i < SLOTS
    ensures Classify(Columns(i) + Disk(i)) == Device(Disk(i))
  {
    DiskIsPath(i);
    ColumnsAreClean(i);
    assert Disk(i) + "" == Disk(i);
    TableRowIsDevice(Columns(i), Disk(i), "");
  }

  lemma ListingStarts()
    ensures Classified(Listing(0)) == [Device("/dev/md0:"), DeviceCount(15)]
  {
    var name := [] + ["/dev/md0:"];
    assert Listing(0) == name + [CountLine(5, 15)];
    PathAloneIsDevice("/dev/md0:");
    CountLineIsRead(5, 15);
    ClassifiedSnoc([], "/dev/md0:");
    ClassifiedSnoc(name, CountLine(5, 15));
  }

  lemma ListingGrows(n: nat)
    requires n < SLOTS
    ensures Classified(Listing(n + 1)) == Classified(Listing(n)) + [Device(Disk(n))]
  {
    RowIsDevice(n);
    ClassifiedSnoc(Listing(n), Columns(n) + Disk(n));
  }

  lemma HeldAtFirst()
    ensures var ls := Classified(Listing(0)); NumDevices(ls) == 15 && Collected(ls) == ["/dev/md0:"]
  {
    var start := [] + [Device("/dev/md0:")];
    ListingStarts();
    assert Classified(Listing(0)) == start + [DeviceCount(15)];
    CollectedStep([], Device("/dev/md0:"));
    CollectedStep(start, DeviceCount(15));
  }

  lemma HeldStep(ls: seq<Line>, t: string, x: string)
    requires NumDevices(ls) == 15 && |Collected(ls)| < SLOTS
    requires t !in Collected(ls) && x !in Collected(ls) && x != t
    ensures var ls' := ls + [Device(t)];
            NumDevices(ls') == 15 && |Collected(ls')| == |Collected(ls)| + 1 && x !in Collected(ls')
  {
    CollectedStep(ls, Device(t));
  }

  /** While there is room, each disk gets a slot, and none of the later ones is held. */
  lemma {:induction false} HeldSoFar(n: nat, i: nat)
    requires n <= i < SLOTS
    ensures var ls := Classified(Listing(n));
            NumDevices(ls) == 15 && |Collected(ls)| == n + 1 && Disk(i) !in Collected(ls)
  {
    if n == 0 {
      HeldAtFirst();
      DiskIsPath(i);
    } else {
      HeldSoFar(n - 1, i);
      HeldSoFar(n - 1, n - 1);
      DisksDiffer(i, n - 1);
      ListingGrows(n - 1);
      HeldStep(Classified(Listing(n - 1)), Disk(n - 1), Disk(i));
    }
  }

  lemma FullStep(ls: seq<Line>, t: string)
    requires |Collected(ls)| == SLOTS
    ensures Collected(ls + [Device(t)]) == Collected(ls) && NumDevices(ls + [Device(t)]) == NumDevices(ls)
    ensures t in Named(ls + [Device(t)])
  {
    CollectedStep(ls, Device(t));
  }

  lemma {:induction false} ListingHead(n: nat)
    requires n <= SLOTS
    ensures |Listing(n)| == n + 2 && Listing(n)[0] == "/dev/md0:"
  {
    if n == 0 {
    } else {
      ListingHead(n - 1);
    }
  }

  lemma NameIsHeld(n: nat)
    requires n <= SLOTS
    ensures var held := Collected(Classified(Listing(n))); |held| > 0 && held[0] == "/dev/md0:"
  {
    assert IsPath("/dev/md0:");
    ListingHead(n);
    ArrayNameTakesSlot(Listing(n));
  }

  lemma SpareIsLost(n: nat)
    requires n == 15
    ensures var ls := Classified(Listing(n + 1));
            && NumDevices(ls) == 15 && |Collected(ls)| == SLOTS && Collected(ls)[0] == "/dev/md0:"
            && Disk(n) in Named(ls) && Disk(n) !in Collected(ls)
  {
    HeldSoFar(n, n);
    ListingGrows(n);
    FullStep(Classified(Listing(n)), Disk(n));
    NameIsHeld(n + 1);
  }

  // ---------- the listing as the output of the command ----------

  predicate Short(line: string) {
    LL.Plain(line) && 0 < |line| < 80
  }

  lemma RowIsShort(i: nat)
    requires i < SLOTS
    ensures Short(Columns(i) + Disk(i))
  {
    ColumnsAreClean(i);
    DiskIsPath(i);
    DecimalLength(i, 2);
  }

  lemma CountLineIsShort()
    ensures Short(CountLine(5, 15))
  {
    DecimalLength(15, 2);
    assert forall k :: 0 <= k < |Decimal(15)| ==> IsDigit(Decimal(15)[k]);
  }

  lemma {:induction false} LinesAreShort(n: nat, i: nat)
    requires n <= SLOTS && i < |Listing(n)|
    ensures Short(Listing(n)[i])
  {
    if n == 0 {
      CountLineIsShort();
    } else if i < |Listing(n - 1)| {
      LinesAreShort(n - 1, i);
    } else {
      RowIsShort(n - 1);
    }
  }

  lemma {:induction false} ConcatIsShort(ps: seq<string>, m: nat)
    requires forall i :: 0 <= i < |ps| ==> |ps[i]| <= m
    ensures |CO.Concat(ps)| <= m * |ps|
  {
    if ps == [] {
    } else {
      ConcatIsShort(ps[1..], m);
    }
  }

  lemma ListingIsCaptured(n: nat)
    requires n <= SLOTS
    ensures LL.Lines(CO.Captured(CO.Concat(LL.Ended(Listing(n))), 4096)) == Listing(n)
  {
    var lines := Listing(n);
    forall i | 0 <= i < |lines|
      ensures Short(lines[i])
    {
      LinesAreShort(n, i);
    }
    ListingHead(n);
    ConcatIsShort(LL.Ended(lines), 80);
    var kept := LL.CapturedLines(lines, 4096);
  }

  /** The output of mdadm for fifteen devices and a spare, on which the spare gets no slot. */
  lemma SpareIsLostWitness() returns (stream: string, spare: string)
    ensures var ls := Classified(LL.Lines(CO.Captured(stream, 4096)));
            && NumDevices(ls) == 15 && |Collected(ls)| == SLOTS && Collected(ls)[0] == "/dev/md0:"
            && spare in Named(ls) && spare !in Collected(ls)
  {
    var n: nat :| n == 15;
    stream, spare := CO.Concat(LL.Ended(Listing(n + 1))), Disk(n);
    ListingIsCaptured(n + 1);
    SpareIsLost(n);
  }
}
