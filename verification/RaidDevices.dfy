/** The device list of raid_get_status: the tokens of the mdadm listing that start with /dev/ are
    collected into sixteen slots, each once, for as long as the array is reported to have fewer than
    sixteen devices. */
module RaidDevices {
  import opened Common
  import opened Decimals
  import LL = LvmListing
  import CO = CommandOutput

  const SLOTS := 16

  /** A line of the listing by the branch it takes: it sets num_devices, it names a device, or it is
      handled elsewhere. */
  datatype Line = DeviceCount(n: int) | Device(token: string) | Unrelated

  // ---------- the text of a line ----------

  /** strstr: the text from the first occurrence on, empty when there is none. */
  function From(s: string, pattern: string): (t: string)
    requires pattern != ""
    ensures t != "" ==> pattern <= t
  {
    if |s| < |pattern| then "" else if s[..|pattern|] == pattern then s else From(s[1..], pattern)
  }

  predicate Has(s: string, pattern: string)
    requires pattern != ""
  {
    From(s, pattern) != ""
  }

  /** A literal word of a scanning format, after any white space. */
  function AfterWord(s: string, word: string): Option<string> {
    var t := LL.Trim(s);
    if word <= t then Some(t[|word|..]) else None
  }

  /** sscanf(line, " Raid Devices : %d", ...). */
  function ScanCount(line: string): Option<int> {
    match AfterWord(line, "Raid")
    case None => None
    case Some(a) =>
      match AfterWord(a, "Devices")
      case None => None
      case Some(b) =>
        match AfterWord(b, ":")
        case None => None
        case Some(c) =>
          var r := LL.Convert(LL.Trim(c), LL.Integer);
          if r.None? then None else Some(r.value.field.n)
  }

  /** The chain of tests on a line; a count that cannot be read leaves num_devices as it is. */
  function Classify(line: string): (l: Line)
    ensures l.Device? ==> l.token != ""
  {
    if Has(line, "Raid Level :") || Has(line, "State :") then Unrelated
    else if Has(line, "Raid Devices :") then
      var n := ScanCount(line);
      if n.None? then Unrelated else DeviceCount(n.value)
    else if Has(line, "Failed Devices :") || Has(line, "Active Devices :") || Has(line, "Array Size :") then Unrelated
    else if Has(line, "/dev/") then
      var t := From(line, "/dev/");
      assert t[0] == '/';
      Device(t[..LL.WordLength(t, |t|)])
    else Unrelated
  }

  function Classified(lines: seq<string>): seq<Line> {
    if lines == [] then [] else
      Classified(lines[..|lines| - 1]) + [Classify(lines[|lines| - 1])]
  }

  lemma ClassifiedSnoc(lines: seq<string>, line: string)
    ensures Classified(lines + [line]) == Classified(lines) + [Classify(line)]
  {
    assert (lines + [line])[..|lines|] == lines;
  }

  lemma {:induction false} CharNotInNorPattern(s: string, pattern: string, c: char)
    requires c in pattern && c !in s
    ensures !Has(s, pattern)
  {
    if |s| < |pattern| {
    } else {
      assert s[..|pattern|] != pattern;
      CharNotInNorPattern(s[1..], pattern, c);
    }
  }

  lemma {:induction false} FromAfter(before: string, rest: string, pattern: string)
    requires pattern != "" && pattern <= rest && pattern[0] !in before
    ensures From(before + rest, pattern) == rest
  {
    if before == [] {
      assert before + rest == rest;
    } else {
      assert (before + rest)[..|pattern|][0] == before[0] != pattern[0];
      assert (before + rest)[1..] == before[1..] + rest;
      FromAfter(before[1..], rest, pattern);
    }
  }

  /** Every label of the listing has a space and a colon. */
  lemma NoLabels(line: string, c: char)
    requires (c == ' ' || c == ':') && c !in line
    ensures !Has(line, "Raid Level :") && !Has(line, "State :") && !Has(line, "Raid Devices :")
    ensures !Has(line, "Failed Devices :") && !Has(line, "Active Devices :") && !Has(line, "Array Size :")
  {
    assert "Raid Level :"[10] == ' ' && "Raid Level :"[11] == ':' && "State :"[5] == ' ' && "State :"[6] == ':';
    assert "Raid Devices :"[12] == ' ' && "Raid Devices :"[13] == ':';
    assert "Failed Devices :"[14] == ' ' && "Failed Devices :"[15] == ':';
    assert "Active Devices :"[14] == ' ' && "Active Devices :"[15] == ':';
    assert "Array Size :"[10] == ' ' && "Array Size :"[11] == ':';
    CharNotInNorPattern(line, "Raid Level :", c);
    CharNotInNorPattern(line, "State :", c);
    CharNotInNorPattern(line, "Raid Devices :", c);
    CharNotInNorPattern(line, "Failed Devices :", c);
    CharNotInNorPattern(line, "Active Devices :", c);
    CharNotInNorPattern(line, "Array Size :", c);
  }

  predicate IsPath(p: string) {
    "/dev/" <= p && forall i :: 0 <= i < |p| ==> !LL.IsSpace(p[i])
  }

  lemma LabelFreeIsDevice(columns: string, path: string, rest: string, c: char)
    requires (c == ' ' || c == ':') && c !in columns + (path + rest) && '/' !in columns
    requires IsPath(path) && LL.Ends(rest)
    ensures Classify(columns + (path + rest)) == Device(path)
  {
    NoLabels(columns + (path + rest), c);
    FromAfter(columns, path + rest, "/dev/");
    LL.WordStops(path, rest, |path + rest|);
    assert (path + rest)[..|path|] == path;
  }

  /** A path alone on its line, such as the array's own name with a colon behind it that opens the
      listing, is taken for a device. */
  lemma PathAloneIsDevice(line: string)
    requires IsPath(line)
    ensures Classify(line) == Device(line)
  {
    assert LL.IsSpace(' ');
    assert "" + (line + "") == line;
    LabelFreeIsDevice("", line, "", ' ');
  }

  /** So is the path in a row of the device table, up to the white space behind it, if any. */
  lemma TableRowIsDevice(columns: string, path: string, rest: string)
    requires ':' !in columns + (path + rest) && '/' !in columns && IsPath(path) && LL.Ends(rest)
    ensures Classify(columns + (path + rest)) == Device(path)
  {
    LabelFreeIsDevice(columns, path, rest, ':');
  }

  /** A line with one of the labels never names a device, whatever else it has. */
  lemma LabelledLinesNameNothing(line: string)
    requires Has(line, "Raid Level :") || Has(line, "State :") || Has(line, "Raid Devices :") ||
             Has(line, "Failed Devices :") || Has(line, "Active Devices :") || Has(line, "Array Size :")
    ensures !Classify(line).Device?
    ensures Classify(line).DeviceCount? ==>
              Has(line, "Raid Devices :") && !Has(line, "Raid Level :") && !Has(line, "State :")
  {
  }

  lemma AfterWordOf(pad: nat, word: string, rest: string)
    requires word != "" && !LL.IsSpace(word[0])
    ensures AfterWord(LL.Spaces(pad) + (word + rest), word) == Some(rest)
  {
    LL.TrimSpaces(pad, word + rest);
  }

  /** "Raid Devices : n", indented. */
  function CountLine(pad: nat, n: nat): string {
    LL.Spaces(pad) + CountText(n)
  }

  function CountText(n: nat): string {
    "Raid" + (LL.Spaces(1) + ("Devices" + (LL.Spaces(1) + (":" + (LL.Spaces(1) + Decimal(n))))))
  }

  lemma ScanCountLine(pad: nat, n: nat)
    requires n < 0x8000_0000
    ensures ScanCount(CountLine(pad, n)) == Some(n)
  {
    var c := LL.Spaces(1) + Decimal(n);
    var b := LL.Spaces(1) + (":" + c);
    var a := LL.Spaces(1) + ("Devices" + b);
    AfterWordOf(pad, "Raid", a);
    AfterWordOf(1, "Devices", b);
    AfterWordOf(1, ":", c);
    LL.TrimSpaces(1, Decimal(n));
    LL.ConvertNumber(n, LL.Integer, "");
    assert Decimal(n) + "" == Decimal(n);
  }

  lemma NotInCountLine(pad: nat, n: nat, c: char)
    requires c == 'L' || c == 'S'
    ensures c !in CountLine(pad, n)
  {
    assert c !in LL.Spaces(pad) && c !in LL.Spaces(1) && c !in Decimal(n);
    assert c !in "Raid" && c !in "Devices" && c !in ":";
  }

  /** The count line sets num_devices to the number printed. */
  lemma CountLineIsRead(pad: nat, n: nat)
    requires n < 0x8000_0000
    ensures Classify(CountLine(pad, n)) == DeviceCount(n)
  {
    var line := CountLine(pad, n);
    NotInCountLine(pad, n, 'L');
    NotInCountLine(pad, n, 'S');
    assert "Raid Level :"[5] == 'L' && "State :"[0] == 'S';
    CharNotInNorPattern(line, "Raid Level :", 'L');
    CharNotInNorPattern(line, "State :", 'S');
    assert "Raid Devices :" <= CountText(n);
    FromAfter(LL.Spaces(pad), CountText(n), "Raid Devices :");
    ScanCountLine(pad, n);
  }

  // ---------- what is collected ----------

  function NumDevices(lines: seq<Line>): int {
    if lines == [] then 0
    else if lines[|lines| - 1].DeviceCount? then lines[|lines| - 1].n
    else NumDevices(lines[..|lines| - 1])
  }

  /** The tokens met while num_devices is below sixteen. */
  function Reaching(lines: seq<Line>): seq<string> {
    if lines == [] then [] else
      var pre := lines[..|lines| - 1];
      if lines[|lines| - 1].Device? && NumDevices(pre) < SLOTS
      then Reaching(pre) + [lines[|lines| - 1].token] else Reaching(pre)
  }

  /** The tokens that do not occur before, in order. */
  function FirstOccurrences(ts: seq<string>): (fs: seq<string>)
    ensures forall x :: x in fs <==> x in ts
  {
    if ts == [] then [] else
      var pre, t := ts[..|ts| - 1], ts[|ts| - 1];
      assert ts == pre + [t];
      if t in pre then FirstOccurrences(pre) else FirstOccurrences(pre) + [t]
  }

  ghost predicate Distinct(fs: seq<string>) {
    forall i, j :: 0 <= i < j < |fs| ==> fs[i] != fs[j]
  }

  lemma DistinctGrows(fs: seq<string>, t: string)
    requires Distinct(fs) && t !in fs
    ensures Distinct(fs + [t])
  {
  }

  lemma {:induction false} FirstOccurrencesDistinct(ts: seq<string>)
    ensures Distinct(FirstOccurrences(ts))
  {
    if ts == [] {
    } else {
      var pre, t := ts[..|ts| - 1], ts[|ts| - 1];
      FirstOccurrencesDistinct(pre);
      if t !in pre {
        DistinctGrows(FirstOccurrences(pre), t);
      }
    }
  }

  /** Order of first appearance: a token comes before another in the result exactly when it occurs
      first before the other occurs at all. */
  lemma {:induction false} FirstOccurrencesInOrder(ts: seq<string>, i: nat) returns (k: nat)
    requires i < |FirstOccurrences(ts)|
    ensures k < |ts| && ts[k] == FirstOccurrences(ts)[i] && ts[k] !in ts[..k]
    ensures FirstOccurrences(ts[..k]) == FirstOccurrences(ts)[..i]
  {
    var pre := ts[..|ts| - 1];
    if i < |FirstOccurrences(pre)| {
      k := FirstOccurrencesInOrder(pre, i);
      assert ts[..k] == pre[..k] && ts[k] == pre[k];
      assert FirstOccurrences(ts)[..i] == FirstOccurrences(pre)[..i];
    } else {
      k := |ts| - 1;
    }
  }

  function Capped(fs: seq<string>): seq<string> {
    if |fs| <= SLOTS then fs else fs[..SLOTS]
  }

  /** What the slots hold after the given lines. */
  function Collected(lines: seq<Line>): seq<string> {
    Capped(FirstOccurrences(Reaching(lines)))
  }

  /** One more token: nothing happens when it is held already or the slots are full. */
  lemma OneMoreToken(ts: seq<string>, t: string)
    ensures var held := Capped(FirstOccurrences(ts));
            Capped(FirstOccurrences(ts + [t])) == if t in held || |held| == SLOTS then held else held + [t]
  {
    assert (ts + [t])[..|ts|] == ts;
  }

  lemma CollectedStep(lines: seq<Line>, l: Line)
    ensures NumDevices(lines + [l]) == if l.DeviceCount? then l.n else NumDevices(lines)
    ensures var held := Collected(lines);
            Collected(lines + [l]) ==
            if l.Device? && NumDevices(lines) < SLOTS && l.token !in held && |held| < SLOTS
            then held + [l.token] else held
  {
    assert (lines + [l])[..|lines|] == lines;
    if l.Device? {
      OneMoreToken(Reaching(lines), l.token);
    }
  }

  /** An array of sixteen devices or more: once its count has been read, no device line adds a slot. */
  lemma {:induction false} WideArrayStops(lines: seq<Line>, more: seq<Line>)
    requires NumDevices(lines) >= 16
    requires forall i :: 0 <= i < |more| ==> more[i].DeviceCount? ==> more[i].n >= 16
    ensures NumDevices(lines + more) >= 16 && Collected(lines + more) == Collected(lines)
  {
    if more == [] {
      assert lines + more == lines;
    } else {
      var pre, l := more[..|more| - 1], more[|more| - 1];
      WideArrayStops(lines, pre);
      assert lines + more == (lines + pre) + [l];
      CollectedStep(lines + pre, l);
    }
  }

  // ---------- what the first line costs ----------

  function Elements(ts: seq<string>): set<string> {
    if ts == [] then {} else Elements(ts[..|ts| - 1]) + {ts[|ts| - 1]}
  }

  lemma {:induction false} ElementsAre(ts: seq<string>, x: string)
    ensures x in Elements(ts) <==> x in ts
  {
    if ts == [] {
    } else {
      var pre, t := ts[..|ts| - 1], ts[|ts| - 1];
      ElementsAre(pre, x);
      assert ts == pre + [t];
    }
  }

  lemma {:induction false} CountFirstOccurrences(ts: seq<string>)
    ensures |FirstOccurrences(ts)| == |Elements(ts)|
  {
    if ts == [] {
    } else {
      var pre, t := ts[..|ts| - 1], ts[|ts| - 1];
      CountFirstOccurrences(pre);
      ElementsAre(pre, t);
      assert t in pre ==> Elements(ts) == Elements(pre);
    }
  }

  /** The devices the listing names. */
  function Named(lines: seq<Line>): set<string> {
    if lines == [] then {} else
      var pre, l := lines[..|lines| - 1], lines[|lines| - 1];
      if l.Device? then Named(pre) + {l.token} else Named(pre)
  }

  predicate Narrow(lines: seq<Line>) {
    forall i :: 0 <= i < |lines| && lines[i].DeviceCount? ==> lines[i].n < 16
  }

  lemma {:induction false} NarrowReachesAll(lines: seq<Line>)
    requires Narrow(lines)
    ensures NumDevices(lines) < SLOTS && Elements(Reaching(lines)) == Named(lines)
  {
    if lines == [] {
    } else {
      var pre, l := lines[..|lines| - 1], lines[|lines| - 1];
      NarrowReachesAll(pre);
      if l.Device? {
        assert (Reaching(pre) + [l.token])[..|Reaching(pre)|] == Reaching(pre);
      }
    }
  }

  /** A device on the first line takes the first slot for good. */
  lemma {:induction false} FirstLineIsHeld(lines: seq<Line>)
    requires lines != [] && lines[0].Device?
    ensures |Collected(lines)| > 0 && Collected(lines)[0] == lines[0].token
    ensures lines[0].token in Named(lines)
  {
    var pre, l := lines[..|lines| - 1], lines[|lines| - 1];
    assert lines == pre + [l];
    CollectedStep(pre, l);
    if pre == [] {
      assert Collected(pre) == [];
    } else {
      FirstLineIsHeld(pre);
    }
  }

  lemma {:induction false} ClassifiedHead(lines: seq<string>)
    requires lines != []
    ensures Classified(lines) != [] && Classified(lines)[0] == Classify(lines[0])
  {
    if |lines| == 1 {
    } else {
      ClassifiedHead(lines[..|lines| - 1]);
    }
  }

  /** So a listing that opens with the array's own name has that name, colon and all, as its first
      device, whatever else it says. */
  lemma ArrayNameTakesSlot(lines: seq<string>)
    requires lines != [] && IsPath(lines[0])
    ensures var held := Collected(Classified(lines)); |held| > 0 && held[0] == lines[0]
  {
    ClassifiedHead(lines);
    PathAloneIsDevice(lines[0]);
    FirstLineIsHeld(Classified(lines));
  }

  lemma CappedHoldsAllIff(fs: seq<string>)
    requires Distinct(fs)
    ensures (forall x :: x in fs ==> x in Capped(fs)) <==> |fs| <= SLOTS
  {
    if |fs| > SLOTS {
      assert fs[SLOTS] in fs && fs[SLOTS] !in fs[..SLOTS];
    }
  }

  /** With the array's own name on the first line and a device count below sixteen throughout, every
      device the listing names is held exactly when it names at most fifteen besides. */
  lemma OthersHeldIff(lines: seq<Line>)
    requires lines != [] && lines[0].Device? && Narrow(lines)
    ensures (forall x :: x in Named(lines) ==> x in Collected(lines)) <==>
            |Named(lines) - {lines[0].token}| <= 15
  {
    var ts := Reaching(lines);
    NarrowReachesAll(lines);
    CountFirstOccurrences(ts);
    forall x ensures x in Named(lines) <==> x in FirstOccurrences(ts) {
      ElementsAre(ts, x);
    }
    FirstOccurrencesDistinct(ts);
    CappedHoldsAllIff(FirstOccurrences(ts));
    FirstLineIsHeld(lines);
    assert Named(lines) == (Named(lines) - {lines[0].token}) + {lines[0].token};
  }

  // ---------- the code ----------

  /** The slots hold these tokens, then empty strings. */
  ghost predicate Holds(a: array<string>, held: seq<string>)
    reads a
  {
    && a.Length == SLOTS && |held| <= SLOTS
    && (forall i :: 0 <= i < |held| ==> a[i] == held[i] && held[i] != "")
    && (forall i :: |held| <= i < SLOTS ==> a[i] == "")
  }

  /** The device branch for one token: the search loop, then the loop for an empty slot. */
  method AddDevice(devices: array<string>, token: string, ghost held: seq<string>)
    requires Holds(devices, held) && token != ""
    modifies devices
    ensures Holds(devices, if token in held || |held| == SLOTS then held else held + [token])
  {
    var found := false;
    var i := 0;
    while i < SLOTS && devices[i] != ""
      invariant 0 <= i <= |held|
      invariant !found && token !in held[..i]
    {
      if devices[i] == token {
        found := true;
        break;
      }
      i := i + 1;
    }
    if !found {
      assert i == |held| && held[..i] == held;
      var j := 0;
      while j < SLOTS
        invariant 0 <= j <= |held|
        invariant Holds(devices, held)
      {
        if devices[j] == "" {
          devices[j] := token;
          return;
        }
        j := j + 1;
      }
    }
  }

  /** num_devices and the slots are as the given lines leave them. */
  ghost predicate Reflects(num: int, devices: array<string>, lines: seq<string>)
    reads devices
  {
    num == NumDevices(Classified(lines)) && Holds(devices, Collected(Classified(lines)))
  }

  /** One turn of the loop over the listing. */
  method HandleLine(lines: seq<string>, k: nat, devices: array<string>, num: int) returns (numDevices: int)
    requires k < |lines| && Reflects(num, devices, lines[..k])
    modifies devices
    ensures Reflects(numDevices, devices, lines[..k + 1])
  {
    var l := Classify(lines[k]);
    ghost var before := Classified(lines[..k]);
    assert lines[..k + 1][..k] == lines[..k];
    CollectedStep(before, l);
    numDevices := num;
    match l {
      case DeviceCount(n) => numDevices := n;
      case Device(token) =>
        if numDevices < SLOTS {
          AddDevice(devices, token, Collected(before));
        }
      case Unrelated =>
    }
  }

  /** The whole loop: the slots end up with the first sixteen distinct tokens that reach the branch, in
      order of first appearance and without a gap. */
  method CollectDevices(lines: seq<string>, devices: array<string>) returns (numDevices: int)
    requires Holds(devices, [])
    modifies devices
    ensures Reflects(numDevices, devices, lines)
  {
    numDevices := 0;
    var k := 0;
    while k < |lines|
      invariant 0 <= k <= |lines|
      invariant Reflects(numDevices, devices, lines[..k])
    {
      numDevices := HandleLine(lines, k, devices, numDevices);
      k := k + 1;
    }
    assert lines[..k] == lines;
  }

  /** The part of the memset that empties the slots. */
  method ClearDevices(devices: array<string>)
    requires devices.Length == SLOTS
    modifies devices
    ensures Holds(devices, [])
  {
    var i := 0;
    while i < SLOTS
      invariant 0 <= i <= SLOTS
      invariant forall j :: 0 <= j < i ==> devices[j] == ""
    {
      devices[i] := "";
      i := i + 1;
    }
  }

  /** raid_get_status, as far as num_devices and the device list go: a missing array or a failing
      command leaves both as they were. */
  method GetStatus(present: bool, stream: string, exit: CO.Exit, devices: array<string>, num: int)
    returns (result: int, numDevices: int)
    requires devices.Length == SLOTS
    modifies devices
    ensures result == if !present then -2 else if exit == CO.Exited(0) then 0 else -5
    ensures result != 0 ==> numDevices == num && devices[..] == old(devices[..])
    ensures result == 0 ==>
              Reflects(numDevices, devices, LL.Lines(CO.Captured(stream, 4096)))
  {
    if !present {
      return CO.NOT_FOUND, num;
    }
    var code, output := CO.ExecuteCommand(stream, exit, LL.MAX_OUTPUT, "");
    if code != CO.SUCCESS {
      return code, num;
    }
    ClearDevices(devices);
    numDevices := CollectDevices(LL.Lines(output), devices);
    result := CO.SUCCESS;
  }
}
