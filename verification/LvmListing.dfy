/** The listing parsers lvm_pv_list, lvm_vg_list and lvm_lv_list: a captured listing is cut into lines
    by strtok, each line is scanned with a fixed sscanf format, and the accepted ones fill an array. */
module LvmListing {
  import opened Common
  import opened Decimals
  import CO = CommandOutput

  const MAX_OUTPUT := 4096

  // ---------- sscanf ----------

  datatype Directive = Word(max: nat) | Unsigned | Integer   // %<max>s, %llu, %d
  datatype Field = Text(s: string) | Number(n: int)

  predicate IsSpace(c: char) {
    c == ' ' || '\t' <= c <= '\r'
  }

  function Trim(s: string): (t: string)
    ensures |t| <= |s| && (t != [] ==> !IsSpace(t[0]))
  {
    if s != [] && IsSpace(s[0]) then Trim(s[1..]) else s
  }

  /** Leading bytes that are not white space, at most max. */
  function WordLength(s: string, max: nat): (n: nat)
    ensures n <= |s| && n <= max
  {
    if s == [] || max == 0 || IsSpace(s[0]) then 0 else 1 + WordLength(s[1..], max - 1)
  }

  function Digits(s: string): (n: nat)
    ensures n <= |s| && AllDigits(s[..n])
  {
    if s == [] || !IsDigit(s[0]) then 0 else
      var n := Digits(s[1..]);
      assert forall i :: 0 < i < n + 1 ==> s[i] == s[1..][i - 1];
      1 + n
  }

  /** strtoull: too large a number saturates, and a minus sign negates in unsigned arithmetic. */
  function Unsigned64(negative: bool, v: nat): nat {
    if v >= WORD then WORD - 1 else if negative && v > 0 then WORD - v else v
  }

  /** strtol, then the conversion to a 32-bit int. */
  function Signed32(negative: bool, v: nat): int {
    var half, w: int := WORD / 2, v;
    var long := if negative then (if w > half then -half else -w) else (if w >= half then half - 1 else w);
    var low := long % 0x1_0000_0000;
    if low >= 0x8000_0000 then low - 0x1_0000_0000 else low
  }

  function SignLength(s: string): nat {
    if s != [] && (s[0] == '+' || s[0] == '-') then 1 else 0
  }

  datatype Conversion = Conversion(field: Field, used: nat)

  function Convert(s: string, d: Directive): (c: Option<Conversion>)
    ensures c.Some? ==> c.value.used <= |s| && (c.value.field.Text? <==> d.Word?)
  {
    match d
    case Word(max) =>
      var n := WordLength(s, max);
      if n == 0 then None else Some(Conversion(Text(s[..n]), n))
    case _ =>
      var sign := SignLength(s);
      var n := Digits(s[sign..]);
      if n == 0 then None else
        var v := Value(s[sign..][..n]);
        var negative := sign > 0 && s[0] == '-';
        Some(Conversion(Number(if d == Unsigned then Unsigned64(negative, v) else Signed32(negative, v)), sign + n))
  }

  /** The fields assigned before the input ends or stops matching; each conversion skips white space. */
  function Scan(s: string, fmt: seq<Directive>): (fs: seq<Field>)
    ensures |fs| <= |fmt| && forall i :: 0 <= i < |fs| ==> (fs[i].Text? <==> fmt[i].Word?)
    decreases |fmt|
  {
    if fmt == [] then [] else
      var t := Trim(s);
      match Convert(t, fmt[0])
      case None => []
      case Some(c) => [c.field] + Scan(t[c.used..], fmt[1..])
  }

  // ---------- how a record is printed ----------

  function Spaces(n: nat): string {
    seq(n, _ => ' ')
  }

  function Shown(f: Field): string
    requires f.Number? ==> f.n >= 0
  {
    match f
    case Text(s) => s
    case Number(n) => Decimal(n)
  }

  predicate Fits(f: Field, d: Directive) {
    match d
    case Word(max) => f.Text? && 0 < |f.s| <= max && '\0' !in f.s && forall i :: 0 <= i < |f.s| ==> !IsSpace(f.s[i])
    case Unsigned => f.Number? && 0 <= f.n < WORD
    case Integer => f.Number? && 0 <= f.n < 0x8000_0000
  }

  predicate AllFit(fs: seq<Field>, fmt: seq<Directive>) {
    |fs| <= |fmt| && forall i :: 0 <= i < |fs| ==> Fits(fs[i], fmt[i])
  }

  /** Columns with any amount of space before each and after the last. */
  function Printed(fs: seq<Field>, fmt: seq<Directive>, pads: seq<nat>, tail: nat): string
    requires AllFit(fs, fmt) && |pads| == |fs|
  {
    if fs == [] then Spaces(tail)
    else Spaces(pads[0]) + (Shown(fs[0]) + Printed(fs[1..], fmt[1..], pads[1..], tail))
  }

  predicate Separated(pads: seq<nat>) {
    forall i :: 0 < i < |pads| ==> pads[i] > 0
  }

  predicate Ends(s: string) {
    s == [] || IsSpace(s[0])
  }

  lemma {:induction false} TrimSpaces(n: nat, s: string)
    requires s == [] || !IsSpace(s[0])
    ensures Trim(Spaces(n) + s) == s
  {
    if n > 0 {
      assert (Spaces(n) + s)[1..] == Spaces(n - 1) + s;
      TrimSpaces(n - 1, s);
    } else {
      assert Spaces(0) + s == s;
    }
  }

  lemma {:induction false} WordStops(w: string, rest: string, max: nat)
    requires |w| <= max && Ends(rest) && forall i :: 0 <= i < |w| ==> !IsSpace(w[i])
    ensures WordLength(w + rest, max) == |w|
  {
    if w != [] {
      assert (w + rest)[1..] == w[1..] + rest;
      WordStops(w[1..], rest, max - 1);
    } else {
      assert w + rest == rest;
    }
  }

  lemma {:induction false} DigitsStop(d: string, rest: string)
    requires AllDigits(d) && Ends(rest)
    ensures Digits(d + rest) == |d|
  {
    if d != [] {
      assert (d + rest)[1..] == d[1..] + rest;
      DigitsStop(d[1..], rest);
    } else {
      assert d + rest == rest;
    }
  }

  lemma ConvertWord(w: string, max: nat, rest: string)
    requires Fits(Text(w), Word(max)) && Ends(rest)
    ensures Convert(w + rest, Word(max)) == Some(Conversion(Text(w), |w|))
  {
    WordStops(w, rest, max);
    assert (w + rest)[..|w|] == w;
  }

  lemma SmallNumbers(n: nat)
    ensures n < WORD ==> Unsigned64(false, n) == n
    ensures n < 0x8000_0000 ==> Signed32(false, n) == n
  {
  }

  lemma ReadDecimal(n: nat, rest: string)
    requires Ends(rest)
    ensures var s := Decimal(n) + rest;
            && SignLength(s) == 0 && s[0..] == s
            && Digits(s) == |Decimal(n)| && s[..|Decimal(n)|] == Decimal(n)
  {
    var t := Decimal(n);
    assert IsDigit(t[0]) && (t + rest)[0] == t[0];
    DigitsStop(t, rest);
  }

  lemma ConvertNumber(n: nat, d: Directive, rest: string)
    requires Fits(Number(n), d) && Ends(rest)
    ensures Convert(Decimal(n) + rest, d) == Some(Conversion(Number(n), |Decimal(n)|))
  {
    ReadDecimal(n, rest);
    ValueOfDecimal(n);
    SmallNumbers(n);
  }

  /** A number behind a sign: a plus sign changes nothing, a minus sign negates, in unsigned arithmetic for
      an unsigned conversion. */
  lemma ConvertSigned(sign: char, n: nat, d: Directive, rest: string)
    requires (sign == '+' || sign == '-') && Fits(Number(n), d) && Ends(rest)
    ensures Convert([sign] + (Decimal(n) + rest), d) ==
            Some(Conversion(Number(if sign == '+' || n == 0 then n
                                   else if d == Unsigned then 0x1_0000_0000_0000_0000 - n else -(n as int)),
                            1 + |Decimal(n)|))
  {
    ReadSigned(sign, n, rest);
    ValueOfDecimal(n);
    SmallNegatives(n);
    SmallNumbers(n);
  }

  lemma ReadSigned(sign: char, n: nat, rest: string)
    requires (sign == '+' || sign == '-') && Ends(rest)
    ensures var s := [sign] + (Decimal(n) + rest);
            && SignLength(s) == 1 && s[0] == sign
            && Digits(s[1..]) == |Decimal(n)| && s[1..][..|Decimal(n)|] == Decimal(n)
  {
    var s := [sign] + (Decimal(n) + rest);
    assert s[1..] == Decimal(n) + rest;
    ReadDecimal(n, rest);
  }

  lemma SmallNegatives(n: nat)
    ensures 0 < n < WORD ==> Unsigned64(true, n) == WORD - n
    ensures n < 0x8000_0000 ==> Signed32(true, n) == -(n as int)
  {
  }

  lemma ConvertShown(f: Field, d: Directive, rest: string)
    requires Fits(f, d) && Ends(rest)
    ensures Convert(Shown(f) + rest, d) == Some(Conversion(f, |Shown(f)|))
    ensures |Shown(f)| > 0 && !IsSpace(Shown(f)[0])
  {
    if d.Word? {
      ConvertWord(f.s, d.max, rest);
    } else {
      ConvertNumber(f.n, d, rest);
      assert IsDigit(Decimal(f.n)[0]);
    }
  }

  lemma PrintedEnds(fs: seq<Field>, fmt: seq<Directive>, pads: seq<nat>, tail: nat)
    requires AllFit(fs, fmt) && |pads| == |fs| && (fs != [] ==> pads[0] > 0)
    ensures Ends(Printed(fs, fmt, pads, tail))
  {
  }

  lemma ScanStep(s: string, fmt: seq<Directive>, t: string, c: Conversion)
    requires fmt != [] && Trim(s) == t && Convert(t, fmt[0]) == Some(c)
    ensures c.used <= |t| && Scan(s, fmt) == [c.field] + Scan(t[c.used..], fmt[1..])
  {
  }

  /** Scanning a printed line gives back its fields, all of them and no more. */
  lemma {:induction false} ScanPrinted(fs: seq<Field>, fmt: seq<Directive>, pads: seq<nat>, tail: nat)
    requires AllFit(fs, fmt) && |pads| == |fs| && Separated(pads)
    ensures Scan(Printed(fs, fmt, pads, tail), fmt) == fs
    decreases |fs|
  {
    if fs == [] {
      TrimSpaces(tail, []);
      assert Spaces(tail) + [] == Spaces(tail);
    } else {
      var rest, w := Printed(fs[1..], fmt[1..], pads[1..], tail), Shown(fs[0]);
      PrintedEnds(fs[1..], fmt[1..], pads[1..], tail);
      ConvertShown(fs[0], fmt[0], rest);
      TrimSpaces(pads[0], w + rest);
      ScanStep(Printed(fs, fmt, pads, tail), fmt, w + rest, Conversion(fs[0], |w|));
      assert (w + rest)[|w|..] == rest;
      ScanPrinted(fs[1..], fmt[1..], pads[1..], tail);
    }
  }

  // ---------- records ----------

  datatype Kind = Pv | Vg | Lv

  datatype Record =
    | PvInfo(name: string, size: int, free: int, vg: string, inGroup: bool)
    | VgInfo(name: string, size: int, free: int, pvCount: int, lvCount: int)
    | LvInfo(name: string, vg: string, size: int, path: string, active: bool, snapshot: bool)

  function Format(k: Kind): seq<Directive> {
    match k
    case Pv => [Word(255), Unsigned, Unsigned, Word(63)]
    case Vg => [Word(63), Unsigned, Unsigned, Integer, Integer]
    case Lv => [Word(63), Word(63), Unsigned, Word(255)]
  }

  /** What the code makes of the assigned fields; too few of them and the line is not counted. */
  function Decode(k: Kind, fs: seq<Field>): Option<Record>
    requires |fs| <= |Format(k)| && forall i :: 0 <= i < |fs| ==> (fs[i].Text? <==> Format(k)[i].Word?)
  {
    match k
    case Pv =>
      if |fs| < 3 then None else
        var vg := if |fs| == 4 then fs[3].s else "";
        Some(PvInfo(fs[0].s, fs[1].n, fs[2].n, vg, |fs| == 4 && |vg| > 0))
    case Vg =>
      if |fs| != 5 then None else Some(VgInfo(fs[0].s, fs[1].n, fs[2].n, fs[3].n, fs[4].n))
    case Lv =>
      if |fs| < 3 then None else
        Some(LvInfo(fs[0].s, fs[1].s, fs[2].n, if |fs| == 4 then fs[3].s else "", true, false))
  }

  /** The columns the LVM tools print; an unset last column is blank. */
  function Columns(r: Record): seq<Field> {
    match r
    case PvInfo(name, size, free, vg, _) =>
      [Text(name), Number(size), Number(free)] + if vg == "" then [] else [Text(vg)]
    case VgInfo(name, size, free, pvs, lvs) => [Text(name), Number(size), Number(free), Number(pvs), Number(lvs)]
    case LvInfo(name, vg, size, path, _, _) =>
      [Text(name), Text(vg), Number(size)] + if path == "" then [] else [Text(path)]
  }

  predicate IsWord(s: string, max: nat) {
    0 < |s| <= max && '\0' !in s && forall i :: 0 <= i < |s| ==> !IsSpace(s[i])
  }

  predicate IsSize(n: int) {
    0 <= n < 0x1_0000_0000_0000_0000
  }

  /** A record as the tools can report it, with names that fit their buffers: a physical volume is
      allocated when it has a volume group, which may be unset, as may the path of a logical volume. */
  predicate WellFormed(k: Kind, r: Record) {
    match r
    case PvInfo(name, size, free, vg, inGroup) =>
      k == Pv && IsWord(name, 255) && IsSize(size) && IsSize(free) && (vg == "" || IsWord(vg, 63)) &&
      (inGroup <==> vg != "")
    case VgInfo(name, size, free, pvs, lvs) =>
      k == Vg && IsWord(name, 63) && IsSize(size) && IsSize(free) && 0 <= pvs < 0x8000_0000 && 0 <= lvs < 0x8000_0000
    case LvInfo(name, vg, size, path, active, snapshot) =>
      k == Lv && IsWord(name, 63) && IsWord(vg, 63) && IsSize(size) && (path == "" || IsWord(path, 255)) &&
      active && !snapshot
  }

  lemma WellFormedFits(k: Kind, r: Record)
    requires WellFormed(k, r)
    ensures AllFit(Columns(r), Format(k))
  {
  }

  lemma DecodeColumns(k: Kind, r: Record)
    requires WellFormed(k, r)
    ensures Decode(k, Columns(r)) == Some(r)
  {
  }

  // ---------- lines ----------

  function LineLength(s: string): (n: nat)
    ensures n <= |s| && (n < |s| ==> s[n] == '\n') && forall i :: 0 <= i < n ==> s[i] != '\n'
  {
    if s == [] || s[0] == '\n' then 0 else 1 + LineLength(s[1..])
  }

  /** The tokens of strtok with a newline as delimiter: empty lines are skipped. */
  function Lines(s: string): seq<string>
    decreases |s|
  {
    if s == [] then []
    else if s[0] == '\n' then Lines(s[1..])
    else [s[..LineLength(s)]] + Lines(s[LineLength(s)..])
  }

  function ParseLine(k: Kind, line: string): Option<Record> {
    var t := Trim(line);
    if t == [] then None else Decode(k, Scan(t, Format(k)))
  }

  function ParseLines(k: Kind, lines: seq<string>): (os: seq<Option<Record>>)
    ensures |os| == |lines| && forall i :: 0 <= i < |os| ==> os[i] == ParseLine(k, lines[i])
  {
    seq(|lines|, i requires 0 <= i < |lines| => ParseLine(k, lines[i]))
  }

  /** The first max records accepted, in order. */
  function Accepted(os: seq<Option<Record>>, max: nat): (rs: seq<Record>)
    ensures |rs| <= max
  {
    if os == [] || max == 0 then []
    else if os[0].None? then Accepted(os[1..], max)
    else [os[0].value] + Accepted(os[1..], max - 1)
  }

  function Parse(k: Kind, lines: seq<string>, max: nat): seq<Record> {
    Accepted(ParseLines(k, lines), max)
  }

  // ---------- the round trip ----------

  datatype Layout = Layout(pads: seq<nat>, tail: nat)

  /** The listing line of a record in some column layout, without its newline. */
  ghost predicate IsLineOf(k: Kind, r: Record, line: string) {
    WellFormed(k, r) && AllFit(Columns(r), Format(k)) &&
    exists l: Layout :: |l.pads| == |Columns(r)| && Separated(l.pads) &&
      line == Printed(Columns(r), Format(k), l.pads, l.tail)
  }

  lemma {:induction false} ScanIgnoresLeadingSpace(s: string, fmt: seq<Directive>)
    ensures Scan(Trim(s), fmt) == Scan(s, fmt)
  {
    TrimTwice(s);
  }

  lemma {:induction false} TrimTwice(s: string)
    ensures Trim(Trim(s)) == Trim(s)
  {
  }

  lemma ParseLineOf(k: Kind, r: Record, line: string)
    requires IsLineOf(k, r, line)
    ensures ParseLine(k, line) == Some(r) && line != []
  {
    var l: Layout :| |l.pads| == |Columns(r)| && Separated(l.pads) &&
      line == Printed(Columns(r), Format(k), l.pads, l.tail);
    ScanPrinted(Columns(r), Format(k), l.pads, l.tail);
    ScanIgnoresLeadingSpace(line, Format(k));
    DecodeColumns(k, r);
  }

  lemma {:induction false} AllAccepted(os: seq<Option<Record>>, rs: seq<Record>, max: nat)
    requires |rs| == |os| && forall i :: 0 <= i < |rs| ==> os[i] == Some(rs[i])
    ensures Accepted(os, max) == rs[..Least(max, |rs|)]
  {
    if os == [] || max == 0 {
    } else {
      AllAccepted(os[1..], rs[1..], max - 1);
      var n := Least(max, |rs|);
      assert rs[..n] == [rs[0]] + rs[1..][..n - 1];
    }
  }

  predicate Plain(s: string) {
    forall i :: 0 <= i < |s| ==> s[i] != '\n' && s[i] != '\0'
  }

  function Ended(lines: seq<string>): seq<string> {
    seq(|lines|, i requires 0 <= i < |lines| => lines[i] + "\n")
  }

  lemma {:induction false} LineStops(line: string, rest: string)
    requires Plain(line)
    ensures LineLength(line + ("\n" + rest)) == |line|
  {
    if line == [] {
    } else {
      assert (line + ("\n" + rest))[1..] == line[1..] + ("\n" + rest);
      LineStops(line[1..], rest);
    }
  }

  lemma {:induction false} LinesOfEnded(lines: seq<string>)
    requires forall i :: 0 <= i < |lines| ==> lines[i] != [] && Plain(lines[i])
    ensures Lines(CO.Concat(Ended(lines))) == lines
  {
    if lines == [] {
    } else {
      var rest := CO.Concat(Ended(lines[1..]));
      var s := CO.Concat(Ended(lines));
      assert Ended(lines)[1..] == Ended(lines[1..]);
      assert s == lines[0] + ("\n" + rest);
      LineStops(lines[0], rest);
      assert s[..|lines[0]|] == lines[0] && s[|lines[0]|..] == "\n" + rest;
      assert ("\n" + rest)[1..] == rest;
      LinesOfEnded(lines[1..]);
    }
  }

  lemma {:induction false} PrintedIsPlain(fs: seq<Field>, fmt: seq<Directive>, pads: seq<nat>, tail: nat)
    requires AllFit(fs, fmt) && |pads| == |fs|
    ensures Plain(Printed(fs, fmt, pads, tail))
    decreases |fs|
  {
    if fs == [] {
    } else {
      PrintedIsPlain(fs[1..], fmt[1..], pads[1..], tail);
      assert Plain(Shown(fs[0]));
    }
  }

  lemma LineOfIsClean(k: Kind, r: Record, line: string)
    requires IsLineOf(k, r, line)
    ensures line != [] && Plain(line)
  {
    var l: Layout :| |l.pads| == |Columns(r)| && Separated(l.pads) &&
      line == Printed(Columns(r), Format(k), l.pads, l.tail);
    PrintedIsPlain(Columns(r), Format(k), l.pads, l.tail);
    ParseLineOf(k, r, line);
  }

  lemma ParseClean(k: Kind, rs: seq<Record>, lines: seq<string>, n: nat, max: nat)
    requires |rs| == |lines| && n <= |rs| && forall i :: 0 <= i < |rs| ==> ParseLine(k, lines[i]) == Some(rs[i])
    ensures Parse(k, lines[..n], max) == rs[..Least(max, n)]
  {
    var os := ParseLines(k, lines[..n]);
    assert forall i :: 0 <= i < n ==> os[i] == ParseLine(k, lines[i]);
    AllAccepted(os, rs[..n], max);
    assert rs[..n][..Least(max, n)] == rs[..Least(max, n)];
  }

  /** A listing of well-formed records, in any column layout, whose lines fit one piece: whatever the
      buffer truncates, the parsed array is a prefix of the records, in order and none garbled; its
      length is what the array and the buffer allow, and the buffer allows all of them exactly when the
      listing is at least two bytes shorter than it. */
  lemma ListingRoundTrip(k: Kind, rs: seq<Record>, lines: seq<string>, size: nat, max: nat) returns (kept: nat)
    requires size > 0 && |rs| == |lines|
    requires forall i :: 0 <= i < |rs| ==> IsLineOf(k, rs[i], lines[i]) && |lines[i]| < 255
    ensures CO.AsManyAsFit(Ended(lines), kept, size)
    ensures kept == |rs| <==> rs == [] || |CO.Concat(Ended(lines))| < size - 1
    ensures Parse(k, Lines(CO.Captured(CO.Concat(Ended(lines)), size)), max) == rs[..Least(max, kept)]
  {
    CleanLines(k, rs, lines);
    kept := CleanRoundTrip(k, rs, lines, size, max);
  }

  lemma CleanRoundTrip(k: Kind, rs: seq<Record>, lines: seq<string>, size: nat, max: nat) returns (kept: nat)
    requires size > 0 && |rs| == |lines|
    requires forall i :: 0 <= i < |lines| ==> lines[i] != [] && Plain(lines[i]) && |lines[i]| < 255
    requires forall i :: 0 <= i < |lines| ==> ParseLine(k, lines[i]) == Some(rs[i])
    ensures CO.AsManyAsFit(Ended(lines), kept, size)
    ensures kept == |rs| <==> rs == [] || |CO.Concat(Ended(lines))| < size - 1
    ensures Parse(k, Lines(CO.Captured(CO.Concat(Ended(lines)), size)), max) == rs[..Least(max, kept)]
  {
    kept := CapturedLines(lines, size);
    ParseClean(k, rs, lines, kept, max);
  }

  lemma EndedAreLines(lines: seq<string>)
    requires forall i :: 0 <= i < |lines| ==> Plain(lines[i]) && |lines[i]| < 255
    ensures forall i :: 0 <= i < |lines| ==> CO.IsLine(Ended(lines)[i]) && '\0' !in Ended(lines)[i]
  {
  }

  lemma CapturedLines(lines: seq<string>, size: nat) returns (kept: nat)
    requires size > 0
    requires forall i :: 0 <= i < |lines| ==> lines[i] != [] && Plain(lines[i]) && |lines[i]| < 255
    ensures CO.AsManyAsFit(Ended(lines), kept, size)
    ensures kept == |lines| <==> lines == [] || |CO.Concat(Ended(lines))| < size - 1
    ensures Lines(CO.Captured(CO.Concat(Ended(lines)), size)) == lines[..kept]
  {
    EndedAreLines(lines);
    CO.NothingToCut(Ended(lines));
    kept := CO.CaptureOfLines(Ended(lines), size);
    assert Ended(lines)[..kept] == Ended(lines[..kept]);
    LinesOfEnded(lines[..kept]);
  }

  lemma CleanLines(k: Kind, rs: seq<Record>, lines: seq<string>)
    requires |rs| == |lines| && forall i :: 0 <= i < |rs| ==> IsLineOf(k, rs[i], lines[i])
    ensures forall i :: 0 <= i < |lines| ==>
              lines[i] != [] && Plain(lines[i]) && ParseLine(k, lines[i]) == Some(rs[i])
  {
    forall i | 0 <= i < |lines|
      ensures lines[i] != [] && Plain(lines[i]) && ParseLine(k, lines[i]) == Some(rs[i])
    {
      LineOfIsClean(k, rs[i], lines[i]);
      ParseLineOf(k, rs[i], lines[i]);
    }
  }

  // ---------- the code ----------

  /** The records that a piece of listing text yields. */
  function Records(k: Kind, s: string, max: nat): (rs: seq<Record>)
    ensures |rs| <= max
  {
    Parse(k, Lines(s), max)
  }

  lemma ParseLinesCons(k: Kind, line: string, lines: seq<string>)
    ensures ParseLines(k, [line] + lines) == [ParseLine(k, line)] + ParseLines(k, lines)
  {
  }

  lemma AcceptedCons(o: Option<Record>, os: seq<Option<Record>>, max: nat)
    requires max > 0
    ensures Accepted([o] + os, max) == if o.Some? then [o.value] + Accepted(os, max - 1) else Accepted(os, max)
  {
    assert ([o] + os)[1..] == os;
  }

  lemma RecordsStep(k: Kind, s: string, n: nat, max: nat)
    requires s != [] && s[0] != '\n' && max > 0 && n == LineLength(s)
    ensures n > 0
    ensures var r := ParseLine(k, s[..n]);
            Records(k, s, max) ==
            if r.Some? then [r.value] + Records(k, s[n..], max - 1) else Records(k, s[n..], max)
  {
    assert Lines(s) == [s[..n]] + Lines(s[n..]);
    ParseLinesCons(k, s[..n], Lines(s[n..]));
    AcceptedCons(ParseLine(k, s[..n]), ParseLines(k, Lines(s[n..])), max);
  }

  /** One turn of the loop: strtok's next line, and the record on it if it is accepted. */
  method NextLine(k: Kind, s: string, ghost max: nat) returns (rest: string, r: Option<Record>)
    requires s != [] && max > 0
    ensures |rest| < |s|
    ensures Records(k, s, max) ==
            if r.Some? then [r.value] + Records(k, rest, max - 1) else Records(k, rest, max)
  {
    if s[0] == '\n' {
      rest, r := s[1..], None;
    } else {
      var n := LineLength(s);
      RecordsStep(k, s, n, max);
      rest, r := s[n..], ParseLine(k, s[..n]);
    }
  }

  /** The records stored so far and those still to come are the ones wanted. */
  ghost predicate Progress(k: Kind, out: array<Record>, count: nat, rest: string, want: seq<Record>)
    reads out
  {
    count <= out.Length && out[..count] + Records(k, rest, out.Length - count) == want
  }

  lemma Regroup(a: seq<Record>, r: Record, b: seq<Record>)
    ensures a + ([r] + b) == (a + [r]) + b
  {
  }

  /** Put an accepted record in the next free element. */
  method Store(k: Kind, out: array<Record>, count: nat, r: Record, ghost rest: string, ghost want: seq<Record>)
    requires count < out.Length && out[..count] + ([r] + Records(k, rest, out.Length - count - 1)) == want
    modifies out
    ensures Progress(k, out, count + 1, rest, want)
  {
    ghost var before, more := out[..count], Records(k, rest, out.Length - count - 1);
    Regroup(before, r, more);
    out[count] := r;
    assert out[..count + 1] == before + [r];
  }

  lemma NothingLeft(k: Kind, out: array<Record>, count: nat, rest: string, want: seq<Record>)
    requires Progress(k, out, count, rest, want) && (rest == [] || count == out.Length)
    ensures out[..count] == want
  {
    assert Records(k, rest, out.Length - count) == [];
  }

  /** The loop shared by the three list functions; max is the length of the caller's array. */
  method FillArray(k: Kind, output: string, out: array<Record>) returns (count: nat)
    modifies out
    ensures count <= out.Length
    ensures out[..count] == Records(k, output, out.Length)
  {
    count := 0;
    var rest := output;
    ghost var want := Records(k, output, out.Length);
    assert out[..0] + want == want;
    while rest != [] && count < out.Length
      invariant Progress(k, out, count, rest, want)
      decreases |rest|
    {
      var r;
      rest, r := NextLine(k, rest, out.Length - count);
      if r.Some? {
        Store(k, out, count, r.value, rest, want);
        count := count + 1;
      }
    }
    NothingLeft(k, out, count, rest, want);
  }

  /** lvm_pv_list, lvm_vg_list, lvm_lv_list: a command that fails is reported as an empty list. */
  method List(k: Kind, stream: string, exit: CO.Exit, out: array<Record>) returns (result: int, count: nat)
    modifies out
    ensures result == 0 && count <= out.Length
    ensures out[..count] ==
            if exit == CO.Exited(0) then Parse(k, Lines(CO.Captured(stream, 4096)), out.Length) else []
  {
    count := 0;
    var code, output := CO.ExecuteCommand(stream, exit, MAX_OUTPUT, "");
    if code != CO.SUCCESS {
      return CO.SUCCESS, 0;
    }
    count := FillArray(k, output, out);
    result := CO.SUCCESS;
  }

  // ---------- what a parsed record is, whatever the text ----------

  /** A record of its kind whose names fit the buffers of the C structure with their terminators. */
  predicate Stored(k: Kind, r: Record) {
    match r
    case PvInfo(name, size, free, vg, inGroup) =>
      k == Pv && 0 < |name| < 256 && IsSize(size) && IsSize(free) && |vg| < 64 && (inGroup <==> vg != "")
    case VgInfo(name, size, free, pvs, lvs) =>
      k == Vg && 0 < |name| < 64 && IsSize(size) && IsSize(free) &&
      -0x8000_0000 <= pvs < 0x8000_0000 && -0x8000_0000 <= lvs < 0x8000_0000
    case LvInfo(name, vg, size, path, active, snapshot) =>
      k == Lv && 0 < |name| < 64 && 0 < |vg| < 64 && IsSize(size) && |path| < 256 && active && !snapshot
  }

  predicate InRange(f: Field, d: Directive) {
    match d
    case Word(max) => f.Text? && 0 < |f.s| <= max
    case Unsigned => f.Number? && IsSize(f.n)
    case Integer => f.Number? && -0x8000_0000 <= f.n < 0x8000_0000
  }

  lemma ConvertInRange(s: string, d: Directive)
    ensures Convert(s, d).Some? ==> InRange(Convert(s, d).value.field, d)
  {
  }

  lemma {:induction false} ScanInRange(s: string, fmt: seq<Directive>)
    ensures forall i :: 0 <= i < |Scan(s, fmt)| ==> InRange(Scan(s, fmt)[i], fmt[i])
    decreases |fmt|
  {
    if fmt == [] || Convert(Trim(s), fmt[0]).None? {
    } else {
      var c := Convert(Trim(s), fmt[0]).value;
      ConvertInRange(Trim(s), fmt[0]);
      ScanStep(s, fmt, Trim(s), c);
      ScanInRange(Trim(s)[c.used..], fmt[1..]);
    }
  }

  lemma DecodeStored(k: Kind, fs: seq<Field>)
    requires |fs| <= |Format(k)| && forall i :: 0 <= i < |fs| ==> InRange(fs[i], Format(k)[i])
    requires forall i :: 0 <= i < |fs| ==> (fs[i].Text? <==> Format(k)[i].Word?)
    ensures Decode(k, fs).Some? ==> Stored(k, Decode(k, fs).value)
  {
  }

  lemma ParsedLineIsStored(k: Kind, line: string)
    ensures ParseLine(k, line).Some? ==> Stored(k, ParseLine(k, line).value)
  {
    ScanInRange(Trim(line), Format(k));
    DecodeStored(k, Scan(Trim(line), Format(k)));
  }

  lemma {:induction false} AcceptedFrom(os: seq<Option<Record>>, max: nat)
    ensures forall r :: r in Accepted(os, max) ==> Some(r) in os
  {
    if os == [] || max == 0 {
    } else {
      AcceptedFrom(os[1..], max);
      AcceptedFrom(os[1..], max - 1);
    }
  }

  /** Whatever the text: every record parsed fits its structure and is of the kind asked for. */
  lemma ParsedIsStored(k: Kind, lines: seq<string>, max: nat)
    ensures forall r :: r in Parse(k, lines, max) ==> Stored(k, r)
  {
    AcceptedFrom(ParseLines(k, lines), max);
    forall i | 0 <= i < |lines|
      ensures ParseLine(k, lines[i]).Some? ==> Stored(k, ParseLine(k, lines[i]).value)
    {
      ParsedLineIsStored(k, lines[i]);
    }
  }

  /** Numbers that do not fit: an unsigned one saturates and a negative one wraps around; a signed one is
      cut to its low 32 bits after it has saturated at 64. */
  lemma OddUnsigned(negative: bool, v: nat)
    ensures v >= 0x1_0000_0000_0000_0000 ==> Unsigned64(negative, v) == 0xFFFF_FFFF_FFFF_FFFF
    ensures 0 < v < 0x1_0000_0000_0000_0000 && negative ==> Unsigned64(true, v) + v == 0x1_0000_0000_0000_0000
  {
  }

  lemma OddSigned(negative: bool, v: nat) returns (k: int)
    ensures v <= 0x7FFF_FFFF_FFFF_FFFF ==>
              Signed32(negative, v) == (if negative then -(v as int) else v as int) + k * 0x1_0000_0000
    ensures v > 0x8000_0000_0000_0000 ==> Signed32(negative, v) == if negative then 0 else -1
  {
    var w: int := if negative then -(v as int) else v;
    var low := w % 0x1_0000_0000;
    k := -(w / 0x1_0000_0000) - if low >= 0x8000_0000 then 1 else 0;
  }

  // ---------- looking up one volume ----------

  /** How many records the *_info functions look through. */
  function Window(k: Kind): nat {
    if k == Lv then 64 else 32
  }

  predicate Matches(r: Record, vg: string, name: string) {
    r.name == name && (r.LvInfo? ==> r.vg == vg)
  }

  function FirstMatch(rs: seq<Record>, vg: string, name: string): Option<Record> {
    if rs == [] then None else if Matches(rs[0], vg, name) then Some(rs[0]) else FirstMatch(rs[1..], vg, name)
  }

  /** The record asked for: of that name and, for a logical volume, in that group. */
  predicate Asked(k: Kind, r: Record, vg: string, name: string) {
    match r
    case PvInfo(n, _, _, _, _) => k == Pv && n == name
    case VgInfo(n, _, _, _, _) => k == Vg && n == name
    case LvInfo(n, g, _, _, _, _) => k == Lv && n == name && g == vg
  }

  /** The first record asked for, or none when there is none. */
  ghost predicate IsFirst(k: Kind, rs: seq<Record>, vg: string, name: string, found: Option<Record>) {
    if found.None? then forall i :: 0 <= i < |rs| ==> !Asked(k, rs[i], vg, name)
    else exists i :: 0 <= i < |rs| && rs[i] == found.value && Asked(k, rs[i], vg, name) &&
           forall j :: 0 <= j < i ==> !Asked(k, rs[j], vg, name)
  }

  lemma {:induction false} FirstMatchIsFirst(k: Kind, rs: seq<Record>, vg: string, name: string)
    requires forall r :: r in rs ==> Stored(k, r)
    ensures IsFirst(k, rs, vg, name, FirstMatch(rs, vg, name))
  {
    if rs == [] {
    } else {
      assert rs[0] in rs;
      FirstMatchIsFirst(k, rs[1..], vg, name);
      var found := FirstMatch(rs[1..], vg, name);
      if !Asked(k, rs[0], vg, name) && found.Some? {
        var i :| 0 <= i < |rs[1..]| && rs[1..][i] == found.value && Asked(k, rs[1..][i], vg, name) &&
          forall j :: 0 <= j < i ==> !Asked(k, rs[1..][j], vg, name);
        assert rs[i + 1] == found.value;
      }
    }
  }

  /** The loop of the *_info functions. */
  method Search(all: array<Record>, count: nat, vg: string, name: string) returns (found: Option<Record>)
    requires count <= all.Length
    ensures found == FirstMatch(all[..count], vg, name)
  {
    var i := 0;
    while i < count
      invariant 0 <= i <= count
      invariant FirstMatch(all[..count], vg, name) == FirstMatch(all[..count][i..], vg, name)
    {
      assert all[..count][i..][1..] == all[..count][i + 1..];
      if Matches(all[i], vg, name) {
        return Some(all[i]);
      }
      i := i + 1;
    }
    return None;
  }

  /** lvm_pv_info, lvm_vg_info, lvm_lv_info: the first record of that name, and for a logical volume of
      that group, among the first of the listing, if any. */
  method Info(k: Kind, stream: string, exit: CO.Exit, vg: string, name: string)
    returns (result: int, found: Option<Record>)
    ensures result == if found.Some? then 0 else -2
    ensures found.Some? ==> Asked(k, found.value, vg, name)
    ensures exit != CO.Exited(0) ==> found.None?
    ensures exit == CO.Exited(0) ==>
              && found == FirstMatch(Parse(k, Lines(CO.Captured(stream, 4096)), Window(k)), vg, name)
              && IsFirst(k, Parse(k, Lines(CO.Captured(stream, 4096)), if k == Lv then 64 else 32), vg, name, found)
  {
    var all := new Record[Window(k)](_ => VgInfo("", 0, 0, 0, 0));
    var _, count := List(k, stream, exit, all);
    if exit == CO.Exited(0) {
      ParsedIsStored(k, Lines(CO.Captured(stream, 4096)), Window(k));
      FirstMatchIsFirst(k, all[..count], vg, name);
    }
    found := Search(all, count, vg, name);
    result := if found.Some? then CO.SUCCESS else CO.NOT_FOUND;
  }

  /** The look-up on the listing of well-formed records, when it fits the buffer and the window: the
      first record asked for, and none exactly when there is none. */
  lemma InfoOfListing(k: Kind, rs: seq<Record>, lines: seq<string>, vg: string, name: string)
    requires |rs| == |lines| <= (if k == Lv then 64 else 32)
    requires forall i :: 0 <= i < |rs| ==> IsLineOf(k, rs[i], lines[i]) && |lines[i]| < 255
    requires rs == [] || |CO.Concat(Ended(lines))| < 4095
    ensures var listing := CO.Concat(Ended(lines));
            IsFirst(k, rs, vg, name, FirstMatch(Parse(k, Lines(CO.Captured(listing, 4096)), Window(k)), vg, name))
  {
    var kept := ListingRoundTrip(k, rs, lines, 4096, Window(k));
    assert rs[..|rs|] == rs;
    forall r | r in rs
      ensures Stored(k, r)
    {
      assert WellFormed(k, r);
    }
    FirstMatchIsFirst(k, rs, vg, name);
  }
}
