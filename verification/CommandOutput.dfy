/** execute_command: the output of a command is read in pieces of at most 255 bytes, each ending at the
    first newline in it, and appended to a bounded buffer until a piece does not fit. */
module CommandOutput {

  const PIECE := 255          // fgets into char buffer[256]
  const SUCCESS := 0
  const NOT_FOUND := -2
  const SYSTEM_CALL_ERROR := -5

  /** How many bytes one fgets takes. */
  function PieceLength(s: string, max: nat): (n: nat)
    requires s != [] && max > 0
    ensures 0 < n <= max && n <= |s|
    ensures forall i :: 0 <= i < n - 1 ==> s[i] != '\n'
    ensures n < max && n < |s| ==> s[n - 1] == '\n'
  {
    if max == 1 || |s| == 1 || s[0] == '\n' then 1 else 1 + PieceLength(s[1..], max - 1)
  }

  function Pieces(s: string): seq<string> {
    if s == [] then [] else
      var n := PieceLength(s, PIECE);
      [s[..n]] + Pieces(s[n..])
  }

  /** A C string ends at its first NUL. */
  function CString(p: string): (c: string)
    ensures c <= p && '\0' !in c
    ensures |c| < |p| ==> p[|c|] == '\0'
    ensures '\0' !in p ==> c == p
  {
    if p == [] || p[0] == '\0' then [] else [p[0]] + CString(p[1..])
  }

  /** The pieces as strlen and strcat see them. */
  function Texts(s: string): seq<string> {
    if s == [] then [] else
      var n := PieceLength(s, PIECE);
      [CString(s[..n])] + Texts(s[n..])
  }

  function Concat(ps: seq<string>): string {
    if ps == [] then [] else ps[0] + Concat(ps[1..])
  }

  /** How many pieces are appended when total bytes are in the buffer already. */
  function Taken(ps: seq<string>, total: nat, size: nat): (k: nat)
    requires size > 0
    ensures k <= |ps|
  {
    if ps == [] || total + |ps[0]| >= size - 1 then 0 else 1 + Taken(ps[1..], total + |ps[0]|, size)
  }

  /** What is still appended from the rest of the output. */
  function More(s: string, total: nat, size: nat): string
    requires size > 0
  {
    Concat(Texts(s)[..Taken(Texts(s), total, size)])
  }

  function Captured(s: string, size: nat): string
    requires size > 0
  {
    More(s, 0, size)
  }

  lemma AppendStep(p: string, ps: seq<string>, total: nat, size: nat)
    requires size > 0
    ensures var all := [p] + ps;
            Concat(all[..Taken(all, total, size)]) ==
            if total + |p| < size - 1 then p + Concat(ps[..Taken(ps, total + |p|, size)]) else []
  {
    var all := [p] + ps;
    var k := Taken(all, total, size);
    assert all[1..] == ps;
    if total + |p| < size - 1 {
      assert all[..k][1..] == ps[..k - 1];
    }
  }

  lemma TextsStep(s: string, n: nat)
    requires s != [] && n == PieceLength(s, PIECE)
    ensures Texts(s) == [CString(s[..n])] + Texts(s[n..])
  {
  }

  lemma MoreStep(s: string, n: nat, p: string, total: nat, size: nat)
    requires size > 0 && s != [] && n == PieceLength(s, PIECE) && p == CString(s[..n])
    ensures total + |p| < size - 1 ==> More(s, total, size) == p + More(s[n..], total + |p|, size)
    ensures total + |p| >= size - 1 ==> More(s, total, size) == []
  {
    TextsStep(s, n);
    var ps, qs := Texts(s), Texts(s[n..]);
    AppendStep(p, qs, total, size);
    assert ps == [p] + qs;
  }

  // ---------- what is captured ----------

  lemma {:induction false} ConcatPieces(s: string)
    ensures Concat(Pieces(s)) == s
  {
    if s == [] {
    } else {
      var n := PieceLength(s, PIECE);
      ConcatPieces(s[n..]);
      assert s == s[..n] + s[n..];
    }
  }

  lemma {:induction false} ConcatSplit(ps: seq<string>, k: nat)
    requires k <= |ps|
    ensures Concat(ps) == Concat(ps[..k]) + Concat(ps[k..])
  {
    if k > 0 {
      ConcatSplit(ps[1..], k - 1);
      assert ps[1..][..k - 1] == ps[..k][1..] && ps[1..][k - 1..] == ps[k..];
    } else {
      assert ps[..0] == [] && ps[0..] == ps;
    }
  }

  lemma ConcatStep(ps: seq<string>, k: nat)
    requires 0 < k <= |ps|
    ensures Concat(ps[..k]) == ps[0] + Concat(ps[1..][..k - 1])
  {
    assert ps[..k] == [ps[0]] + ps[1..][..k - 1];
  }

  lemma {:induction false} TakenFits(ps: seq<string>, total: nat, size: nat)
    requires size > 0
    ensures var k := Taken(ps, total, size);
            && (k > 0 ==> total + |Concat(ps[..k])| < size - 1)
            && (k == |ps| <==> ps == [] || total + |Concat(ps)| < size - 1)
            && (k < |ps| ==> total + |Concat(ps[..k + 1])| >= size - 1)
  {
    if ps == [] || total + |ps[0]| >= size - 1 {
    } else {
      TakenFits(ps[1..], total + |ps[0]|, size);
      var k := Taken(ps, total, size);
      ConcatStep(ps, k);
      if k < |ps| {
        ConcatStep(ps, k + 1);
      }
    }
  }

  lemma {:induction false} TextsAreThePieces(s: string)
    requires '\0' !in s
    ensures Texts(s) == Pieces(s)
  {
    if s == [] {
    } else {
      TextsAreThePieces(s[PieceLength(s, PIECE)..]);
    }
  }

  lemma {:induction false} TextsHaveNoNul(s: string)
    ensures forall i :: 0 <= i < |Texts(s)| ==> '\0' !in Texts(s)[i]
  {
    if s == [] {
    } else {
      TextsHaveNoNul(s[PieceLength(s, PIECE)..]);
    }
  }

  lemma {:induction false} ConcatHasNoNul(ps: seq<string>)
    requires forall i :: 0 <= i < |ps| ==> '\0' !in ps[i]
    ensures '\0' !in Concat(ps)
  {
    if ps == [] {
    } else {
      ConcatHasNoNul(ps[1..]);
    }
  }

  /** Whatever the output, the capture is a C string that leaves room for its terminator. */
  lemma CaptureIsBounded(s: string, size: nat)
    requires size > 0
    ensures |Captured(s, size)| < size && '\0' !in Captured(s, size)
  {
    TakenFits(Texts(s), 0, size);
    TextsHaveNoNul(s);
    ConcatHasNoNul(Texts(s)[..Taken(Texts(s), 0, size)]);
  }

  lemma CaptureOfText(s: string, size: nat)
    requires size > 0 && '\0' !in s
    ensures Captured(s, size) <= s
    ensures Captured(s, size) == s <==> s == [] || |s| < size - 1
  {
    var ps := Pieces(s);
    var k := Taken(ps, 0, size);
    TextsAreThePieces(s);
    ConcatPieces(s);
    ConcatSplit(ps, k);
    TakenFits(ps, 0, size);
    if k < |ps| {
      PiecesAreNonempty(s);
      assert Concat(ps[k..]) == ps[k] + Concat(ps[k..][1..]);
    }
  }

  /** The capture leaves room for its terminator, is a prefix of the output when that holds no NUL, and
      is the whole output exactly when the output is empty, or holds no NUL and is at least two bytes
      shorter than the buffer. */
  lemma CaptureIsBoundedPrefix(s: string, size: nat)
    requires size > 0
    ensures |Captured(s, size)| < size
    ensures '\0' !in s ==> Captured(s, size) <= s
    ensures Captured(s, size) == s <==> s == [] || ('\0' !in s && |s| < size - 1)
  {
    CaptureIsBounded(s, size);
    if '\0' !in s {
      CaptureOfText(s, size);
    }
  }

  lemma {:induction false} PiecesAreNonempty(s: string)
    ensures forall i :: 0 <= i < |Pieces(s)| ==> Pieces(s)[i] != []
  {
    if s == [] {
    } else {
      PiecesAreNonempty(s[PieceLength(s, PIECE)..]);
    }
  }

  // ---------- output made of short lines ----------

  predicate IsLine(line: string) {
    && 0 < |line| <= 255 && line[|line| - 1] == '\n'
    && forall i :: 0 <= i < |line| - 1 ==> line[i] != '\n'
  }

  lemma {:induction false} PieceIsLine(line: string, rest: string, max: nat)
    requires 0 < |line| <= max && line[|line| - 1] == '\n'
    requires forall i :: 0 <= i < |line| - 1 ==> line[i] != '\n'
    ensures PieceLength(line + rest, max) == |line|
  {
    if |line| == 1 {
    } else {
      assert (line + rest)[1..] == line[1..] + rest;
      PieceIsLine(line[1..], rest, max - 1);
    }
  }

  /** The lines, each cut at its first NUL. */
  function CutLines(lines: seq<string>): (cut: seq<string>)
    ensures |cut| == |lines| && forall i :: 0 <= i < |cut| ==> cut[i] == CString(lines[i])
  {
    seq(|lines|, i requires 0 <= i < |lines| => CString(lines[i]))
  }

  lemma {:induction false} TextsOfLines(lines: seq<string>)
    requires forall i :: 0 <= i < |lines| ==> IsLine(lines[i])
    ensures Texts(Concat(lines)) == CutLines(lines)
  {
    if lines == [] {
    } else {
      var rest := Concat(lines[1..]);
      PieceIsLine(lines[0], rest, PIECE);
      TextsStep(lines[0] + rest, |lines[0]|);
      assert (lines[0] + rest)[..|lines[0]|] == lines[0] && (lines[0] + rest)[|lines[0]|..] == rest;
      TextsOfLines(lines[1..]);
      assert CutLines(lines) == [CString(lines[0])] + CutLines(lines[1..]);
    }
  }

  /** The first k pieces fit in a buffer of that size and are all, or one more would not fit. */
  ghost predicate AsManyAsFit(ps: seq<string>, k: nat, size: nat) {
    && k <= |ps|
    && (k > 0 ==> |Concat(ps[..k])| < size - 1)
    && (k < |ps| ==> |Concat(ps[..k + 1])| >= size - 1)
  }

  /** Short lines are captured whole or not at all, as many as fit from the front; what follows a NUL in
      a line, its newline included, is lost. */
  lemma CaptureOfLines(lines: seq<string>, size: nat) returns (k: nat)
    requires size > 0 && forall i :: 0 <= i < |lines| ==> IsLine(lines[i])
    ensures AsManyAsFit(CutLines(lines), k, size) && k == Taken(CutLines(lines), 0, size)
    ensures Captured(Concat(lines), size) == Concat(CutLines(lines)[..k])
    ensures k == |lines| <==> lines == [] || |Concat(CutLines(lines))| < size - 1
  {
    TextsOfLines(lines);
    TakenFits(CutLines(lines), 0, size);
    k := Taken(CutLines(lines), 0, size);
  }

  lemma NothingToCut(lines: seq<string>)
    requires forall i :: 0 <= i < |lines| ==> '\0' !in lines[i]
    ensures CutLines(lines) == lines
  {
  }

  /** The exit of the command as pclose reports it. */
  datatype Exit = NotStarted | Exited(code: int) | Abnormal

  /** One fgets: a piece as the string functions see it, and what is left of the output. */
  method ReadPiece(rest: string, ghost total: nat, ghost size: nat) returns (buffer: string, left: string)
    requires size > 0 && rest != []
    ensures |left| < |rest|
    ensures total + |buffer| < size - 1 ==> More(rest, total, size) == buffer + More(left, total + |buffer|, size)
    ensures total + |buffer| >= size - 1 ==> More(rest, total, size) == []
  {
    var n := PieceLength(rest, PIECE);
    buffer, left := CString(rest[..n]), rest[n..];
    MoreStep(rest, n, buffer, total, size);
  }

  /** The reading loop. */
  method Capture(stream: string, size: nat) returns (output: string)
    requires size > 0
    ensures output == Captured(stream, size)
  {
    output := [];
    var rest, total := stream, 0;
    while rest != []
      invariant total == |output|
      invariant output + More(rest, total, size) == Captured(stream, size)
      decreases |rest|
    {
      var buffer, left := ReadPiece(rest, total, size);
      if total + |buffer| < size - 1 {
        Regroup(output, buffer, More(left, total + |buffer|, size));
        output := output + buffer;
        total := total + |buffer|;
        rest := left;
      } else {
        break;
      }
    }
  }

  lemma Regroup(a: string, b: string, c: string)
    ensures a + (b + c) == (a + b) + c
  {
  }

  /** execute_command on a caller's buffer of the given size, which holds given before and output
      after; a command that does not start, or a size of 0, leaves it alone. */
  method ExecuteCommand(stream: string, exit: Exit, size: nat, given: string) returns (result: int, output: string)
    ensures output == if exit != NotStarted && size > 0 then Captured(stream, size) else given
    ensures exit != NotStarted && size > 0 ==> |output| < size
    ensures result == if exit == Exited(0) then 0 else -5
  {
    output := given;
    if exit.NotStarted? {
      return SYSTEM_CALL_ERROR, given;
    }
    if size > 0 {
      output := Capture(stream, size);
      CaptureIsBounded(stream, size);
    }
    if exit.Exited? {
      if exit.code != 0 {
        return SYSTEM_CALL_ERROR, output;
      }
    } else {
      return SYSTEM_CALL_ERROR, output;
    }
    result := SUCCESS;
  }
}
