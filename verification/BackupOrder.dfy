/** Histories in which each creation has a later timestamp than all before it, and its row is inserted. */
module BackupOrder {
  import opened Common
  import opened BackupCatalogue
  import opened BackupRuns

  /** The clock has advanced, and no row has the id, so that the INSERT succeeds. */
  ghost predicate ClockAhead(s: State, r: Request) {
    (forall m :: m in s.made ==> m.row.timestamp < r.now) && !HasId(s.w.rows, r.id)
  }

  ghost predicate Clocked(ops: seq<Op>) {
    ops == [] ||
    (Clocked(ops[..|ops| - 1]) &&
     (ops[|ops| - 1].Make? && Exec(ops[..|ops| - 1]).Some? ==>
        ClockAhead(Exec(ops[..|ops| - 1]).value, ops[|ops| - 1].r)))
  }

  ghost predicate Ordered(made: seq<Made>) {
    forall i, j :: 0 <= i < j < |made| ==> made[i].row.timestamp < made[j].row.timestamp
  }

  /** The rows are the latest creations, in order, with none missing in between. */
  ghost predicate Suffix(rows: seq<Row>, made: seq<Made>) {
    |rows| <= |made| && rows == RowsOf(made)[|made| - |rows|..]
  }

  ghost predicate ParentIsPrevious(made: seq<Made>) {
    forall k :: 0 <= k < |made| && made[k].row.parent.Some? ==>
      k > 0 && made[k].row.parent.value == made[k - 1].row.id
  }

  /** Every row but the oldest names the one before it if it is incremental, and none otherwise. */
  ghost predicate Linked(rows: seq<Row>) {
    forall i, j :: 0 <= i && j == i + 1 < |rows| ==> Follows(rows[j], rows[i])
  }

  ghost predicate Follows(row: Row, previous: Row) {
    row.parent == if row.kind == Incremental then Some(previous.id) else None
  }

  ghost predicate Filed(s: State) {
    Ordered(s.made) && Suffix(s.w.rows, s.made) && ParentIsPrevious(s.made) && Linked(s.w.rows)
  }

  // ---------- creation ----------

  lemma AscendingRows(s: State)
    requires Ordered(s.made) && Suffix(s.w.rows, s.made)
    ensures forall i, j :: 0 <= i < j < |s.w.rows| ==>
              s.w.rows[i].timestamp < s.w.rows[j].timestamp
  {
    var n := |s.made| - |s.w.rows|;
    assert forall i :: 0 <= i < |s.w.rows| ==> s.w.rows[i] == RowsOf(s.made)[n + i];
  }

  lemma NewestOfAscending(rows: seq<Row>, l: seq<Row>)
    requires forall i, j :: 0 <= i < j < |rows| ==> rows[i].timestamp < rows[j].timestamp
    requires IsListing(rows, l) && l != []
    ensures l[0] == rows[|rows| - 1]
  {
    assert l[0] in rows && rows[|rows| - 1] in l;
    var i :| 0 <= i < |rows| && rows[i] == l[0];
    var j :| 0 <= j < |l| && l[j] == rows[|rows| - 1];
  }

  lemma NewestIsLast(s: State, l: seq<Row>)
    requires Ordered(s.made) && Suffix(s.w.rows, s.made) && IsListing(s.w.rows, l) && l != []
    ensures s.made != [] && l[0] == s.made[|s.made| - 1].row
  {
    AscendingRows(s);
    NewestOfAscending(s.w.rows, l);
  }

  lemma SuffixGrows(rows: seq<Row>, made: seq<Made>, m: Made)
    requires Suffix(rows, made)
    ensures Suffix(rows + [m.row], made + [m])
  {
    RowsOfSnoc(made, m);
  }

  lemma OrderGrows(made: seq<Made>, m: Made)
    requires Ordered(made) && forall x :: x in made ==> x.row.timestamp < m.row.timestamp
    ensures Ordered(made + [m])
  {
  }

  lemma ParentsGrow(made: seq<Made>, m: Made)
    requires ParentIsPrevious(made)
    requires m.row.parent.Some? ==> made != [] && m.row.parent.value == made[|made| - 1].row.id
    ensures ParentIsPrevious(made + [m])
  {
  }

  lemma NewParentIsPrevious(s: State, r: Request, l: seq<Row>)
    requires Filed(s) && Enabled(s, Make(r, l))
    ensures ParentIsPrevious(s.made + [NewMade(s, r, l)])
  {
    if l != [] {
      NewestIsLast(s, l);
    }
    ParentsGrow(s.made, NewMade(s, r, l));
  }

  lemma LinkedGrows(s: State, r: Request, l: seq<Row>)
    requires Filed(s) && s.w.open && Enabled(s, Make(r, l))
    ensures Linked(s.w.rows + [NewRow(s.w, r, l)])
  {
    var rows, row := s.w.rows, NewRow(s.w, r, l);
    if rows != [] {
      FirstIsNewest(rows, l);
      AscendingRows(s);
      NewestOfAscending(rows, l);
      assert Follows(row, rows[|rows| - 1]);
    }
  }

  lemma MakeKeepsFiled(s: State, r: Request, l: seq<Row>)
    requires Filed(s) && s.w.open && Enabled(s, Make(r, l)) && ClockAhead(s, r)
    ensures Filed(Next(s, Make(r, l)))
  {
    NewParentIsPrevious(s, r, l);
    LinkedGrows(s, r, l);
    SuffixGrows(s.w.rows, s.made, NewMade(s, r, l));
    OrderGrows(s.made, NewMade(s, r, l));
  }

  // ---------- cleanup ----------

  lemma {:induction false} KeepSuffix(rows: seq<Row>, gone: set<nat>, m: nat)
    requires m <= |rows|
    requires forall i :: 0 <= i < |rows| ==> (rows[i].id in gone <==> i < m)
    ensures Keep(rows, gone) == rows[m..]
  {
    if rows == [] {
    } else {
      var pre := rows[..|rows| - 1];
      if m < |rows| {
        KeepSuffix(pre, gone, m);
        assert rows[m..] == pre[m..] + [rows[|rows| - 1]];
      } else {
        KeepSuffix(pre, gone, m - 1);
      }
    }
  }

  function Reversed(rows: seq<Row>): seq<Row> {
    seq(|rows|, i requires 0 <= i < |rows| => rows[|rows| - 1 - i])
  }

  lemma ListingIsReversed(rows: seq<Row>, l: seq<Row>)
    requires forall i, j :: 0 <= i < j < |rows| ==> rows[i].timestamp < rows[j].timestamp
    requires IsListing(rows, l)
    ensures l == Reversed(rows)
  {
    var rev := Reversed(rows);
    forall x
      ensures x in rev <==> x in rows
    {
      if x in rows {
        var i :| 0 <= i < |rows| && rows[i] == x;
        assert rev[|rows| - 1 - i] == x;
      }
    }
    DistinctTimesNewestFirst(rows, l);
    NewestFirstIsUnique(l, rev);
  }

  lemma GoneAreTheOldest(rows: seq<Row>, k: nat)
    requires k <= |rows| && IdsDistinct(rows)
    ensures forall i :: 0 <= i < |rows| ==> (rows[i].id in Ids(Reversed(rows)[k..]) <==> i < |rows| - k)
  {
    var gone := Reversed(rows)[k..];
    var m := |rows| - k;
    assert forall x :: x in gone <==> x in rows[..m] by {
      assert forall i :: 0 <= i < m ==> gone[i] == rows[..m][m - 1 - i];
      assert forall i :: 0 <= i < m ==> rows[..m][i] == gone[m - 1 - i];
    }
    forall i | m <= i < |rows|
      ensures rows[i].id !in Ids(gone)
    {
      assert forall x :: x in rows[..m] ==> x.id != rows[i].id;
    }
  }

  lemma PruneKeepsFiled(s: State, keep: nat, l: seq<Row>)
    requires Filed(s) && Good(s.w) && s.w.open && Enabled(s, Prune(keep, l))
    ensures Filed(Next(s, Prune(keep, l)))
  {
    var k := Least(keep, |l|);
    AscendingRows(s);
    ListingIsReversed(s.w.rows, l);
    CleanupClosed(s.w, keep, l);
    GoneAreTheOldest(s.w.rows, k);
    KeepSuffix(s.w.rows, Ids(l[k..]), |s.w.rows| - k);
    SuffixShrinks(s.w.rows, s.made, |s.w.rows| - k);
    LinkedShrinks(s.w.rows, |s.w.rows| - k);
  }

  lemma LinkedShrinks(rows: seq<Row>, m: nat)
    requires Linked(rows) && m <= |rows|
    ensures Linked(rows[m..])
  {
    forall i, j | 0 <= i && j == i + 1 < |rows[m..]|
      ensures Follows(rows[m..][j], rows[m..][i])
    {
      assert Follows(rows[m + j], rows[m + i]);
    }
  }

  lemma SuffixShrinks(rows: seq<Row>, made: seq<Made>, m: nat)
    requires Suffix(rows, made) && m <= |rows|
    ensures Suffix(rows[m..], made)
  {
    assert RowsOf(made)[|made| - |rows|..][m..] == RowsOf(made)[|made| - |rows| + m..];
  }

  // ---------- every history with a clock ----------

  lemma {:induction false} ClockedHistoriesAreFiled(ops: seq<Op>)
    requires Exec(ops).Some? && Clocked(ops)
    ensures Filed(Exec(ops).value)
  {
    if ops == [] {
    } else {
      var s := Exec(ops[..|ops| - 1]).value;
      ClockedHistoriesAreFiled(ops[..|ops| - 1]);
      EveryHistoryKeepsInv(ops[..|ops| - 1]);
      match ops[|ops| - 1]
      case Make(r, l) => MakeKeepsFiled(s, r, l);
      case Prune(keep, l) => PruneKeepsFiled(s, keep, l);
    }
  }

  /** The catalogue is a contiguous suffix of the creations; every row but the oldest has the creation
      just before as its parent if it is incremental, and no parent otherwise; and the oldest can only
      name the creation just before it, which is no longer there. */
  lemma CatalogueIsSuffix(ops: seq<Op>)
    requires Exec(ops).Some? && Clocked(ops)
    ensures var s := Exec(ops).value;
            && Suffix(s.w.rows, s.made) && Ordered(s.made) && ParentIsPrevious(s.made)
            && forall i :: 0 < i < |s.w.rows| ==>
                 && (s.w.rows[i].kind == Incremental ==> s.w.rows[i].parent == Some(s.w.rows[i - 1].id))
                 && (s.w.rows[i].kind != Incremental ==> s.w.rows[i].parent == None)
  {
    ClockedHistoriesAreFiled(ops);
    var rows := Exec(ops).value.w.rows;
    forall i | 0 < i < |rows|
      ensures rows[i].kind == Incremental ==> rows[i].parent == Some(rows[i - 1].id)
      ensures rows[i].kind != Incremental ==> rows[i].parent == None
    {
      assert Follows(rows[i], rows[i - 1]);
    }
  }

  /** Following parents from any creation ends, at a creation without a parent, after passing through
      consecutive creations only. */
  lemma {:induction false} ParentChainsEnd(made: seq<Made>, k: nat) returns (root: nat)
    requires ParentIsPrevious(made) && k < |made|
    ensures root <= k && made[root].row.parent == None
    ensures forall i :: root < i <= k ==> made[i].row.parent == Some(made[i - 1].row.id)
    decreases k
  {
    if made[k].row.parent == None {
      root := k;
    } else {
      root := ParentChainsEnd(made, k - 1);
    }
  }
}
