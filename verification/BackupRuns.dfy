/** Whole histories of the backup engine: any sequence of creations and cleanups on an open database,
    whatever the clock does in between. */
module BackupRuns {
  import opened Common
  import opened HardLinkStore
  import opened BackupCatalogue

  datatype Op = Make(r: Request, l: seq<Row>) | Prune(keep: nat, l: seq<Row>)

  /** A creation as it happened: the row it tried to insert, its source, and what its directory and its
      link-dest directory showed before. */
  datatype Made = Made(row: Row, source: Tree, here: Tree, ref: Tree)

  datatype State = State(w: World, made: seq<Made>)

  ghost predicate Enabled(s: State, op: Op) {
    IsListing(s.w.rows, op.l) && (op.Make? ==> Allocates(s.w, op.r))
  }

  ghost function NewMade(s: State, r: Request, l: seq<Row>): Made {
    Made(NewRow(s.w, r, l), r.source, ViewOrEmpty(s.w.store, Target(r)), ReferenceTree(s.w, r, l))
  }

  ghost function Next(s: State, op: Op): State
    requires Enabled(s, op)
  {
    match op
    case Make(r, l) => State(Create(s.w, r, l), s.made + [NewMade(s, r, l)])
    case Prune(keep, l) => State(Cleanup(s.w, keep, l), s.made)
  }

  ghost function Nothing(): State {
    State(World(true, [], Store(map[], map[])), [])
  }

  ghost function Exec(ops: seq<Op>): Option<State> {
    if ops == [] then Some(Nothing()) else
      match Exec(ops[..|ops| - 1])
      case None => None
      case Some(s) => if Enabled(s, ops[|ops| - 1]) then Some(Next(s, ops[|ops| - 1])) else None
  }

  lemma ExecSnoc(ops: seq<Op>, op: Op)
    requires Exec(ops).Some? && Enabled(Exec(ops).value, op)
    ensures Exec(ops + [op]) == Some(Next(Exec(ops).value, op))
  {
    assert (ops + [op])[..|ops|] == ops;
  }

  // ---------- what every history keeps ----------

  function RowsOf(made: seq<Made>): seq<Row> {
    seq(|made|, i requires 0 <= i < |made| => made[i].row)
  }

  /** Rows and directories come from creations. */
  ghost predicate Traced(s: State) {
    && (forall x :: x in s.w.rows ==> x in RowsOf(s.made))
    && (forall d :: d in s.w.store.dirs ==> d.id in Ids(RowsOf(s.made)))
  }

  /** No later creation went into the same directory. */
  ghost predicate LastInto(made: seq<Made>, k: nat)
    requires k < |made|
  {
    forall j :: k < j < |made| ==> made[j].row.dir != made[k].row.dir
  }

  ghost predicate ShowsSource(store: Store, m: Made) {
    m.row.dir in store.dirs &&
    (View(store, m.row.dir) == m.source <==> Faithful(m.row.kind, m.source, m.here, m.ref))
  }

  ghost predicate Contents(s: State) {
    forall k :: 0 <= k < |s.made| && s.made[k].row.success && s.made[k].row.dir in s.w.store.dirs &&
                LastInto(s.made, k) ==>
      ShowsSource(s.w.store, s.made[k])
  }

  ghost predicate Inv(s: State) {
    Good(s.w) && s.w.open && Traced(s) && Contents(s)
  }

  lemma RowsOfSnoc(made: seq<Made>, m: Made)
    ensures RowsOf(made + [m]) == RowsOf(made) + [m.row]
    ensures Ids(RowsOf(made + [m])) == Ids(RowsOf(made)) + {m.row.id}
  {
    assert RowsOf(made + [m]) == RowsOf(made) + [m.row];
  }

  ghost predicate NewId(made: seq<Made>, r: Request) {
    forall k :: 0 <= k < |made| ==> made[k].row.id != r.id
  }

  lemma NewIdIsNew(s: State, r: Request)
    requires Traced(s) && NewId(s.made, r)
    ensures !HasId(s.w.rows, r.id) && Target(r) !in s.w.store.dirs
  {
    assert forall x :: x in RowsOf(s.made) ==> x.id != r.id;
    assert forall i :: 0 <= i < |s.w.rows| ==> s.w.rows[i] in s.w.rows;
  }

  lemma MakeKeepsTraced(s: State, r: Request, l: seq<Row>)
    requires Traced(s) && Enabled(s, Make(r, l))
    ensures Traced(Next(s, Make(r, l)))
  {
    RowsOfSnoc(s.made, NewMade(s, r, l));
  }

  lemma LastIntoShrinks(made: seq<Made>, m: Made, k: nat)
    requires k < |made| && LastInto(made + [m], k)
    ensures LastInto(made, k) && made[k].row.dir != m.row.dir
  {
    assert (made + [m])[|made|] == m && (made + [m])[k] == made[k];
    assert forall j :: k < j < |made| ==> (made + [m])[j] == made[j];
  }

  lemma OthersAreUntouched(w: World, r: Request, l: seq<Row>, d: Dir)
    requires Good(w) && Allocates(w, r) && d in Create(w, r, l).store.dirs && d != Target(r)
    ensures d in w.store.dirs && View(Create(w, r, l).store, d) == View(w.store, d)
  {
    CreateKeepsViews(w, r, l, d);
  }

  lemma MakeKeepsContents(s: State, r: Request, l: seq<Row>)
    requires Inv(s) && Enabled(s, Make(r, l))
    ensures Contents(Next(s, Make(r, l)))
  {
    var s' := Next(s, Make(r, l));
    forall k | 0 <= k < |s'.made| && s'.made[k].row.success && s'.made[k].row.dir in s'.w.store.dirs &&
               LastInto(s'.made, k)
      ensures ShowsSource(s'.w.store, s'.made[k])
    {
      if k == |s.made| {
        CreateFaithfulIff(s.w, r, l);
      } else {
        LastIntoShrinks(s.made, NewMade(s, r, l), k);
        OthersAreUntouched(s.w, r, l, s.made[k].row.dir);
      }
    }
  }

  lemma PruneKeepsInv(s: State, keep: nat, l: seq<Row>)
    requires Inv(s) && Enabled(s, Prune(keep, l))
    ensures Inv(Next(s, Prune(keep, l)))
  {
    CleanupRemovesExactly(s.w, keep, l);
    CleanupKeepsNewest(s.w, keep, l);
  }

  lemma {:induction false} EveryHistoryKeepsInv(ops: seq<Op>)
    requires Exec(ops).Some?
    ensures Inv(Exec(ops).value)
  {
    if ops == [] {
    } else {
      var s := Exec(ops[..|ops| - 1]).value;
      EveryHistoryKeepsInv(ops[..|ops| - 1]);
      match ops[|ops| - 1]
      case Make(r, l) =>
        CreateKeepsGood(s.w, r, l);
        MakeKeepsTraced(s, r, l);
        MakeKeepsContents(s, r, l);
      case Prune(keep, l) =>
        PruneKeepsInv(s, keep, l);
    }
  }

  // ---------- what a creation records ----------

  function Makes(ops: seq<Op>): nat {
    if ops == [] then 0 else Makes(ops[..|ops| - 1]) + if ops[|ops| - 1].Make? then 1 else 0
  }

  lemma {:induction false} HistoriesExtend(ops: seq<Op>, n: nat)
    requires Exec(ops).Some? && n <= |ops|
    ensures Exec(ops[..n]).Some? && |Exec(ops[..n]).value.made| == Makes(ops[..n])
    ensures Exec(ops[..n]).value.made <= Exec(ops).value.made
    decreases |ops|
  {
    if ops == [] {
    } else {
      var pre := ops[..|ops| - 1];
      HistoriesExtend(pre, if n < |ops| then n else n - 1);
      if n < |ops| {
        assert pre[..n] == ops[..n];
      } else {
        assert pre[..n - 1] == pre && ops[..n] == ops;
      }
    }
  }

  /** Over every history: a creation is recorded as its request says, with its parent as new as any row
      there was just before it, and its row is inserted unless there was one of that id. */
  lemma CreationIsRecorded(ops: seq<Op>, n: nat)
    requires Exec(ops).Some? && n < |ops| && ops[n].Make?
    ensures Exec(ops[..n]).Some? && Exec(ops[..n + 1]).Some?
    ensures var rows, made := Exec(ops[..n]).value.w.rows, Exec(ops).value.made;
            && Makes(ops[..n]) < |made| && made[Makes(ops[..n])].source == ops[n].r.source
            && Describes(made[Makes(ops[..n])].row, ops[n].r, rows, true)
            && Exec(ops[..n + 1]).value.w.rows ==
               if forall x :: x in rows ==> x.id != ops[n].r.id then rows + [made[Makes(ops[..n])].row] else rows
  {
    var s := RecordedStep(ops, n);
    EveryHistoryKeepsInv(ops[..n]);
    CreateRecords(s.w, ops[n].r, ops[n].l);
  }

  lemma RecordedStep(ops: seq<Op>, n: nat) returns (s: State)
    requires Exec(ops).Some? && n < |ops| && ops[n].Make?
    ensures Exec(ops[..n]) == Some(s) && Enabled(s, ops[n]) && Exec(ops[..n + 1]) == Some(Next(s, ops[n]))
    ensures Makes(ops[..n]) < |Exec(ops).value.made|
    ensures Exec(ops).value.made[Makes(ops[..n])] == NewMade(s, ops[n].r, ops[n].l)
  {
    HistoriesExtend(ops, n);
    HistoriesExtend(ops, n + 1);
    s := Exec(ops[..n]).value;
    assert ops[..n + 1][..n] == ops[..n];
    assert Exec(ops[..n + 1]).value.made[|s.made|] == NewMade(s, ops[n].r, ops[n].l);
  }

  // ---------- restore ----------

  ghost predicate HasRow(w: World, id: nat) {
    w.open && HasId(w.rows, id)
  }

  ghost function RowOf(rows: seq<Row>, id: nat): (row: Row)
    requires HasId(rows, id)
    ensures row in rows && row.id == id
  {
    var i :| 0 <= i < |rows| && rows[i].id == id;
    rows[i]
  }

  datatype Restored = Restored(code: int, tree: Tree)

  /** backup_restore into a directory that now shows target. */
  ghost function Restore(w: World, id: nat, target: Tree, t: Transfer): Restored {
    if !HasRow(w, id) || t.NotStarted? then Restored(-1, target) else
      var src := ViewOrEmpty(w.store, RowOf(w.rows, id).dir);
      if t.ok then Restored(0, Overlay(src, target))
      else Restored(-1, Overlay(map q | q in src && q in t.partial :: src[q], target))
  }

  /** A file of the restored directory comes from the backup or was there before. */
  ghost predicate Either(f: File, q: string, view: Tree, target: Tree) {
    (q in view && f == view[q]) || (q in target && f == target[q])
  }

  ghost predicate Reproduces(tree: Tree, view: Tree, target: Tree) {
    && tree.Keys == view.Keys + target.Keys
    && ((forall q :: q in view ==> tree[q] == view[q]) <==> Honest(view, target))
    && (forall q :: q in target && q !in view ==> tree[q] == target[q])
    && (target == map[] ==> tree == view)
  }

  lemma OverlayIsEither(src: Tree, view: Tree, target: Tree)
    requires forall q :: q in src ==> q in view && src[q] == view[q]
    ensures forall q :: q in Overlay(src, target) ==> Either(Overlay(src, target)[q], q, view, target)
  {
  }

  /** What a restore that runs leaves in the target: every file from the backup or as it was; and when it
      succeeds, every file of the backup exactly when the quick check is honest about the target. */
  lemma RestoreMeans(w: World, id: nat, target: Tree, t: Transfer)
    requires Good(w) && HasRow(w, id) && t.Ran?
    ensures var view := View(w.store, RowOf(w.rows, id).dir);
            var res := Restore(w, id, target, t);
            && res.code == (if t.ok then 0 else -1)
            && target.Keys <= res.tree.Keys
            && (forall q :: q in res.tree ==> Either(res.tree[q], q, view, target))
            && (t.ok ==> Reproduces(res.tree, view, target))
  {
    var view := View(w.store, RowOf(w.rows, id).dir);
    var sent: Tree := if t.ok then view else map q | q in view && q in t.partial :: view[q];
    assert Restore(w, id, target, t).tree == Overlay(sent, target);
    OverlayReproducesIff(sent, target);
    OverlayIsEither(sent, view, target);
  }

  lemma RestoreShows(w: World, row: Row, partial: set<string>)
    requires Good(w) && w.open && row in w.rows
    ensures Restore(w, row.id, map[], Ran(true, partial)) == Restored(0, View(w.store, row.dir))
  {
    assert HasId(w.rows, row.id);
    assert RowOf(w.rows, row.id) == row;
    OverlayReproducesIff(View(w.store, row.dir), map[]);
  }

  /** Restorability over every history: for a creation that reported success, whose row has not been
      cleaned up and whose directory has not been written again, restoring into an empty directory gives
      exactly the source as it was then, exactly when the backup was faithful when it was made.  What
      else happened since does not matter: later creations, clocks set back, ids used again, and the
      removal of the backup its files are hard-linked with. */
  lemma KeptBackupsRestoreIff(ops: seq<Op>, k: nat, partial: set<string>)
    requires Exec(ops).Some? && k < |Exec(ops).value.made|
    requires var s := Exec(ops).value;
             s.made[k].row in s.w.rows && s.made[k].row.success && LastInto(s.made, k)
    ensures var s := Exec(ops).value;
            var m := s.made[k];
            Restore(s.w, m.row.id, map[], Ran(true, partial)) == Restored(0, m.source)
            <==> Faithful(m.row.kind, m.source, m.here, m.ref)
  {
    var s := Exec(ops).value;
    EveryHistoryKeepsInv(ops);
    assert ShowsSource(s.w.store, s.made[k]);
    RestoreShows(s.w, s.made[k].row, partial);
  }

  // ---------- backups that report success and do not restore ----------

  /** After any history: when a file was edited without changing its length or its modification time
      since the newest backup, the next incremental backup reports success and restores to the unedited
      file. */
  lemma UnnoticedEditIsLost(ops: seq<Op>, r: Request, l: seq<Row>, q: string)
    requires Exec(ops).Some? && Enabled(Exec(ops).value, Make(r, l)) && NewId(Exec(ops).value.made, r)
    requires r.kind == Incremental && r.transfer.Ran? && r.transfer.ok
    requires var ref := ReferenceTree(Exec(ops).value.w, r, l);
             && q in r.source && q in ref && r.source[q] != ref[q]
             && |r.source[q].data| == |ref[q].data| && r.source[q].mtime == ref[q].mtime
    ensures var s := Exec(ops).value;
            var s' := Next(s, Make(r, l));
            && Exec(ops + [Make(r, l)]) == Some(s')
            && NewRow(s.w, r, l) in s'.w.rows && NewRow(s.w, r, l).success
            && Restore(s'.w, r.id, map[], Ran(true, {})).code == 0
            && q in Restore(s'.w, r.id, map[], Ran(true, {})).tree
            && Restore(s'.w, r.id, map[], Ran(true, {})).tree[q] == ReferenceTree(s.w, r, l)[q]
  {
    var s := Exec(ops).value;
    ExecSnoc(ops, Make(r, l));
    EveryHistoryKeepsInv(ops);
    CreateKeepsGood(s.w, r, l);
    NewIdIsNew(s, r);
    CreateView(s.w, r, l);
    RestoreShows(Create(s.w, r, l), NewRow(s.w, r, l), {});
  }

  /** After any history, for a full or incremental backup: a file that is new, or was edited with a change
      of its length or its modification time since the newest backup, is restored as it was. */
  lemma NoticedEditIsKept(ops: seq<Op>, r: Request, l: seq<Row>, q: string)
    requires Exec(ops).Some? && Enabled(Exec(ops).value, Make(r, l)) && NewId(Exec(ops).value.made, r)
    requires r.kind != Differential && r.transfer.Ran? && r.transfer.ok
    requires var ref := ReferenceTree(Exec(ops).value.w, r, l);
             && q in r.source
             && (q in ref ==> |r.source[q].data| != |ref[q].data| || r.source[q].mtime != ref[q].mtime)
    ensures var s' := Next(Exec(ops).value, Make(r, l));
            && Exec(ops + [Make(r, l)]) == Some(s')
            && Restore(s'.w, r.id, map[], Ran(true, {})).code == 0
            && q in Restore(s'.w, r.id, map[], Ran(true, {})).tree
            && Restore(s'.w, r.id, map[], Ran(true, {})).tree[q] == r.source[q]
  {
    var s := Exec(ops).value;
    ExecSnoc(ops, Make(r, l));
    EveryHistoryKeepsInv(ops);
    CreateKeepsGood(s.w, r, l);
    NewIdIsNew(s, r);
    CreateView(s.w, r, l);
    RestoreShows(Create(s.w, r, l), NewRow(s.w, r, l), {});
  }

  /** After any history: a differential backup reports success and restores to an empty tree. */
  lemma DifferentialIsEmpty(ops: seq<Op>, r: Request, l: seq<Row>)
    requires Exec(ops).Some? && Enabled(Exec(ops).value, Make(r, l)) && NewId(Exec(ops).value.made, r)
    requires r.kind == Differential && r.transfer.Ran? && r.transfer.ok
    ensures var s := Exec(ops).value;
            var s' := Next(s, Make(r, l));
            && Exec(ops + [Make(r, l)]) == Some(s')
            && NewRow(s.w, r, l) in s'.w.rows && NewRow(s.w, r, l).success
            && Restore(s'.w, r.id, map[], Ran(true, {})) == Restored(0, map[])
  {
    var s := Exec(ops).value;
    ExecSnoc(ops, Make(r, l));
    EveryHistoryKeepsInv(ops);
    CreateKeepsGood(s.w, r, l);
    NewIdIsNew(s, r);
    CreateView(s.w, r, l);
    RestoreShows(Create(s.w, r, l), NewRow(s.w, r, l), {});
  }

  lemma LargerThanAll(used: set<nat>) returns (n: nat)
    ensures forall m :: m in used ==> m < n
  {
    if used == {} {
      n := 0;
    } else {
      var m :| m in used;
      var k := LargerThanAll(used - {m});
      n := if k > m then k else m + 1;
      assert forall x :: x in used ==> x == m || x in used - {m};
    }
  }

  lemma OneFileIsFresh(s: Store, f: File, n: nat)
    requires n !in s.inodes
    ensures Fresh(s, map["f" := f], map["f" := n])
  {
  }

  /** A full backup of f into "/backup" with the given id. */
  ghost function FullOf(f: File, id: nat, inode: nat): Request {
    Request(map["f" := f], "/backup", Full, 1, id, Ran(true, {}), map["f" := inode])
  }

  /** A first, full backup of one file. */
  lemma FirstBackup(f: File) returns (op: Op, row: Row)
    ensures Exec([op]).Some? && row.dir in Exec([op]).value.w.store.dirs
    ensures row == Row(1, 1, Full, Dir("/backup", 1), true, None)
    ensures var s := Exec([op]).value;
            && s.w.open && s.w.rows == [row] && RowsOf(s.made) == [row] && s.made[0].source == map["f" := f]
            && View(s.w.store, row.dir) == map["f" := f]
  {
    var s, r := Nothing(), FullOf(f, 1, 0);
    op, row := Make(r, []), NewRow(s.w, r, []);
    assert Exec([]) == Some(s) && [] + [op] == [op];
    OneFileIsFresh(s.w.store, f, 0);
    ExecSnoc([], op);
    RowsOfSnoc([], NewMade(s, r, []));
    CreateFaithfulIff(s.w, r, []);
  }

  lemma NextIncremental(s: State, row: Row, g: File) returns (r: Request)
    requires s.w.open && s.w.rows == [row] && RowsOf(s.made) == [row] && row.id == 1
    requires row.dir in s.w.store.dirs
    ensures r.kind == Incremental && r.transfer == Ran(true, {}) && r.source == map["f" := g] && r.id == 2
    ensures Enabled(s, Make(r, [row])) && NewId(s.made, r)
    ensures ReferenceTree(s.w, r, [row]) == View(s.w.store, row.dir)
  {
    var n := LargerThanAll(s.w.store.inodes.Keys);
    r := Request(map["f" := g], "/backup", Incremental, 2, 2, Ran(true, {}), map["f" := n]);
    OneFileIsFresh(s.w.store, g, n);
    assert |s.made| == |RowsOf(s.made)| && s.made[0].row == RowsOf(s.made)[0];
  }

  lemma LostEdit(f: File, g: File) returns (ops: seq<Op>)
    requires QuickSame(g, f) && g != f
    ensures Exec(ops).Some? && |Exec(ops).value.made| == 2
    ensures var s := Exec(ops).value;
            && s.made[1].source == map["f" := g] && s.made[1].row.id == 2
            && s.made[1].row in s.w.rows && s.made[1].row.success
            && Restore(s.w, 2, map[], Ran(true, {})).code == 0
            && "f" in Restore(s.w, 2, map[], Ran(true, {})).tree
            && Restore(s.w, 2, map[], Ran(true, {})).tree["f"] == f
  {
    var op, row := FirstBackup(f);
    var s := Exec([op]).value;
    var r := NextIncremental(s, row, g);
    assert |s.made| == |RowsOf(s.made)| == 1;
    UnnoticedEditIsLost([op], r, [row], "f");
    ops := [op] + [Make(r, [row])];
    assert Exec(ops).value.made[1] == NewMade(s, r, [row]);
  }

  /** A history with an unnoticed edit: the second backup reports success and restores to the file of
      the first. */
  lemma UnnoticedEditWitness() returns (ops: seq<Op>)
    ensures Exec(ops).Some? && |Exec(ops).value.made| == 2
    ensures var s := Exec(ops).value;
            && s.made[1].source == map["f" := File("new", 5)] && s.made[1].row.id == 2
            && s.made[1].row in s.w.rows && s.made[1].row.success
            && Restore(s.w, 2, map[], Ran(true, {})).code == 0
            && "f" in Restore(s.w, 2, map[], Ran(true, {})).tree
            && Restore(s.w, 2, map[], Ran(true, {})).tree["f"] == File("old", 5)
  {
    assert "old"[0] != "new"[0];
    ops := LostEdit(File("old", 5), File("new", 5));
  }

  /** A history of one differential backup. */
  lemma EmptyDifferentialWitness() returns (op: Op)
    ensures Exec([op]).Some? && |Exec([op]).value.made| == 1
    ensures var s := Exec([op]).value;
            && s.made[0].source == map["f" := File("data", 5)]
            && s.made[0].row in s.w.rows && s.made[0].row.success
            && Restore(s.w, s.made[0].row.id, map[], Ran(true, {})) == Restored(0, map[])
  {
    var s := Nothing();
    var r := Request(map["f" := File("data", 5)], "/backup", Differential, 1, 1, Ran(true, {}), map["f" := 0]);
    op := Make(r, []);
    assert Exec([]) == Some(s) && [] + [op] == [op];
    OneFileIsFresh(s.w.store, File("data", 5), 0);
    assert Enabled(s, op);
    DifferentialIsEmpty([], r, []);
  }

  /** After any history: a faithful full backup into the directory of a row replaces what that row
      restores to, and adds no row of its own. */
  lemma RepeatReplaces(ops: seq<Op>, r: Request, l: seq<Row>, row: Row)
    requires Exec(ops).Some? && Enabled(Exec(ops).value, Make(r, l))
    requires row in Exec(ops).value.w.rows && row.dir == Target(r)
    requires r.kind == Full && r.transfer.Ran? && r.transfer.ok
    requires Faithful(Full, r.source, ViewOrEmpty(Exec(ops).value.w.store, row.dir), map[])
    ensures var s := Exec(ops).value;
            var s' := Next(s, Make(r, l));
            && Exec(ops + [Make(r, l)]) == Some(s') && s'.w.rows == s.w.rows
            && Restore(s'.w, row.id, map[], Ran(true, {})) == Restored(0, r.source)
  {
    var s := Exec(ops).value;
    ExecSnoc(ops, Make(r, l));
    EveryHistoryKeepsInv(ops);
    CreateKeepsGood(s.w, r, l);
    CreateFaithfulIff(s.w, r, l);
    assert ReferenceTree(s.w, r, l) == map[];
    RestoreShows(Create(s.w, r, l), row, {});
  }

  /** A history of two full backups in one second: the first reported success, its row is the only one,
      and it restores to the file of the second. */
  lemma SameSecondWitness() returns (ops: seq<Op>, row: Row)
    ensures Exec(ops).Some?
    ensures var s := Exec(ops).value;
            && s.w.rows == [row] && row.id == 1 && row.success
            && |s.made| == 2 && s.made[0].row == row && s.made[0].source == map["f" := File("first", 5)]
            && Restore(s.w, 1, map[], Ran(true, {})) == Restored(0, map["f" := File("second", 6)])
  {
    var op;
    op, row := FirstBackup(File("first", 5));
    var s := Exec([op]).value;
    var n := LargerThanAll(s.w.store.inodes.Keys);
    var r := FullOf(File("second", 6), 1, n);
    OneFileIsFresh(s.w.store, File("second", 6), n);
    RepeatReplaces([op], r, [row], row);
    ops := [op] + [Make(r, [row])];
    assert |s.made| == |RowsOf(s.made)| == 1 && s.made[0].row == RowsOf(s.made)[0];
  }
}
