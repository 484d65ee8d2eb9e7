/** The backup engine: its database rows and the directories they name, under any sequence of
    creations and cleanups.  The listing order, rsync and the clock are arguments. */
module BackupCatalogue {
  import opened Common
  import opened HardLinkStore

  datatype Kind = Full | Incremental | Differential

  datatype Row = Row(id: nat, timestamp: int, kind: Kind, dir: Dir, success: bool, parent: Option<nat>)

  /** How the command of a backup or a restore went: popen failed, or it ran to an exit status; a
      failed transfer may have copied any part of the source. */
  datatype Transfer = NotStarted | Ran(ok: bool, partial: set<string>)

  datatype Request = Request(source: Tree, base: string, kind: Kind, now: int, id: nat,
                             transfer: Transfer, alloc: map<string, nat>)

  datatype World = World(open: bool, rows: seq<Row>, store: Store)

  // ---------- listing ----------

  ghost predicate IdsDistinct(rows: seq<Row>) {
    forall i, j :: 0 <= i < j < |rows| ==> rows[i].id != rows[j].id
  }

  /** An answer to SELECT ... ORDER BY timestamp DESC: every row once, newest first, ties anyhow. */
  ghost predicate IsListing(rows: seq<Row>, l: seq<Row>) {
    && |l| == |rows| && IdsDistinct(l)
    && (forall x :: x in l <==> x in rows)
    && (forall i, j :: 0 <= i < j < |l| ==> l[i].timestamp >= l[j].timestamp)
  }

  ghost predicate NewestFirst(l: seq<Row>) {
    forall i, j :: 0 <= i < j < |l| ==> l[i].timestamp > l[j].timestamp
  }

  lemma {:induction false} NewestFirstIsUnique(l: seq<Row>, m: seq<Row>)
    requires NewestFirst(l) && NewestFirst(m) && forall x :: x in l <==> x in m
    ensures l == m
  {
    assert l != [] ==> l[0] in m;
    assert m != [] ==> m[0] in l;
    if l == [] {
    } else {
      assert l[0] == m[0];
      forall x
        ensures x in l[1..] <==> x in m[1..]
      {
        assert x in l[1..] <==> x in l && x != l[0];
        assert x in m[1..] <==> x in m && x != m[0];
      }
      NewestFirstIsUnique(l[1..], m[1..]);
    }
  }

  ghost predicate TimesDistinct(rows: seq<Row>) {
    forall i, j :: 0 <= i < |rows| && 0 <= j < |rows| && i != j ==> rows[i].timestamp != rows[j].timestamp
  }

  lemma DistinctTimesNewestFirst(rows: seq<Row>, l: seq<Row>)
    requires TimesDistinct(rows) && IsListing(rows, l)
    ensures NewestFirst(l)
  {
    forall i, j | 0 <= i < j < |l|
      ensures l[i].timestamp > l[j].timestamp
    {
      assert l[i] in rows && l[j] in rows && l[i] != l[j];
      var a :| 0 <= a < |rows| && rows[a] == l[i];
      var b :| 0 <= b < |rows| && rows[b] == l[j];
      assert a != b;
    }
  }

  // ---------- creation ----------

  ghost predicate Good(w: World) {
    && Sound(w.store)
    && IdsDistinct(w.rows)
    && (forall x :: x in w.rows ==> x.dir in w.store.dirs && x.dir.id == x.id)
  }

  function Target(r: Request): Dir {
    Dir(r.base, r.id)
  }

  /** An incremental backup refers to the newest row, successful or not, if there is one. */
  function Reference(w: World, r: Request, l: seq<Row>): Option<Row> {
    if r.kind == Incremental && w.open && l != [] then Some(l[0]) else None
  }

  function ReferenceLinks(w: World, r: Request, l: seq<Row>): Links {
    match Reference(w, r, l)
    case None => map[]
    case Some(p) => if p.dir in w.store.dirs then w.store.dirs[p.dir] else map[]
  }

  /** What the command copies.  For a differential backup no rsync command is built, and the command
      that runs is the mkdir still in the buffer. */
  function Copied(r: Request): Tree {
    if r.kind == Differential || r.transfer.NotStarted? then map[]
    else if r.transfer.ok then r.source
    else map q | q in r.source && q in r.transfer.partial :: r.source[q]
  }

  function NewRow(w: World, r: Request, l: seq<Row>): Row {
    Row(r.id, r.now, r.kind, Target(r), r.transfer.Ran? && r.transfer.ok,
        match Reference(w, r, l) case None => None case Some(p) => Some(p.id))
  }

  predicate HasId(rows: seq<Row>, id: nat) {
    exists i :: 0 <= i < |rows| && rows[i].id == id
  }

  /** INSERT fails silently on a duplicate backup_id. */
  function Inserted(w: World, row: Row): seq<Row> {
    if w.open && !HasId(w.rows, row.id) then w.rows + [row] else w.rows
  }

  ghost predicate Allocates(w: World, r: Request) {
    Fresh(w.store, r.source, r.alloc)
  }

  lemma CopiedIsFresh(w: World, r: Request)
    requires Allocates(w, r)
    ensures Fresh(w.store, Copied(r), r.alloc)
  {
  }

  ghost function Create(w: World, r: Request, l: seq<Row>): World
    requires Allocates(w, r)
  {
    CopiedIsFresh(w, r);
    World(w.open, Inserted(w, NewRow(w, r, l)),
          Rsync(w.store, Copied(r), Target(r), ReferenceLinks(w, r, l), r.alloc))
  }

  /** The row of a creation, read off the request and the rows there were: an incremental backup names a
      row as new as any as its parent, if there is a row; no other backup names one. */
  ghost predicate Describes(row: Row, r: Request, rows: seq<Row>, open: bool) {
    && row.id == r.id && row.timestamp == r.now && row.kind == r.kind && row.dir == Dir(r.base, r.id)
    && (row.success <==> r.transfer.Ran? && r.transfer.ok)
    && (if r.kind == Incremental && open && rows != []
        then row.parent.Some? && exists x :: x in rows && x.id == row.parent.value && NoneNewer(rows, x)
        else row.parent == None)
  }

  ghost predicate NoneNewer(rows: seq<Row>, x: Row) {
    forall y :: y in rows ==> y.timestamp <= x.timestamp
  }

  lemma FirstIsNewest(rows: seq<Row>, l: seq<Row>)
    requires IsListing(rows, l) && rows != []
    ensures l != [] && l[0] in rows && NoneNewer(rows, l[0])
  {
    assert l[0] in l;
    forall y | y in rows
      ensures y.timestamp <= l[0].timestamp
    {
      assert y in l;
    }
  }

  /** What a creation adds to the catalogue: one row that describes it, unless the database is closed or
      has a row of that id. */
  lemma CreateRecords(w: World, r: Request, l: seq<Row>)
    requires Allocates(w, r) && IsListing(w.rows, l)
    ensures Describes(NewRow(w, r, l), r, w.rows, w.open)
    ensures Create(w, r, l).open == w.open
    ensures Create(w, r, l).rows ==
            if w.open && (forall x :: x in w.rows ==> x.id != r.id) then w.rows + [NewRow(w, r, l)] else w.rows
  {
    if w.rows != [] {
      FirstIsNewest(w.rows, l);
    } else {
      assert l == [];
    }
    assert HasId(w.rows, r.id) <==> exists x :: x in w.rows && x.id == r.id;
  }

  lemma ReferenceAlive(w: World, r: Request, l: seq<Row>)
    requires Good(w)
    ensures LinksAlive(w.store, ReferenceLinks(w, r, l))
  {
    forall q | q in ReferenceLinks(w, r, l)
      ensures ReferenceLinks(w, r, l)[q] in w.store.inodes
    {
      LinkIsLive(w.store, l[0].dir, q);
    }
  }

  lemma InsertedRows(w: World, row: Row)
    requires IdsDistinct(w.rows)
    ensures IdsDistinct(Inserted(w, row))
    ensures forall x :: x in Inserted(w, row) ==> x in w.rows || x == row
  {
  }

  lemma CreateKeepsGood(w: World, r: Request, l: seq<Row>)
    requires Good(w) && Allocates(w, r)
    ensures Good(Create(w, r, l))
  {
    CopiedIsFresh(w, r);
    InsertedRows(w, NewRow(w, r, l));
    ReferenceAlive(w, r, l);
    RsyncIsSound(w.store, Copied(r), Target(r), ReferenceLinks(w, r, l), r.alloc);
  }

  /** A creation leaves every other directory as it was. */
  lemma CreateKeepsViews(w: World, r: Request, l: seq<Row>, d: Dir)
    requires Good(w) && Allocates(w, r) && d in w.store.dirs && d != Target(r)
    ensures d in Create(w, r, l).store.dirs
    ensures View(Create(w, r, l).store, d) == View(w.store, d)
  {
    CopiedIsFresh(w, r);
    ReferenceAlive(w, r, l);
    RsyncKeepsOthers(w.store, Copied(r), Target(r), ReferenceLinks(w, r, l), r.alloc, d);
  }

  /** The tree the link-dest directory shows when the backup is made. */
  ghost function ReferenceTree(w: World, r: Request, l: seq<Row>): Tree {
    Seen(w.store, ReferenceLinks(w, r, l))
  }

  lemma CreateView(w: World, r: Request, l: seq<Row>)
    requires Good(w) && Allocates(w, r)
    ensures Target(r) in Create(w, r, l).store.dirs
    ensures View(Create(w, r, l).store, Target(r)) ==
            Merged(Copied(r), ViewOrEmpty(w.store, Target(r)), ReferenceTree(w, r, l))
  {
    CopiedIsFresh(w, r);
    ReferenceAlive(w, r, l);
    RsyncView(w.store, Copied(r), Target(r), ReferenceLinks(w, r, l), r.alloc);
  }

  /** When a backup reported as successful is a copy of its source: given what its directory and its
      link-dest directory show before. */
  ghost predicate Faithful(kind: Kind, source: Tree, here: Tree, ref: Tree) {
    if kind == Differential then source == here
    else here.Keys <= source.Keys && forall q :: q in source ==> HonestFile(source, here, ref, q)
  }

  lemma MergedFaithfulIff(r: Request, here: Tree, ref: Tree)
    requires r.transfer.Ran? && r.transfer.ok
    ensures Merged(Copied(r), here, ref) == r.source <==> Faithful(r.kind, r.source, here, ref)
  {
    if r.kind == Differential {
      SameTree(Merged(map[], here, ref), here);
    } else {
      TransferredIff(r.source, here, ref);
    }
  }

  /** A successful creation holds exactly its source exactly when it is faithful: for a differential
      backup when its directory showed that already; otherwise when its directory held no other file and
      equal size and time meant equal content against what it held or the newest backup. */
  lemma CreateFaithfulIff(w: World, r: Request, l: seq<Row>)
    requires Good(w) && Allocates(w, r)
    requires r.transfer.Ran? && r.transfer.ok
    ensures Target(r) in Create(w, r, l).store.dirs
    ensures View(Create(w, r, l).store, Target(r)) == r.source
            <==> Faithful(r.kind, r.source, ViewOrEmpty(w.store, Target(r)), ReferenceTree(w, r, l))
  {
    CreateView(w, r, l);
    MergedFaithfulIff(r, ViewOrEmpty(w.store, Target(r)), ReferenceTree(w, r, l));
  }

  /** The path is one the command copies: it is an rsync that started and came as far as this file. */
  predicate Reached(r: Request, q: string) {
    r.kind != Differential && q in r.source && r.transfer.Ran? && (r.transfer.ok || q in r.transfer.partial)
  }

  /** A creation, successful or not, leaves every path it does not reach as its directory showed it, and
      shows for every other path a file of the source or one with its size and time. */
  lemma CreateReaches(w: World, r: Request, l: seq<Row>, q: string)
    requires Good(w) && Allocates(w, r)
    ensures Target(r) in Create(w, r, l).store.dirs
    ensures var here, view := ViewOrEmpty(w.store, Target(r)), View(Create(w, r, l).store, Target(r));
            if Reached(r, q)
            then q in view && |view[q].data| == |r.source[q].data| && view[q].mtime == r.source[q].mtime
            else (q in view <==> q in here) && (q in here ==> view[q] == here[q])
  {
    CreateView(w, r, l);
    MergedReaches(r, ViewOrEmpty(w.store, Target(r)), ReferenceTree(w, r, l), q);
  }

  lemma MergedReaches(r: Request, here: Tree, ref: Tree, q: string)
    ensures var view := Merged(Copied(r), here, ref);
            if Reached(r, q)
            then q in view && |view[q].data| == |r.source[q].data| && view[q].mtime == r.source[q].mtime
            else (q in view <==> q in here) && (q in here ==> view[q] == here[q])
  {
    assert q in Copied(r) <==> Reached(r, q);
  }

  /** Two creations of the same second with the same destination share a directory, and only the first
      has a row.  The first is untouched exactly when the quick check accepts, against what it holds,
      every file that the second copies. */
  lemma SameSecondKeepsIff(w: World, r: Request, l: seq<Row>)
    requires Good(w) && Allocates(w, r) && Target(r) in w.store.dirs && HasId(w.rows, r.id)
    ensures Create(w, r, l).rows == w.rows
    ensures Target(r) in Create(w, r, l).store.dirs
    ensures var held := View(w.store, Target(r));
            View(Create(w, r, l).store, Target(r)) == held <==>
            forall q :: q in Copied(r) ==>
              q in held && |Copied(r)[q].data| == |held[q].data| && Copied(r)[q].mtime == held[q].mtime
  {
    CreateView(w, r, l);
    MergedUnchangedIff(Copied(r), View(w.store, Target(r)), ReferenceTree(w, r, l));
  }

  // ---------- cleanup ----------

  function Without(rows: seq<Row>, id: nat): seq<Row> {
    if rows == [] then [] else
      var rest := Without(rows[..|rows| - 1], id);
      if rows[|rows| - 1].id == id then rest else rest + [rows[|rows| - 1]]
  }

  /** One turn of the loop: rm -rf, then DELETE. */
  ghost function Drop(w: World, row: Row): World {
    World(w.open, Without(w.rows, row.id), Remove(w.store, {row.dir}))
  }

  ghost function DropFrom(w: World, l: seq<Row>, i: nat): World
    requires i <= |l|
    decreases |l| - i
  {
    if i == |l| then w else DropFrom(Drop(w, l[i]), l, i + 1)
  }

  /** backup_cleanup_old for a keep count that is not negative. */
  ghost function Cleanup(w: World, keep: nat, l: seq<Row>): World {
    if !w.open || |l| <= keep then w else DropFrom(w, l, keep)
  }

  function Ids(l: seq<Row>): set<nat> {
    set x | x in l :: x.id
  }

  function Dirs(l: seq<Row>): set<Dir> {
    set x | x in l :: x.dir
  }

  function Keep(rows: seq<Row>, gone: set<nat>): seq<Row> {
    if rows == [] then [] else
      var rest := Keep(rows[..|rows| - 1], gone);
      if rows[|rows| - 1].id in gone then rest else rest + [rows[|rows| - 1]]
  }

  lemma {:induction false} KeepNone(rows: seq<Row>)
    ensures Keep(rows, {}) == rows
  {
    if rows == [] {
    } else {
      KeepNone(rows[..|rows| - 1]);
    }
  }

  lemma {:induction false} WithoutThenKeep(rows: seq<Row>, id: nat, gone: set<nat>)
    ensures Keep(Without(rows, id), gone) == Keep(rows, {id} + gone)
  {
    if rows == [] {
    } else {
      var pre, x := rows[..|rows| - 1], rows[|rows| - 1];
      WithoutThenKeep(pre, id, gone);
      if x.id != id {
        assert (Without(pre, id) + [x])[..|Without(pre, id)|] == Without(pre, id);
      }
    }
  }

  lemma {:induction false} KeepMembers(rows: seq<Row>, gone: set<nat>)
    ensures forall x :: x in Keep(rows, gone) <==> x in rows && x.id !in gone
    ensures IdsDistinct(rows) ==> IdsDistinct(Keep(rows, gone))
  {
    if rows == [] {
    } else {
      var pre, x := rows[..|rows| - 1], rows[|rows| - 1];
      KeepMembers(pre, gone);
      assert rows == pre + [x];
    }
  }

  /** The loop in closed form. */
  lemma {:induction false} DropFromClosed(w: World, l: seq<Row>, i: nat)
    requires Sound(w.store) && i <= |l|
    ensures DropFrom(w, l, i) == World(w.open, Keep(w.rows, Ids(l[i..])), Remove(w.store, Dirs(l[i..])))
    decreases |l| - i
  {
    if i == |l| {
      assert Ids(l[i..]) == {} && Dirs(l[i..]) == {};
      KeepNone(w.rows);
      RemoveNothing(w.store);
    } else {
      var w' := Drop(w, l[i]);
      RemoveIsSound(w.store, {l[i].dir});
      DropFromClosed(w', l, i + 1);
      assert l[i..] == [l[i]] + l[i + 1..];
      assert Ids(l[i..]) == {l[i].id} + Ids(l[i + 1..]);
      assert Dirs(l[i..]) == {l[i].dir} + Dirs(l[i + 1..]);
      WithoutThenKeep(w.rows, l[i].id, Ids(l[i + 1..]));
      RemoveTwice(w.store, {l[i].dir}, Dirs(l[i + 1..]));
    }
  }

  lemma CleanupClosed(w: World, keep: nat, l: seq<Row>)
    requires Good(w) && w.open
    ensures var gone := l[Least(keep, |l|)..];
            Cleanup(w, keep, l) == World(true, Keep(w.rows, Ids(gone)), Remove(w.store, Dirs(gone)))
  {
    DropFromClosed(w, l, Least(keep, |l|));
  }

  lemma {:induction false} IdsSize(l: seq<Row>)
    requires IdsDistinct(l)
    ensures |Ids(l)| == |l|
  {
    if l == [] {
    } else {
      var pre, x := l[..|l| - 1], l[|l| - 1];
      IdsSize(pre);
      assert l == pre + [x];
      assert Ids(l) == Ids(pre) + {x.id};
    }
  }

  lemma PartsAreDisjoint(l: seq<Row>, k: nat)
    requires IdsDistinct(l) && k <= |l|
    ensures forall x, y :: x in l[..k] && y in l[k..] ==> x.id != y.id
    ensures forall x :: x in l <==> x in l[..k] || x in l[k..]
  {
    forall x, y | x in l[..k] && y in l[k..]
      ensures x.id != y.id
    {
      var i :| 0 <= i < k && l[i] == x;
      var j :| k <= j < |l| && l[j] == y;
    }
    assert l == l[..k] + l[k..];
  }

  lemma KeptAreTheFirst(rows: seq<Row>, l: seq<Row>, k: nat)
    requires IdsDistinct(rows) && IsListing(rows, l) && k <= |l|
    ensures var kept := Keep(rows, Ids(l[k..]));
            && (forall x :: x in kept <==> x in l[..k])
            && (forall x :: x in l[k..] <==> x in rows && x !in kept)
            && IdsDistinct(kept) && |kept| == k
  {
    var kept := Keep(rows, Ids(l[k..]));
    KeepMembers(rows, Ids(l[k..]));
    PartsAreDisjoint(l, k);
    assert Ids(kept) == Ids(l[..k]);
    IdsSize(kept);
    IdsSize(l[..k]);
  }

  /** Cleanup keeps the newest rows, as many as asked for. */
  lemma CleanupKeepsNewest(w: World, keep: nat, l: seq<Row>)
    requires Good(w) && w.open && IsListing(w.rows, l)
    ensures var kept := Cleanup(w, keep, l).rows;
            && |kept| == Least(keep, |w.rows|)
            && (forall x :: x in kept ==> x in w.rows)
            && (forall x :: x in kept <==> x in l[..Least(keep, |l|)])
            && (forall x, y :: x in kept && y in w.rows && y !in kept ==> x.timestamp >= y.timestamp)
  {
    var k := Least(keep, |l|);
    CleanupClosed(w, keep, l);
    KeptAreTheFirst(w.rows, l, k);
    forall x, y | x in l[..k] && y in l[k..]
      ensures x.timestamp >= y.timestamp
    {
      var i :| 0 <= i < k && l[i] == x;
      var j :| k <= j < |l| && l[j] == y;
    }
  }

  lemma KeptDirsSurvive(w: World, l: seq<Row>, k: nat, x: Row)
    requires Good(w) && IsListing(w.rows, l) && k <= |l| && x in l[..k]
    ensures x.dir in w.store.dirs && x.dir !in Dirs(l[k..])
  {
    PartsAreDisjoint(l, k);
    assert forall y :: y in l[k..] ==> y.dir != x.dir;
  }

  /** Cleanup removes exactly the directories of the rows it deletes; every other directory is as it
      was, even where it shared inodes with a removed one. */
  lemma CleanupRemovesExactly(w: World, keep: nat, l: seq<Row>)
    requires Good(w) && w.open && IsListing(w.rows, l)
    ensures var w' := Cleanup(w, keep, l);
            && Good(w') && w'.open
            && (forall d :: d in w'.store.dirs <==>
                  d in w.store.dirs && forall y :: y in w.rows && y !in w'.rows ==> y.dir != d)
            && (forall d :: d in w'.store.dirs ==> View(w'.store, d) == View(w.store, d))
  {
    var k := Least(keep, |l|);
    var w' := Cleanup(w, keep, l);
    CleanupClosed(w, keep, l);
    KeptAreTheFirst(w.rows, l, k);
    RemoveIsSound(w.store, Dirs(l[k..]));
    assert w'.store.dirs.Keys == w.store.dirs.Keys - Dirs(l[k..]);
    forall x | x in w'.rows
      ensures x.dir in w'.store.dirs
    {
      KeptDirsSurvive(w, l, k, x);
    }
    forall d | d in w'.store.dirs
      ensures View(w'.store, d) == View(w.store, d)
    {
      RemoveKeepsOthers(w.store, Dirs(l[k..]), d);
    }
  }

  lemma TimesStayDistinct(rows: seq<Row>, kept: seq<Row>)
    requires TimesDistinct(rows) && IdsDistinct(kept) && forall x :: x in kept ==> x in rows
    ensures TimesDistinct(kept)
  {
    forall i, j | 0 <= i < |kept| && 0 <= j < |kept| && i != j
      ensures kept[i].timestamp != kept[j].timestamp
    {
      assert kept[i] in rows && kept[j] in rows && kept[i] != kept[j];
    }
  }

  lemma ListingAfterCleanup(w: World, keep: nat, l: seq<Row>, m: seq<Row>)
    requires Good(w) && w.open && TimesDistinct(w.rows)
    requires IsListing(w.rows, l) && IsListing(Cleanup(w, keep, l).rows, m)
    ensures m == l[..Least(keep, |l|)]
  {
    var kept := Cleanup(w, keep, l).rows;
    CleanupKeepsNewest(w, keep, l);
    CleanupRemovesExactly(w, keep, l);
    TimesStayDistinct(w.rows, kept);
    DistinctTimesNewestFirst(w.rows, l);
    DistinctTimesNewestFirst(kept, m);
    NewestFirstIsUnique(l[..Least(keep, |l|)], m);
  }

  lemma Union(l: seq<Row>, b: nat, a: nat)
    requires b <= a <= |l|
    ensures Ids(l[b..]) == Ids(l[a..]) + Ids(l[b..a])
    ensures Dirs(l[b..]) == Dirs(l[a..]) + Dirs(l[b..a])
  {
    assert l[b..] == l[b..a] + l[a..];
  }

  /** Cleaning twice is cleaning once with the smaller count. */
  lemma CleanupComposes(w: World, k1: nat, k2: nat, l1: seq<Row>, l2: seq<Row>)
    requires Good(w) && w.open && TimesDistinct(w.rows)
    requires IsListing(w.rows, l1) && IsListing(Cleanup(w, k1, l1).rows, l2)
    ensures Cleanup(Cleanup(w, k1, l1), k2, l2) == Cleanup(w, if k1 < k2 then k1 else k2, l1)
  {
    var w1, a := Cleanup(w, k1, l1), Least(k1, |l1|);
    var b := Least(k2, a);
    ListingAfterCleanup(w, k1, l1, l2);
    CleanupClosed(w, k1, l1);
    CleanupRemovesExactly(w, k1, l1);
    CleanupClosed(w1, k2, l2);
    CleanupClosed(w, if k1 < k2 then k1 else k2, l1);
    assert l2[b..] == l1[b..a];
    Union(l1, b, a);
    KeepTwice(w.rows, Ids(l1[a..]), Ids(l1[b..a]));
    RemoveTwice(w.store, Dirs(l1[a..]), Dirs(l1[b..a]));
  }

  lemma {:induction false} KeepTwice(rows: seq<Row>, a: set<nat>, b: set<nat>)
    ensures Keep(Keep(rows, a), b) == Keep(rows, a + b)
  {
    if rows == [] {
    } else {
      var pre, x := rows[..|rows| - 1], rows[|rows| - 1];
      KeepTwice(pre, a, b);
      if x.id !in a {
        assert (Keep(pre, a) + [x])[..|Keep(pre, a)|] == Keep(pre, a);
      }
    }
  }
}
