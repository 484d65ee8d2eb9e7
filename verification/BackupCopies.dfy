/** Hard links refine plain copies: a store in which every backup directory is a tree of its own. */
module BackupCopies {
  import opened Common
  import opened HardLinkStore
  import opened BackupCatalogue
  import opened BackupRuns

  ghost function At(c: map<Dir, Tree>, d: Dir): Tree {
    if d in c then c[d] else map[]
  }

  /** What the link-dest directory of a creation shows. */
  ghost function Basis(c: map<Dir, Tree>, r: Request, l: seq<Row>): Tree {
    if r.kind == Incremental && l != [] then At(c, l[0].dir) else map[]
  }

  /** The directories after a history, each a tree: a creation merges its source into its own, given
      that of the newest backup listed, and a cleanup takes away those of the rows past the count. */
  ghost function Copies(ops: seq<Op>): map<Dir, Tree> {
    if ops == [] then map[] else
      var c := Copies(ops[..|ops| - 1]);
      match ops[|ops| - 1]
      case Make(r, l) =>
        c[Target(r) := Merged(Copied(r), At(c, Target(r)), Basis(c, r, l))]
      case Prune(keep, l) => c - Dirs(l[Least(keep, |l|)..])
  }

  ghost predicate ShowsAt(store: Store, d: Dir, t: Tree) {
    d in store.dirs && View(store, d) == t
  }

  ghost predicate Shows(store: Store, c: map<Dir, Tree>) {
    (forall d :: d in store.dirs ==> d in c) && (forall d :: d in c ==> ShowsAt(store, d, c[d]))
  }

  lemma BasisIsReference(w: World, c: map<Dir, Tree>, r: Request, l: seq<Row>)
    requires w.open && Shows(w.store, c)
    ensures ReferenceTree(w, r, l) == Basis(c, r, l)
  {
    if r.kind == Incremental && l != [] && l[0].dir in c {
      assert ShowsAt(w.store, l[0].dir, c[l[0].dir]);
    }
  }

  lemma CreateKeys(w: World, r: Request, l: seq<Row>)
    requires Allocates(w, r)
    ensures Create(w, r, l).store.dirs.Keys == w.store.dirs.Keys + {Target(r)}
  {
  }

  lemma NewDirShows(w: World, c: map<Dir, Tree>, r: Request, l: seq<Row>)
    requires Good(w) && w.open && Allocates(w, r) && Shows(w.store, c)
    ensures ShowsAt(Create(w, r, l).store, Target(r), Merged(Copied(r), At(c, Target(r)), Basis(c, r, l)))
  {
    CreateView(w, r, l);
    BasisIsReference(w, c, r, l);
    assert ViewOrEmpty(w.store, Target(r)) == At(c, Target(r)) by {
      assert Target(r) in c ==> ShowsAt(w.store, Target(r), c[Target(r)]);
    }
  }

  lemma OldDirShows(w: World, c: map<Dir, Tree>, r: Request, l: seq<Row>, d: Dir)
    requires Good(w) && Allocates(w, r) && d in c && ShowsAt(w.store, d, c[d]) && d != Target(r)
    ensures ShowsAt(Create(w, r, l).store, d, c[d])
  {
    CreateKeepsViews(w, r, l, d);
  }

  lemma ShowsUpdated(store: Store, c: map<Dir, Tree>, d: Dir, t: Tree)
    requires ShowsAt(store, d, t) && forall e :: e in store.dirs ==> e in c || e == d
    requires forall e :: e in c && e != d ==> ShowsAt(store, e, c[e])
    ensures Shows(store, c[d := t])
  {
  }

  lemma MakeRefines(w: World, c: map<Dir, Tree>, r: Request, l: seq<Row>)
    requires Good(w) && w.open && Allocates(w, r) && Shows(w.store, c)
    ensures Shows(Create(w, r, l).store, c[Target(r) := Merged(Copied(r), At(c, Target(r)), Basis(c, r, l))])
  {
    var s', t := Create(w, r, l).store, Merged(Copied(r), At(c, Target(r)), Basis(c, r, l));
    CreateKeys(w, r, l);
    NewDirShows(w, c, r, l);
    forall d | d in c && d != Target(r)
      ensures ShowsAt(s', d, c[d])
    {
      OldDirShows(w, c, r, l, d);
    }
    ShowsUpdated(s', c, Target(r), t);
  }

  lemma PruneRefines(w: World, c: map<Dir, Tree>, keep: nat, l: seq<Row>)
    requires Good(w) && w.open && Shows(w.store, c)
    ensures Shows(Cleanup(w, keep, l).store, c - Dirs(l[Least(keep, |l|)..]))
  {
    var gone := Dirs(l[Least(keep, |l|)..]);
    CleanupClosed(w, keep, l);
    forall d | d in c && d !in gone
      ensures ShowsAt(Remove(w.store, gone), d, c[d])
    {
      assert ShowsAt(w.store, d, c[d]);
      RemoveKeepsOthers(w.store, gone, d);
    }
  }

  /** After any history, whatever directories share inodes, each shows what it would as a copy. */
  lemma {:induction false} HardLinksRefineCopies(ops: seq<Op>)
    requires Exec(ops).Some?
    ensures Shows(Exec(ops).value.w.store, Copies(ops))
  {
    if ops == [] {
    } else {
      var pre := ops[..|ops| - 1];
      HardLinksRefineCopies(pre);
      EveryHistoryKeepsInv(pre);
      match ops[|ops| - 1]
      case Make(r, l) => MakeRefines(Exec(pre).value.w, Copies(pre), r, l);
      case Prune(keep, l) => PruneRefines(Exec(pre).value.w, Copies(pre), keep, l);
    }
  }

  /** So a row restores to the copy, also when its directory has been written more than once. */
  lemma RowsRestoreCopies(ops: seq<Op>, row: Row, partial: set<string>)
    requires Exec(ops).Some? && row in Exec(ops).value.w.rows
    ensures row.dir in Copies(ops)
    ensures Restore(Exec(ops).value.w, row.id, map[], Ran(true, partial)) == Restored(0, Copies(ops)[row.dir])
  {
    HardLinksRefineCopies(ops);
    EveryHistoryKeepsInv(ops);
    RestoreShows(Exec(ops).value.w, row, partial);
  }
}
