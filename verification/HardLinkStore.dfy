/** Directories of hard links over an inode store, and the two external commands the backup engine
    runs on them: rsync, with or without --link-dest, and rm -rf. */
module HardLinkStore {

  datatype File = File(data: string, mtime: int)
  type Tree = map<string, File>   // relative path to regular file
  type Links = map<string, nat>   // relative path to inode number

  datatype Dir = Dir(base: string, id: nat)  // <base>/backup-<second>

  datatype Store = Store(dirs: map<Dir, Links>, inodes: map<nat, File>)

  /** rsync's quick check. */
  predicate QuickSame(a: File, b: File) {
    |a.data| == |b.data| && a.mtime == b.mtime
  }

  ghost function Live(dirs: map<Dir, Links>): set<nat> {
    set d, q | d in dirs && q in dirs[d] :: dirs[d][q]
  }

  /** Inodes with no link left are freed. */
  ghost function Collect(dirs: map<Dir, Links>, inodes: map<nat, File>): Store {
    Store(dirs, map n | n in inodes && n in Live(dirs) :: inodes[n])
  }

  /** No dangling link and no unlinked inode. */
  ghost predicate Sound(s: Store) {
    s.inodes.Keys == Live(s.dirs)
  }

  lemma LinkIsLive(s: Store, d: Dir, q: string)
    requires Sound(s) && d in s.dirs && q in s.dirs[d]
    ensures s.dirs[d][q] in s.inodes
  {
    assert s.dirs[d][q] in Live(s.dirs);
  }

  /** What a reader of the directory sees. */
  ghost function View(s: Store, d: Dir): (t: Tree)
    requires d in s.dirs
    ensures Sound(s) ==> t.Keys == s.dirs[d].Keys
  {
    assert Sound(s) ==> forall q :: q in s.dirs[d] ==> s.dirs[d][q] in Live(s.dirs);
    map q | q in s.dirs[d] && s.dirs[d][q] in s.inodes :: s.inodes[s.dirs[d][q]]
  }

  ghost function ViewOrEmpty(s: Store, d: Dir): Tree {
    if d in s.dirs then View(s, d) else map[]
  }

  // ---------- rm -rf ----------

  ghost function Remove(s: Store, ds: set<Dir>): Store {
    Collect(s.dirs - ds, s.inodes)
  }

  lemma RemoveIsSound(s: Store, ds: set<Dir>)
    requires Sound(s)
    ensures Sound(Remove(s, ds))
  {
    var s' := Remove(s, ds);
    forall n | n in Live(s'.dirs)
      ensures n in s.inodes
    {
      var d, q :| d in s'.dirs && q in s'.dirs[d] && s'.dirs[d][q] == n;
      LinkIsLive(s, d, q);
    }
  }

  /** Removing directories leaves every other directory as it was, however many inodes it shares
      with the removed ones. */
  lemma RemoveKeepsOthers(s: Store, ds: set<Dir>, d: Dir)
    requires Sound(s) && d in s.dirs && d !in ds
    ensures d in Remove(s, ds).dirs && View(Remove(s, ds), d) == View(s, d)
  {
    RemoveIsSound(s, ds);
    SameLinksSameView(s, Remove(s, ds), d);
  }

  lemma RemoveTwice(s: Store, a: set<Dir>, b: set<Dir>)
    ensures Remove(Remove(s, a), b) == Remove(s, a + b)
  {
    assert s.dirs - a - b == s.dirs - (a + b);
    var s1, s2 := Remove(s, a), Remove(Remove(s, a), b);
    forall n | n in Live(s2.dirs)
      ensures n in Live(s1.dirs)
    {
      var d, q :| d in s2.dirs && q in s2.dirs[d] && s2.dirs[d][q] == n;
      assert d in s1.dirs && s1.dirs[d] == s2.dirs[d];
    }
  }

  lemma RemoveNothing(s: Store)
    requires Sound(s)
    ensures Remove(s, {}) == s
  {
    assert s.dirs - {} == s.dirs;
    assert Remove(s, {}).inodes == s.inodes;
  }

  // ---------- rsync into a directory of the store ----------

  /** The kernel hands out inode numbers that are not in use, each once. */
  ghost predicate Fresh(s: Store, src: Tree, alloc: map<string, nat>) {
    && src.Keys <= alloc.Keys
    && (forall q :: q in src ==> alloc[q] !in s.inodes)
    && (forall q, r :: q in src && r in src && alloc[q] == alloc[r] ==> q == r)
  }

  /** Which inode the path gets: the one already there or the one in the link-dest directory when the
      quick check accepts it, otherwise a new one, since rsync replaces files by renaming. */
  ghost function Pick(s: Store, here: Links, ref: Links, q: string, f: File, unused: nat): nat {
    if q in here && here[q] in s.inodes && QuickSame(f, s.inodes[here[q]]) then here[q]
    else if q in ref && ref[q] in s.inodes && QuickSame(f, s.inodes[ref[q]]) then ref[q]
    else unused
  }

  ghost function NewLinks(s: Store, src: Tree, d: Dir, ref: Links, alloc: map<string, nat>): Links
    requires src.Keys <= alloc.Keys
  {
    var here: Links := if d in s.dirs then s.dirs[d] else map[];
    map q | q in here.Keys + src.Keys ::
      if q in src then Pick(s, here, ref, q, src[q], alloc[q]) else here[q]
  }

  ghost function NewInodes(src: Tree, alloc: map<string, nat>): map<nat, File>
    requires src.Keys <= alloc.Keys
    requires forall q, r :: q in src && r in src && alloc[q] == alloc[r] ==> q == r
  {
    map q | q in src :: alloc[q] := src[q]
  }

  /** Transfer src into d, which mkdir -p has made; ref is the link-dest directory, if any. */
  ghost function Rsync(s: Store, src: Tree, d: Dir, ref: Links, alloc: map<string, nat>): Store
    requires Fresh(s, src, alloc)
  {
    Collect(s.dirs[d := NewLinks(s, src, d, ref, alloc)], s.inodes + NewInodes(src, alloc))
  }

  ghost predicate LinksAlive(s: Store, links: Links) {
    forall q :: q in links ==> links[q] in s.inodes
  }

  lemma NewInodesAreNew(s: Store, src: Tree, alloc: map<string, nat>)
    requires Fresh(s, src, alloc)
    ensures NewInodes(src, alloc).Keys !! s.inodes.Keys
  {
  }

  lemma NewLinkAlive(s: Store, src: Tree, d: Dir, ref: Links, alloc: map<string, nat>, q: string)
    requires Sound(s) && Fresh(s, src, alloc) && LinksAlive(s, ref) && q in NewLinks(s, src, d, ref, alloc)
    ensures NewLinks(s, src, d, ref, alloc)[q] in s.inodes + NewInodes(src, alloc)
  {
    if q in src {
      assert alloc[q] in NewInodes(src, alloc);
    } else {
      LinkIsLive(s, d, q);
    }
  }

  lemma CollectIsSound(dirs: map<Dir, Links>, inodes: map<nat, File>)
    requires Live(dirs) <= inodes.Keys
    ensures Sound(Collect(dirs, inodes))
  {
  }

  lemma RelinkedIsBacked(s: Store, d: Dir, links: Links, inodes: map<nat, File>)
    requires Sound(s) && s.inodes.Keys <= inodes.Keys && forall q :: q in links ==> links[q] in inodes
    ensures Live(s.dirs[d := links]) <= inodes.Keys
  {
    var dirs := s.dirs[d := links];
    forall n | n in Live(dirs)
      ensures n in inodes
    {
      var e, q :| e in dirs && q in dirs[e] && dirs[e][q] == n;
      if e != d {
        LinkIsLive(s, e, q);
      }
    }
  }

  lemma RsyncIsSound(s: Store, src: Tree, d: Dir, ref: Links, alloc: map<string, nat>)
    requires Sound(s) && Fresh(s, src, alloc) && LinksAlive(s, ref)
    ensures Sound(Rsync(s, src, d, ref, alloc))
  {
    var links, all := NewLinks(s, src, d, ref, alloc), s.inodes + NewInodes(src, alloc);
    forall q | q in links
      ensures links[q] in all
    {
      NewLinkAlive(s, src, d, ref, alloc, q);
    }
    RelinkedIsBacked(s, d, links, all);
    CollectIsSound(s.dirs[d := links], all);
  }

  lemma SameLinksSameView(s: Store, s': Store, e: Dir)
    requires Sound(s) && Sound(s') && e in s.dirs && e in s'.dirs && s.dirs[e] == s'.dirs[e]
    requires forall n :: n in s.inodes && n in s'.inodes ==> s.inodes[n] == s'.inodes[n]
    ensures View(s, e) == View(s', e)
  {
    forall q | q in s.dirs[e]
      ensures s.dirs[e][q] in s.inodes && s.dirs[e][q] in s'.inodes
    {
      LinkIsLive(s, e, q);
      LinkIsLive(s', e, q);
    }
  }

  /** A transfer leaves every other directory as it was. */
  lemma RsyncKeepsOthers(s: Store, src: Tree, d: Dir, ref: Links, alloc: map<string, nat>, e: Dir)
    requires Sound(s) && Fresh(s, src, alloc) && LinksAlive(s, ref) && e in s.dirs && e != d
    ensures var s' := Rsync(s, src, d, ref, alloc);
            e in s'.dirs && View(s', e) == View(s, e)
  {
    RsyncIsSound(s, src, d, ref, alloc);
    NewInodesAreNew(s, src, alloc);
    SameLinksSameView(s, Rsync(s, src, d, ref, alloc), e);
  }

  /** Equal size and modification time mean equal content, between the two trees. */
  ghost predicate Honest(src: Tree, ref: Tree) {
    forall q :: q in src && q in ref && |src[q].data| == |ref[q].data| && src[q].mtime == ref[q].mtime ==>
      src[q] == ref[q]
  }

  ghost function Seen(s: Store, links: Links): Tree {
    map q | q in links && links[q] in s.inodes :: s.inodes[links[q]]
  }

  /** What the target shows after a transfer of src, when it showed here before and the link-dest
      directory shows ref. */
  ghost function Merged(src: Tree, here: Tree, ref: Tree): (t: Tree)
    ensures t.Keys == here.Keys + src.Keys
  {
    map q | q in here.Keys + src.Keys :: MergedFile(src, here, ref, q)
  }

  ghost function MergedFile(src: Tree, here: Tree, ref: Tree, q: string): File
    requires q in here || q in src
  {
    if q !in src then here[q]
    else if q in here && QuickSame(src[q], here[q]) then here[q]
    else if q in ref && QuickSame(src[q], ref[q]) then ref[q]
    else src[q]
  }

  /** The quick check is honest about the file it is used on: the one in the target if it accepts that,
      otherwise the one in the link-dest directory. */
  ghost predicate HonestFile(src: Tree, here: Tree, ref: Tree, q: string)
    requires q in src
  {
    if q in here && |src[q].data| == |here[q].data| && src[q].mtime == here[q].mtime then here[q] == src[q]
    else q in ref && |src[q].data| == |ref[q].data| && src[q].mtime == ref[q].mtime ==> ref[q] == src[q]
  }

  /** The target becomes the source exactly when it held no other file and the quick check was honest. */
  lemma TransferredIff(src: Tree, here: Tree, ref: Tree)
    ensures Merged(src, here, ref) == src <==>
            here.Keys <= src.Keys && forall q :: q in src ==> HonestFile(src, here, ref, q)
  {
    var m := Merged(src, here, ref);
    if m == src {
      forall q | q in src
        ensures HonestFile(src, here, ref, q)
      {
        assert m[q] == src[q];
      }
    }
    if here.Keys <= src.Keys && forall q :: q in src ==> HonestFile(src, here, ref, q) {
      SameTree(m, src);
    }
  }

  /** A directory shows the same after a transfer into it exactly when the quick check accepts what it
      shows for every file of the source. */
  lemma MergedUnchangedIff(src: Tree, here: Tree, ref: Tree)
    ensures Merged(src, here, ref) == here <==> forall q :: q in src ==> q in here && QuickSame(src[q], here[q])
  {
    var m := Merged(src, here, ref);
    if m == here {
      forall q | q in src
        ensures q in here && QuickSame(src[q], here[q])
      {
        assert q in m && m[q] == here[q];
      }
    }
    if forall q :: q in src ==> q in here && QuickSame(src[q], here[q]) {
      SameTree(m, here);
    }
  }

  lemma SameTree(a: Tree, b: Tree)
    requires a.Keys == b.Keys && forall q :: q in a ==> a[q] == b[q]
    ensures a == b
  {
  }

  lemma PickedFile(s: Store, src: Tree, d: Dir, ref: Links, alloc: map<string, nat>, q: string)
    requires Sound(s) && Fresh(s, src, alloc) && LinksAlive(s, ref) && q in NewLinks(s, src, d, ref, alloc)
    ensures q in src || q in ViewOrEmpty(s, d)
    ensures var n := NewLinks(s, src, d, ref, alloc)[q];
            var all := s.inodes + NewInodes(src, alloc);
            n in all && all[n] == MergedFile(src, ViewOrEmpty(s, d), Seen(s, ref), q)
  {
    NewInodesAreNew(s, src, alloc);
    if d in s.dirs && q in s.dirs[d] {
      LinkIsLive(s, d, q);
    }
    if q in src {
      assert NewInodes(src, alloc)[alloc[q]] == src[q];
    }
  }

  lemma RsyncFile(s: Store, src: Tree, d: Dir, ref: Links, alloc: map<string, nat>, q: string)
    requires Sound(s) && Fresh(s, src, alloc) && LinksAlive(s, ref) && q in NewLinks(s, src, d, ref, alloc)
    ensures var s' := Rsync(s, src, d, ref, alloc);
            && d in s'.dirs && q in View(s', d) && (q in src || q in ViewOrEmpty(s, d))
            && View(s', d)[q] == MergedFile(src, ViewOrEmpty(s, d), Seen(s, ref), q)
  {
    PickedFile(s, src, d, ref, alloc, q);
    RsyncIsSound(s, src, d, ref, alloc);
    LinkIsLive(Rsync(s, src, d, ref, alloc), d, q);
  }

  lemma RsyncKeys(s: Store, src: Tree, d: Dir, ref: Links, alloc: map<string, nat>)
    requires Sound(s) && Fresh(s, src, alloc) && LinksAlive(s, ref)
    ensures d in Rsync(s, src, d, ref, alloc).dirs
    ensures View(Rsync(s, src, d, ref, alloc), d).Keys == NewLinks(s, src, d, ref, alloc).Keys
    ensures NewLinks(s, src, d, ref, alloc).Keys == ViewOrEmpty(s, d).Keys + src.Keys
  {
    RsyncIsSound(s, src, d, ref, alloc);
  }

  /** What the target of a transfer shows. */
  lemma RsyncView(s: Store, src: Tree, d: Dir, ref: Links, alloc: map<string, nat>)
    requires Sound(s) && Fresh(s, src, alloc) && LinksAlive(s, ref)
    ensures d in Rsync(s, src, d, ref, alloc).dirs
    ensures View(Rsync(s, src, d, ref, alloc), d) == Merged(src, ViewOrEmpty(s, d), Seen(s, ref))
  {
    RsyncKeys(s, src, d, ref, alloc);
    var v, t := View(Rsync(s, src, d, ref, alloc), d), Merged(src, ViewOrEmpty(s, d), Seen(s, ref));
    forall q | q in v
      ensures v[q] == t[q]
    {
      RsyncFile(s, src, d, ref, alloc, q);
    }
    SameTree(v, t);
  }

  // ---------- rsync into a plain directory, as a restore does ----------

  function Overlay(src: Tree, target: Tree): Tree {
    map q | q in target.Keys + src.Keys ::
      if q in src && !(q in target && QuickSame(src[q], target[q])) then src[q] else target[q]
  }

  /** Restoring into a directory reproduces every file of the backup exactly when the quick check is
      honest about what was there; other files of that directory survive. */
  lemma OverlayReproducesIff(src: Tree, target: Tree)
    ensures (forall q :: q in src ==> Overlay(src, target)[q] == src[q]) <==> Honest(src, target)
    ensures forall q :: q in target && q !in src ==> Overlay(src, target)[q] == target[q]
    ensures target == map[] ==> Overlay(src, target) == src
  {
    if forall q :: q in src ==> Overlay(src, target)[q] == src[q] {
      forall q | q in src && q in target && QuickSame(src[q], target[q])
        ensures src[q] == target[q]
      {
        assert Overlay(src, target)[q] == src[q];
      }
    }
  }
}
