/** The backup engine's entry points, acting on the database handle they share and, through external
    commands, on the file system. */
module BackupEngine {
  import opened Common
  import opened HardLinkStore
  import opened BackupCatalogue
  import BackupRuns

  class Engine {
    var open: bool
    var rows: seq<Row>
    ghost var store: Store

    ghost function Now(): World
      reads this
    {
      World(open, rows, store)
    }

    constructor (open: bool)
      ensures Good(Now()) && Now() == World(open, [], Store(map[], map[]))
    {
      this.open, rows, store := open, [], Store(map[], map[]);
    }

    /** The INSERT at the end of backup_create. */
    method SaveRow(row: Row)
      modifies this`rows
      ensures rows == Inserted(old(Now()), row)
    {
      if open {
        if !HasId(rows, row.id) {
          rows := rows + [row];
        }
      }
    }

    /** backup_create; l is what backup_list returned, used only when the database is open. */
    method CreateBackup(r: Request, l: seq<Row>) returns (code: int)
      requires Allocates(Now(), r)
      modifies this
      ensures Now() == Create(old(Now()), r, l)
      ensures code == if r.transfer.Ran? && r.transfer.ok then 0 else -1
    {
      var parent := None;
      if r.kind == Incremental {
        if open && |l| > 0 {
          parent := Some(l[0].id);
        }
      }
      var success := false;
      if r.transfer.Ran? {
        success := r.transfer.ok;
      }
      ghost var before := Now();
      assert Row(r.id, r.now, r.kind, Target(r), success, parent) == NewRow(before, r, l);
      store := Create(before, r, l).store;
      SaveRow(Row(r.id, r.now, r.kind, Target(r), success, parent));
      code := if success then 0 else -1;
    }

    /** One turn of the loop of backup_cleanup_old. */
    method RemoveBackup(row: Row)
      modifies this`rows, this`store
      ensures Now() == Drop(old(Now()), row)
    {
      store := Remove(store, {row.dir});
      rows := Without(rows, row.id);
    }

    /** backup_cleanup_old; a negative count would index before the list. */
    method CleanupOld(keep: int, l: seq<Row>) returns (code: int)
      requires keep >= 0
      modifies this`rows, this`store
      ensures Now() == Cleanup(old(Now()), keep, l)
      ensures code == if open then 0 else -1
    {
      if !open {
        return -1;
      }
      if |l| <= keep {
        return 0;
      }
      var i := keep;
      while i < |l|
        invariant keep <= i <= |l|
        invariant DropFrom(Now(), l, i) == old(DropFrom(Now(), l, keep))
      {
        RemoveBackup(l[i]);
        i := i + 1;
      }
      return 0;
    }

    /** backup_restore into a directory showing target.  A backup without a row, or a command that does
        not start, leaves the directory alone.  A transfer that fails leaves a mixture of old and restored
        files.  One that succeeds reproduces every file of the backup exactly when the quick check is
        honest about what was there, keeps the other files, and makes an empty directory the backup. */
    method RestoreBackup(id: nat, ghost target: Tree, t: Transfer) returns (code: int, ghost tree: Tree)
      requires Good(Now())
      ensures code == if open && HasId(rows, id) && t.Ran? && t.ok then 0 else -1
      ensures BackupRuns.Restored(code, tree) == BackupRuns.Restore(Now(), id, target, t)
      ensures !open || !HasId(rows, id) || t.NotStarted? ==> code == -1 && tree == target
      ensures open && HasId(rows, id) && t.Ran? ==>
                var view := View(store, BackupRuns.RowOf(rows, id).dir);
                && target.Keys <= tree.Keys
                && (forall q :: q in tree ==> BackupRuns.Either(tree[q], q, view, target))
                && (code == 0 ==> BackupRuns.Reproduces(tree, view, target))
    {
      tree := target;
      if !open || !HasId(rows, id) {
        return -1, target;
      }
      if t.NotStarted? {
        return -1, target;
      }
      BackupRuns.RestoreMeans(Now(), id, target, t);
      ghost var src := View(store, BackupRuns.RowOf(rows, id).dir);
      if t.ok {
        tree := Overlay(src, target);
        code := 0;
      } else {
        tree := Overlay(map q | q in src && q in t.partial :: src[q], target);
        code := -1;
      }
    }
  }

  // ---------- backup of a snapshot ----------

  datatype Command =
    | Lvcreate(snap: string) | Mount(snap: string, point: string)
    | Umount(point: string) | Lvremove(snap: string)

  /** Successful commands replayed against a stack: a removal must undo the latest step not undone. */
  function Replay(t: seq<Command>): Option<seq<Command>> {
    if t == [] then Some([]) else
      match Replay(t[..|t| - 1])
      case None => None
      case Some(stack) => Stacked(stack, t[|t| - 1])
  }

  function Stacked(stack: seq<Command>, c: Command): Option<seq<Command>> {
    match c
    case Lvcreate(_) => Some(stack + [c])
    case Mount(_, _) => Some(stack + [c])
    case Umount(point) =>
      if stack != [] && stack[|stack| - 1].Mount? && stack[|stack| - 1].point == point
      then Some(stack[..|stack| - 1]) else None
    case Lvremove(snap) =>
      if stack != [] && stack[|stack| - 1] == Lvcreate(snap) then Some(stack[..|stack| - 1]) else None
  }

  lemma ReplaySnoc(t: seq<Command>, c: Command)
    requires Replay(t).Some?
    ensures Replay(t + [c]) == Stacked(Replay(t).value, c)
  {
    assert (t + [c])[..|t|] == t && (t + [c])[|t|] == c;
  }

  /** So in a sequence that can be replayed every removal has its creation and every unmount its mount
      before it, and what is left on the stack are exactly those without. */
  lemma {:induction false} UndoneAreMatched(t: seq<Command>, snap: string, point: string)
    requires Replay(t).Some?
    ensures Lvcreates(t, snap) == Lvremoves(t, snap) + Lvcreates(Replay(t).value, snap)
    ensures Mounts(t, point) == Umounts(t, point) + Mounts(Replay(t).value, point)
  {
    if t == [] {
    } else {
      var stack, c := Replay(t[..|t| - 1]).value, t[|t| - 1];
      UndoneAreMatched(t[..|t| - 1], snap, point);
      if c.Lvcreate? || c.Mount? {
        assert (stack + [c])[..|stack|] == stack;
      }
    }
  }

  function Lvcreates(t: seq<Command>, snap: string): nat {
    if t == [] then 0 else Lvcreates(t[..|t| - 1], snap) + if t[|t| - 1] == Lvcreate(snap) then 1 else 0
  }

  function Lvremoves(t: seq<Command>, snap: string): nat {
    if t == [] then 0 else Lvremoves(t[..|t| - 1], snap) + if t[|t| - 1] == Lvremove(snap) then 1 else 0
  }

  function Mounts(t: seq<Command>, point: string): nat {
    if t == [] then 0
    else Mounts(t[..|t| - 1], point) + if t[|t| - 1].Mount? && t[|t| - 1].point == point then 1 else 0
  }

  function Umounts(t: seq<Command>, point: string): nat {
    if t == [] then 0 else Umounts(t[..|t| - 1], point) + if t[|t| - 1] == Umount(point) then 1 else 0
  }

  datatype Mounting = Mounting(point: string, snap: string)

  ghost predicate AllExist(ms: seq<Mounting>, snapshots: set<string>) {
    forall i :: 0 <= i < |ms| ==> ms[i].snap in snapshots
  }

  predicate IsMounted(ms: seq<Mounting>, snap: string) {
    exists i :: 0 <= i < |ms| && ms[i].snap == snap
  }

  /** umount takes away the latest mount on the point. */
  function Unmounted(ms: seq<Mounting>, point: string): seq<Mounting> {
    if ms == [] then []
    else if ms[|ms| - 1].point == point then ms[..|ms| - 1]
    else Unmounted(ms[..|ms| - 1], point) + [ms[|ms| - 1]]
  }

  lemma {:induction false} UnmountedExist(ms: seq<Mounting>, point: string, snapshots: set<string>)
    requires AllExist(ms, snapshots)
    ensures AllExist(Unmounted(ms, point), snapshots)
  {
    if ms == [] {
    } else {
      UnmountedExist(ms[..|ms| - 1], point, snapshots);
    }
  }

  lemma MountedLast(ms: seq<Mounting>, point: string, snap: string)
    ensures Unmounted(ms + [Mounting(point, snap)], point) == ms
    ensures IsMounted(ms + [Mounting(point, snap)], snap) && ms + [Mounting(point, snap)] != ms
  {
    var all := ms + [Mounting(point, snap)];
    assert all[..|ms|] == ms && all[|ms|].snap == snap;
  }

  /** The exit statuses the four commands would have. */
  datatype Statuses = Statuses(create: bool, mount: bool, umount: bool, remove: bool)

  class SnapshotHost {
    const engine: Engine
    var snapshots: set<string>
    var mounts: seq<Mounting>     // oldest first; a later one hides an earlier one on the same point
    ghost var done: seq<Command>  // successful commands

    constructor (engine: Engine)
      ensures this.engine == engine && snapshots == {} && mounts == [] && done == []
    {
      this.engine := engine;
      snapshots, mounts, done := {}, [], [];
    }

    /** A mounted snapshot exists, and the commands so far are in bracket order. */
    ghost predicate Valid()
      reads this
    {
      AllExist(mounts, snapshots) && Replay(done).Some?
    }

    /** Steps not undone yet. */
    ghost function Pending(): seq<Command>
      reads this
      requires Valid()
    {
      Replay(done).value
    }

    /** lvcreate refuses a name that is taken. */
    method CreateSnapshot(snap: string, ok: bool) returns (created: bool)
      requires Valid()
      modifies this`snapshots, this`done
      ensures Valid() && created == (ok && snap !in old(snapshots))
      ensures snapshots == old(snapshots) + if created then {snap} else {}
      ensures Pending() == old(Pending()) + if created then [Lvcreate(snap)] else []
    {
      created := ok && snap !in snapshots;
      if created {
        snapshots := snapshots + {snap};
        ReplaySnoc(done, Lvcreate(snap));
        done := done + [Lvcreate(snap)];
      }
    }

    method MountSnapshot(snap: string, point: string, ok: bool) returns (mounted: bool)
      requires Valid() && snap in snapshots
      modifies this`mounts, this`done
      ensures Valid() && mounted == ok
      ensures mounts == old(mounts) + if ok then [Mounting(point, snap)] else []
      ensures Pending() == old(Pending()) + if ok then [Mount(snap, point)] else []
    {
      mounted := ok;
      if mounted {
        mounts := mounts + [Mounting(point, snap)];
        ReplaySnoc(done, Mount(snap, point));
        done := done + [Mount(snap, point)];
      }
    }

    method UnmountSnapshot(ghost snap: string, point: string, ok: bool, ghost before: seq<Command>)
      returns (unmounted: bool)
      requires Valid() && Pending() == before + [Mount(snap, point)]
      modifies this`mounts, this`done
      ensures Valid() && unmounted == ok && mounts == if ok then Unmounted(old(mounts), point) else old(mounts)
      ensures Pending() == if ok then before else old(Pending())
    {
      unmounted := ok;
      if unmounted {
        UnmountedExist(mounts, point, snapshots);
        mounts := Unmounted(mounts, point);
        ReplaySnoc(done, Umount(point));
        assert (before + [Mount(snap, point)])[..|before|] == before;
        done := done + [Umount(point)];
      }
    }

    /** lvremove refuses a snapshot that is still mounted. */
    method RemoveSnapshot(snap: string, ok: bool, ghost before: seq<Command>) returns (removed: bool)
      requires Valid() && (!IsMounted(mounts, snap) ==> Pending() == before + [Lvcreate(snap)])
      modifies this`snapshots, this`done
      ensures Valid() && removed == (ok && !IsMounted(mounts, snap))
      ensures snapshots == old(snapshots) - if removed then {snap} else {}
      ensures Pending() == if removed then before else old(Pending())
    {
      removed := ok && !IsMounted(mounts, snap);
      if removed {
        snapshots := snapshots - {snap};
        ReplaySnoc(done, Lvremove(snap));
        assert (before + [Lvcreate(snap)])[..|before|] == before;
        done := done + [Lvremove(snap)];
      }
    }

    /** backup_create_with_snapshot.  The mount point carries the current second, so a call may mount over
        what an earlier one failed to unmount.  The source of the inner backup is what the mounted
        snapshot shows. */
    method CreateWithSnapshot(snap: string, point: string, st: Statuses, r: Request, l: seq<Row>)
      returns (code: int)
      requires Valid() && Allocates(engine.Now(), r)
      modifies this, engine
      // bracket order on every path, and exactly when this call leaves something behind
      ensures Valid()
      ensures var created := st.create && snap !in old(snapshots);
              var mounted := created && st.mount;
              var undone := created ==> st.remove && (mounted ==> st.umount);
              && (Pending() == old(Pending()) <==> undone)
              && (snapshots == old(snapshots) <==> undone)
              && (mounts == old(mounts) <==> (mounted ==> st.umount))
              // once mounted, the outcome is that of the inner backup
              && (mounted ==> engine.Now() == Create(old(engine.Now()), r, l))
              && (mounted ==> code == if r.transfer.Ran? && r.transfer.ok then 0 else -1)
              && (!mounted ==> code == -1 && engine.Now() == old(engine.Now()))
    {
      ghost var before := Pending();
      var created := CreateSnapshot(snap, st.create);
      if !created {
        return -1;
      }
      var mounted := MountSnapshot(snap, point, st.mount);
      if !mounted {
        var _ := RemoveSnapshot(snap, st.remove, before);
        return -1;
      }
      MountedLast(old(mounts), point, snap);
      code := engine.CreateBackup(r, l);
      var _ := UnmountSnapshot(snap, point, st.umount, before + [Lvcreate(snap)]);
      var _ := RemoveSnapshot(snap, st.remove, before);
    }
  }
}
