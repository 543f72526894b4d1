/** Any sequence of pulls, pauses and removals of models on one volume. */
module ModelRuns {
  import opened Bytes
  import opened Models

  const EMPTY := Shelf(map[], map[], map[])

  /** `states` are what the operations `ops` make of an empty volume, one by one. */
  ghost predicate IsRun(h: Hashing, m: Manifest, ops: seq<Op>, states: seq<Shelf>) {
    && |states| == |ops| + 1 && states[0] == EMPTY
    && forall i :: 0 <= i < |ops| ==> Does(h, m, states[i], ops[i], states[i + 1])
  }

  /** The models whose removal stopped part way and that were not pulled or removed
      since. */
  function HalfRemoved(ops: seq<Op>): set<string> {
    if ops == [] then {}
    else
      var before, last := HalfRemoved(ops[..|ops| - 1]), ops[|ops| - 1];
      match last
      case RemoveOf(name, ok) => if ok then before - {name} else before + {name}
      case ClaimOf(name, ok) => if ok then before - {name} else before
      case PullOf(name, ok) => if ok then before - {name} else before
      case PauseOf(_, _) => before
  }

  /** What holds of a volume all the time. */
  ghost predicate Sound(h: Hashing, m: Manifest, s: Shelf, but: set<string>) {
    Genuine(h, m, s.disk, s.table) && InstalledLoads(m, s.installs, s.disk, s.table, but)
  }

  /** Whatever an install changed, files that passed the load gate still do, and what
      passes it is what was pinned. */
  lemma InstallKeepsSound(h: Hashing, m: Manifest, e: Entry, disk: Disk, table: Table, disk': Disk, table': Table)
    requires CollisionFree(h) && OneDigest(Pinned(m)) && e in m && Genuine(h, m, disk, table)
    requires Installs(h, e, disk, table, disk', table')
    ensures Keeps(m, disk, table, disk', table') && Genuine(h, m, disk', table')
  {
    forall g | g in Pinned(m) && FileOk(disk, table, g) ensures FileOk(disk', table', g) {
      PlacedSame(h, m, e, disk, disk', g);
      RecordedSame(h, m, e, disk', table, table', g);
    }
    forall g | g in Pinned(m) && FileOk(disk', table', g) ensures HasPin(h, g, disk'[g.path]) {
      PassesGenuine(h, m, e, disk, table, disk', table', g);
    }
  }

  lemma PlacedSame(h: Hashing, m: Manifest, e: Entry, disk: Disk, disk': Disk, g: File)
    requires CollisionFree(h) && OneDigest(Pinned(m)) && e in m && OnlyPlaces(h, e, disk, disk')
    requires g in Pinned(m) && g.path in disk && HasPin(h, g, disk[g.path])
    ensures g.path in disk' && disk'[g.path] == disk[g.path]
  {
    forall f | f in e.files && f.path == g.path && HasPin(h, f, disk'[g.path]) ensures disk'[g.path] == disk[g.path] {
      assert f in Pinned(m);
      SameContent(h, m, f, g, disk'[g.path], disk[g.path]);
    }
  }

  lemma RecordedSame(h: Hashing, m: Manifest, e: Entry, disk: Disk, table: Table, table': Table, g: File)
    requires CollisionFree(h) && OneDigest(Pinned(m)) && e in m && OnlyRecords(h, e, disk, table, table')
    requires g in Pinned(m) && g.path in disk && HasPin(h, g, disk[g.path])
    requires g.path in table && table[g.path] == Row(g.pin, g.size)
    ensures g.path in table' && table'[g.path] == table[g.path]
  {
    forall f | f in e.files && f.path == g.path && HasPin(h, f, disk[g.path]) ensures Row(f.pin, f.size) == table[g.path] {
      assert f in Pinned(m);
      SameContent(h, m, f, g, disk[g.path], disk[g.path]);
    }
    assert table'[g.path] != table[g.path] ==> IsRecord(h, e, disk, g.path, table'[g.path]);
  }

  lemma PassesGenuine(h: Hashing, m: Manifest, e: Entry, disk: Disk, table: Table, disk': Disk, table': Table, g: File)
    requires CollisionFree(h) && OneDigest(Pinned(m)) && e in m && Genuine(h, m, disk, table)
    requires Installs(h, e, disk, table, disk', table') && g in Pinned(m) && FileOk(disk', table', g)
    ensures HasPin(h, g, disk'[g.path])
  {
    if g.path !in table || table'[g.path] != table[g.path] {
      assert IsRecord(h, e, disk', g.path, table'[g.path]);
    } else if g.path in disk && disk'[g.path] == disk[g.path] {
      assert FileOk(disk, table, g);
    } else {
      var f :| f in e.files && f.path == g.path && HasPin(h, f, disk'[g.path]);
      assert f in Pinned(m) && f.pin == g.pin;
    }
  }

  /** Only `name` changes what it is recorded as. */
  lemma StatusKeepsSound(h: Hashing, m: Manifest, s: Shelf, but: set<string>, name: string, status: InstallStatus)
    requires Sound(h, m, s, but) && !status.Installed?
    ensures Sound(h, m, s.(installs := s.installs[name := status]), but - {name})
  {
    forall n | n in s.installs && n != name && n !in but && InstalledEntry(m, s.installs, n).Some?
      ensures CheckOk(s.disk, s.table, InstalledEntry(m, s.installs, n).value)
    {
    }
  }

  lemma PullKeepsSound(h: Hashing, m: Manifest, s: Shelf, but: set<string>, e: Entry, ok: bool, next: Shelf)
    requires CollisionFree(h) && OneDigest(Pinned(m)) && Sound(h, m, s, but) && Get(m, e.name) == Some(e) && e in m
    requires Pulls(h, e, s, ok, next)
    ensures Sound(h, m, next, if ok then but - {e.name} else but)
  {
    InstallKeepsSound(h, m, e, s.disk, s.table, next.disk, next.table);
    InstallKeepsInstalled(m, s.installs, s.disk, s.table, next.disk, next.table, but);
  }

  lemma RemoveKeepsSound(h: Hashing, m: Manifest, s: Shelf, but: set<string>, e: Entry, ok: bool, next: Shelf)
    requires Sound(h, m, s, but) && Removes(m, e, s, ok, next)
    ensures Sound(h, m, next, if ok then but - {e.name} else but + {e.name})
  {
    var upTo, gone, rows :| RemovesUpTo(m, e, s, ok, next, upTo, gone, rows);
    OwnPathsInside(e.files, SharedPaths(m, s.installs, e.name), upTo);
    RemovalKeepsInstalled(m, s.installs, s.disk, s.table, e.name, next.disk, next.table, but);
  }

  lemma StepKeepsSound(h: Hashing, m: Manifest, s: Shelf, ops: seq<Op>, op: Op, next: Shelf)
    requires CollisionFree(h) && OneDigest(Pinned(m)) && Sound(h, m, s, HalfRemoved(ops)) && Does(h, m, s, op, next)
    ensures Sound(h, m, next, HalfRemoved(ops + [op]))
  {
    assert (ops + [op])[..|ops|] == ops;
    GetFinds(m, op.name);
    match op
    case ClaimOf(name, ok) =>
      if ok { StatusKeepsSound(h, m, s, HalfRemoved(ops), name, Downloading); }
    case PauseOf(name, ok) =>
      if ok { StatusKeepsSound(h, m, s, HalfRemoved(ops), name, Paused); }
    case PullOf(name, ok) =>
      if Get(m, name).Some? { PullKeepsSound(h, m, s, HalfRemoved(ops), Get(m, name).value, ok, next); }
    case RemoveOf(name, ok) =>
      if Get(m, name).Some? { RemoveKeepsSound(h, m, s, HalfRemoved(ops), Get(m, name).value, ok, next); }
  }

  /** After every sequence of claims, pauses, pulls and removals, each of which may
      fail anywhere, all that passes the load gate is what was pinned, and every model
      recorded as installed passes it but those whose removal stopped. */
  lemma {:induction false} EveryRunIsSound(h: Hashing, m: Manifest, ops: seq<Op>, states: seq<Shelf>)
    requires CollisionFree(h) && OneDigest(Pinned(m)) && IsRun(h, m, ops, states)
    ensures Sound(h, m, states[|ops|], HalfRemoved(ops))
    decreases |ops|
  {
    if ops != [] {
      var n := |ops| - 1;
      EveryRunIsSound(h, m, ops[..n], states[..|ops|]);
      StepKeepsSound(h, m, states[n], ops[..n], ops[n], states[|ops|]);
      assert ops[..n] + [ops[n]] == ops;
    }
  }

  /** So an installed model is on disk, every file with the content it is pinned to
      and the licences allowed. */
  lemma InstalledIsPinned(h: Hashing, m: Manifest, ops: seq<Op>, states: seq<Shelf>, name: string)
    requires CollisionFree(h) && OneDigest(Pinned(m)) && IsRun(h, m, ops, states) && name !in HalfRemoved(ops)
    requires InstalledEntry(m, states[|ops|].installs, name).Some?
    ensures var e, disk := InstalledEntry(m, states[|ops|].installs, name).value, states[|ops|].disk;
            Gate(e) && forall f :: f in e.files ==> f.path in disk && HasPin(h, f, disk[f.path])
  {
    EveryRunIsSound(h, m, ops, states);
    GetFinds(m, name);
    var s := states[|ops|];
    var e := InstalledEntry(m, s.installs, name).value;
    assert forall f :: f in e.files ==> f in Pinned(m);
    assert forall f :: f in e.files ==> FileOk(s.disk, s.table, f);
  }
}
