/** Installing models: resumable downloads into a volume shared by all models,
    with a table of the files that were verified against their pins. Any
    file-system, database or network operation may fail at any time, and a server
    may answer anything. */
module Models {
  import opened Bytes

  type Content = seq<byte>

  /** A pinned digest: the sha256 of the content, or its git blob id. */
  datatype Pin = Sha256(hex: string) | GitBlob(hex: string)

  datatype Licence = Licence(spdx: string, url: string)

  datatype File = File(path: string, pin: Pin, size: int, licence: Option<Licence>)

  datatype Entry = Entry(name: string, licence: Licence, files: seq<File>)

  type Manifest = seq<Entry>

  /** A row of the table of verified files. */
  datatype Row = Row(pin: Pin, size: int)

  datatype InstallStatus = Downloading | Paused | Installed | Failed

  // ---- Digests -------------------------------------------------------------

  /** The two digests; a git blob id also covers the pinned size. */
  datatype Hashing = Hashing(sha256: Content -> string, gitBlob: (int, Content) -> string)

  ghost predicate CollisionFree(h: Hashing) {
    && (forall a, b :: h.sha256(a) == h.sha256(b) ==> a == b)
    && (forall s, a, t, b :: h.gitBlob(s, a) == h.gitBlob(t, b) ==> a == b)
  }

  /** The digest of `content`, computed the way `f` is pinned. */
  function Sum(h: Hashing, f: File, content: Content): Pin {
    match f.pin
    case Sha256(_) => Sha256(h.sha256(content))
    case GitBlob(_) => GitBlob(h.gitBlob(f.size, content))
  }

  predicate HasPin(h: Hashing, f: File, content: Content) {
    |content| == f.size && Sum(h, f, content) == f.pin
  }

  // ---- Licence gate --------------------------------------------------------

  const ALLOWED_LICENCES: set<string> := {"Apache-2.0", "MIT", "BSD-2-Clause", "BSD-3-Clause"}

  predicate LicenceOk(l: Licence) {
    l.spdx in ALLOWED_LICENCES && l.url != ""
  }

  predicate Gate(e: Entry) {
    LicenceOk(e.licence) && forall f :: f in e.files && f.licence.Some? ==> LicenceOk(f.licence.value)
  }

  // ---- Manifest ------------------------------------------------------------

  function Get(m: Manifest, name: string): Option<Entry> {
    if m == [] then None else if m[0].name == name then Some(m[0]) else Get(m[1..], name)
  }

  lemma {:induction false} GetFinds(m: Manifest, name: string)
    ensures Get(m, name).Some? ==> Get(m, name).value in m && Get(m, name).value.name == name
  {
    if m != [] { GetFinds(m[1..], name); }
  }

  ghost function Pinned(m: Manifest): set<File> {
    set e, f | e in m && f in e.files :: f
  }

  ghost predicate OneDigest(files: set<File>) {
    forall f, g :: f in files && g in files && f.path == g.path ==> f.pin == g.pin
  }

  ghost predicate DistinctNames(m: Manifest) {
    forall i, j :: 0 <= i < j < |m| ==> m[i].name != m[j].name
  }

  datatype LintError = DuplicateName(entry: nat) | TwoDigests(entry: nat, file: nat)

  /** The digest the last of `files` at `path` is pinned to. */
  function LastPin(files: seq<File>, path: string): Option<Pin> {
    if files == [] then None
    else if files[|files| - 1].path == path then Some(files[|files| - 1].pin)
    else LastPin(files[..|files| - 1], path)
  }

  /** `f` is pinned to another digest than the file before it at its path. */
  predicate Clashes(before: seq<File>, f: File) {
    LastPin(before, f.path).Some? && LastPin(before, f.path).value != f.pin
  }

  ghost function FileSet(files: seq<File>): set<File> {
    set f | f in files
  }

  /** All files of the entries, in order. */
  function FilesOf(m: Manifest): seq<File> {
    if m == [] then [] else FilesOf(m[..|m| - 1]) + m[|m| - 1].files
  }

  /** The report is right about one entry: its name was taken, or a file of it clashes
      with the file before it at its path. */
  predicate Faulty(m: Manifest, err: LintError) {
    match err
    case DuplicateName(i) => i < |m| && NameTaken(m, i)
    case TwoDigests(i, j) => i < |m| && ClashesAt(FilesOf(m[..i]), m[i].files, j)
  }

  predicate NameTaken(m: Manifest, i: nat)
    requires i < |m|
  {
    exists k :: 0 <= k < i && m[k].name == m[i].name
  }

  predicate EntryClashes(m: Manifest, i: nat)
    requires i < |m|
  {
    exists j: nat :: j < |m[i].files| && ClashesAt(FilesOf(m[..i]), m[i].files, j)
  }

  /** Of `files`, which come after `prior`, the one at `j` clashes. */
  predicate ClashesAt(prior: seq<File>, files: seq<File>, j: nat) {
    j < |files| && Clashes(prior + files[..j], files[j])
  }

  lemma {:induction false} LastPinIs(files: seq<File>, path: string)
    ensures match LastPin(files, path)
            case None => forall f :: f in files ==> f.path != path
            case Some(pin) => exists f :: f in files && f.path == path && f.pin == pin
  {
    if files != [] {
      var init, last := files[..|files| - 1], files[|files| - 1];
      LastPinIs(init, path);
      assert files == init + [last] && last in files;
    }
  }

  lemma OneDigestGrows(files: seq<File>, f: File)
    ensures OneDigest(FileSet(files + [f])) <==> OneDigest(FileSet(files)) && !Clashes(files, f)
  {
    LastPinIs(files, f.path);
    assert FileSet(files + [f]) == FileSet(files) + {f};
  }

  /** No file clashes exactly when every path has one digest. */
  lemma {:induction false} NoClashIff(prior: seq<File>, files: seq<File>, n: nat)
    requires n <= |files|
    ensures OneDigest(FileSet(prior + files[..n]))
            <==> OneDigest(FileSet(prior)) && forall j: nat :: j < n ==> !ClashesAt(prior, files, j)
  {
    if n == 0 {
      assert prior + files[..0] == prior;
    } else {
      NoClashIff(prior, files, n - 1);
      OneDigestGrows(prior + files[..n - 1], files[n - 1]);
      assert prior + files[..n - 1] + [files[n - 1]] == prior + files[..n];
      assert ClashesAt(prior, files, n - 1) <==> Clashes(prior + files[..n - 1], files[n - 1]);
    }
  }

  lemma FilesGrow(m: Manifest, i: nat)
    requires i < |m|
    ensures FilesOf(m[..i + 1]) == FilesOf(m[..i]) + m[i].files
  {
    assert m[..i + 1][..i] == m[..i];
  }

  lemma PinnedGrows(m: Manifest, i: nat)
    requires i < |m|
    ensures Pinned(m[..i + 1]) == Pinned(m[..i]) + FileSet(m[i].files)
  {
    assert m[..i + 1] == m[..i] + [m[i]];
  }

  lemma {:induction false} FilesArePinned(m: Manifest, n: nat)
    requires n <= |m|
    ensures FileSet(FilesOf(m[..n])) == Pinned(m[..n])
  {
    if n > 0 {
      FilesArePinned(m, n - 1);
      FilesGrow(m, n - 1);
      PinnedGrows(m, n - 1);
      assert FileSet(FilesOf(m[..n - 1]) + m[n - 1].files) == FileSet(FilesOf(m[..n - 1])) + FileSet(m[n - 1].files);
    }
  }

  lemma {:induction false} NoFaultIff(m: Manifest, n: nat)
    requires n <= |m|
    ensures OneDigest(FileSet(FilesOf(m[..n]))) <==> forall i: nat :: i < n ==> !EntryClashes(m, i)
  {
    if n > 0 {
      var prior, files := FilesOf(m[..n - 1]), m[n - 1].files;
      NoFaultIff(m, n - 1);
      FilesGrow(m, n - 1);
      NoClashIff(prior, files, |files|);
      assert files[..|files|] == files;
      assert EntryClashes(m, n - 1) <==> exists j: nat :: j < |files| && ClashesAt(prior, files, j);
    }
  }

  /** Nothing is at fault exactly when names are distinct and every path has one
      digest in all entries. */
  lemma FaultlessIff(m: Manifest)
    ensures (forall err :: !Faulty(m, err)) <==> DistinctNames(m) && OneDigest(Pinned(m))
  {
    NoFaultIff(m, |m|);
    FilesArePinned(m, |m|);
    assert m[..|m|] == m;
    if err :| Faulty(m, err) {
      match err {
        case DuplicateName(i) =>
          assert !DistinctNames(m);
        case TwoDigests(i, j) =>
          assert EntryClashes(m, i);
      }
    }
    if i: nat :| i < |m| && EntryClashes(m, i) {
      var j: nat :| j < |m[i].files| && ClashesAt(FilesOf(m[..i]), m[i].files, j);
      assert Faulty(m, TwoDigests(i, j));
    }
    if i, j :| 0 <= i < j < |m| && m[i].name == m[j].name {
      assert Faulty(m, DuplicateName(j));
    }
  }

  ghost predicate Remembers(pathPin: map<string, Pin>, files: seq<File>) {
    forall p :: LastPin(files, p) == if p in pathPin then Some(pathPin[p]) else None
  }

  lemma RememberOne(pathPin: map<string, Pin>, prior: seq<File>, files: seq<File>, j: nat)
    requires j < |files| && Remembers(pathPin, prior + files[..j])
    ensures Remembers(pathPin[files[j].path := files[j].pin], prior + files[..j + 1])
    ensures ClashesAt(prior, files, j) <==> files[j].path in pathPin && pathPin[files[j].path] != files[j].pin
  {
    assert (prior + files[..j + 1])[..|prior| + j] == prior + files[..j];
  }

  /** The clashes among the first `n` of `files`. */
  ghost predicate Reported(errs: seq<LintError>, entry: nat, prior: seq<File>, files: seq<File>, n: nat) {
    forall err :: err in errs <==> err.TwoDigests? && err.entry == entry && err.file < n && ClashesAt(prior, files, err.file)
  }

  /** The linter's loop over the files of one entry. */
  method LintFiles(e: Entry, entry: nat, known: map<string, Pin>, ghost prior: seq<File>)
    returns (errs: seq<LintError>, pathPin: map<string, Pin>)
    requires Remembers(known, prior)
    ensures Remembers(pathPin, prior + e.files) && Reported(errs, entry, prior, e.files, |e.files|)
    ensures OneDigest(FileSet(prior + e.files)) <==> OneDigest(FileSet(prior)) && errs == []
  {
    errs, pathPin := [], known;
    assert prior + e.files[..0] == prior;
    for j := 0 to |e.files|
      invariant Remembers(pathPin, prior + e.files[..j]) && Reported(errs, entry, prior, e.files, j)
    {
      RememberOne(pathPin, prior, e.files, j);
      if e.files[j].path in pathPin && pathPin[e.files[j].path] != e.files[j].pin {
        errs := errs + [TwoDigests(entry, j)];
      }
      pathPin := pathPin[e.files[j].path := e.files[j].pin];
    }
    assert e.files[..|e.files|] == e.files;
    NoClashIff(prior, e.files, |e.files|);
    assert errs != [] ==> errs[0] in errs;
    assert forall j: nat :: j < |e.files| && ClashesAt(prior, e.files, j) ==> TwoDigests(entry, j) in errs;
  }

  ghost predicate SeenNames(seen: set<string>, m: Manifest, i: nat)
    requires i <= |m|
  {
    forall n :: n in seen <==> exists k :: 0 <= k < i && m[k].name == n
  }

  lemma NamesGrow(m: Manifest, i: nat, seen: set<string>)
    requires i < |m| && SeenNames(seen, m, i)
    ensures NameTaken(m, i) <==> m[i].name in seen
    ensures SeenNames(seen + {m[i].name}, m, i + 1)
  {
    forall n | n in seen ensures exists k :: 0 <= k < i + 1 && m[k].name == n {
      var k :| 0 <= k < i && m[k].name == n;
      assert 0 <= k < i + 1;
    }
  }

  /** The linter on one entry, after the entries before it. */
  method LintEntry(m: Manifest, i: nat, known: set<string>, paths: map<string, Pin>)
    returns (errs: seq<LintError>, seen: set<string>, pathPin: map<string, Pin>)
    requires i < |m| && SeenNames(known, m, i) && Remembers(paths, FilesOf(m[..i]))
    ensures SeenNames(seen, m, i + 1) && Remembers(pathPin, FilesOf(m[..i + 1]))
    ensures forall err :: err in errs <==> err.entry == i && Faulty(m, err)
  {
    NamesGrow(m, i, known);
    FilesGrow(m, i);
    errs, pathPin := LintFiles(m[i], i, paths, FilesOf(m[..i]));
    if m[i].name in known {
      errs := [DuplicateName(i)] + errs;
    }
    seen := known + {m[i].name};
  }

  /** The linter's loop over names and paths reports every name that was taken and every
      file that clashes with the one before it at its path, and nothing else; that is
      nothing exactly when names are distinct and every path has one digest. */
  method Lint(m: Manifest) returns (errs: seq<LintError>)
    ensures forall err :: err in errs <==> Faulty(m, err)
    ensures errs == [] <==> DistinctNames(m) && OneDigest(Pinned(m))
  {
    errs := [];
    var seen: set<string> := {};
    var pathPin: map<string, Pin> := map[];
    for i := 0 to |m|
      invariant SeenNames(seen, m, i) && Remembers(pathPin, FilesOf(m[..i]))
      invariant forall err :: err in errs <==> err.entry < i && Faulty(m, err)
    {
      var more;
      more, seen, pathPin := LintEntry(m, i, seen, pathPin);
      errs := errs + more;
    }
    FaultlessIff(m);
    assert errs != [] ==> errs[0] in errs;
  }

  // ---- What is verified ----------------------------------------------------

  type Disk = map<string, Content>

  type Table = map<string, Row>

  predicate FileOk(disk: Disk, table: Table, f: File) {
    && f.path in table && table[f.path] == Row(f.pin, f.size)
    && f.path in disk && |disk[f.path]| == f.size
  }

  predicate CheckOk(disk: Disk, table: Table, e: Entry) {
    Gate(e) && forall f :: f in e.files ==> FileOk(disk, table, f)
  }

  /** What passes the load gate is what was pinned: a recorded file of the recorded
      size has the pinned digest. */
  ghost predicate Genuine(h: Hashing, m: Manifest, disk: Disk, table: Table) {
    forall f :: f in Pinned(m) && FileOk(disk, table, f) ==> HasPin(h, f, disk[f.path])
  }

  /** Every file of the manifest that passes the load gate before does so after. */
  ghost predicate Keeps(m: Manifest, disk: Disk, table: Table, disk': Disk, table': Table) {
    forall f :: f in Pinned(m) && FileOk(disk, table, f) ==> FileOk(disk', table', f)
  }

  lemma KeepsTransitive(m: Manifest, d0: Disk, t0: Table, d1: Disk, t1: Table, d2: Disk, t2: Table)
    requires Keeps(m, d0, t0, d1, t1) && Keeps(m, d1, t1, d2, t2)
    ensures Keeps(m, d0, t0, d2, t2)
  {
  }

  /** Two files at one path of a linted manifest with the same content agree in
      everything the table records. */
  lemma SameContent(h: Hashing, m: Manifest, f: File, g: File, a: Content, b: Content)
    requires CollisionFree(h) && OneDigest(Pinned(m)) && f in Pinned(m) && g in Pinned(m) && f.path == g.path
    requires HasPin(h, f, a) && HasPin(h, g, b)
    ensures a == b && f.size == g.size && f.pin == g.pin
  {
  }

  /** Putting pinned content in place breaks no other entry's files. */
  lemma PlaceKeeps(h: Hashing, m: Manifest, disk: Disk, table: Table, f: File, content: Content)
    requires CollisionFree(h) && OneDigest(Pinned(m)) && f in Pinned(m) && HasPin(h, f, content)
    requires Genuine(h, m, disk, table)
    ensures Keeps(m, disk, table, disk[f.path := content], table)
    ensures Genuine(h, m, disk[f.path := content], table)
  {
    var next := disk[f.path := content];
    forall g | g in Pinned(m) && FileOk(disk, table, g) ensures FileOk(next, table, g) {
      if g.path == f.path { SameContent(h, m, f, g, content, disk[g.path]); }
    }
    forall g | g in Pinned(m) && FileOk(next, table, g) ensures HasPin(h, g, next[g.path]) {
      if g.path == f.path {
        assert g.pin == f.pin && g.size == f.size;
      } else {
        assert FileOk(disk, table, g);
      }
    }
  }

  /** Recording a file whose content was checked breaks no other entry's files. */
  lemma RecordKeeps(h: Hashing, m: Manifest, disk: Disk, table: Table, f: File)
    requires CollisionFree(h) && OneDigest(Pinned(m)) && f in Pinned(m)
    requires f.path in disk && HasPin(h, f, disk[f.path]) && Genuine(h, m, disk, table)
    ensures Keeps(m, disk, table, disk, table[f.path := Row(f.pin, f.size)])
    ensures Genuine(h, m, disk, table[f.path := Row(f.pin, f.size)])
    ensures FileOk(disk, table[f.path := Row(f.pin, f.size)], f)
  {
    var next := table[f.path := Row(f.pin, f.size)];
    forall g | g in Pinned(m) && FileOk(disk, table, g) ensures FileOk(disk, next, g) {
      if g.path == f.path { SameContent(h, m, f, g, disk[f.path], disk[f.path]); }
    }
    forall g | g in Pinned(m) && FileOk(disk, next, g) ensures HasPin(h, g, disk[g.path]) {
      if g.path == f.path {
        assert g.pin == f.pin && g.size == f.size;
      } else {
        assert FileOk(disk, table, g);
      }
    }
  }

  /** An edit that keeps every pinned file keeps every model loadable. */
  lemma KeepsChecks(m: Manifest, disk: Disk, table: Table, disk': Disk, table': Table, o: Entry)
    requires Keeps(m, disk, table, disk', table') && o in m && CheckOk(disk, table, o)
    ensures CheckOk(disk', table', o)
  {
    assert forall f :: f in o.files ==> f in Pinned(m);
  }

  /** Everything new in place is a file of `e` with its pinned content. */
  ghost predicate OnlyPlaces(h: Hashing, e: Entry, was: Disk, now: Disk) {
    && was.Keys <= now.Keys
    && forall p :: p in now && (p !in was || now[p] != was[p]) ==> exists f :: f in e.files && f.path == p && HasPin(h, f, now[p])
  }

  lemma OnlyPlacesOneMore(h: Hashing, e: Entry, was: Disk, mid: Disk, now: Disk, f: File)
    requires OnlyPlaces(h, e, was, mid) && f in e.files
    requires now == mid || (f.path in now && now == mid[f.path := now[f.path]] && HasPin(h, f, now[f.path]))
    ensures OnlyPlaces(h, e, was, now)
  {
    forall p | p in now && (p !in was || now[p] != was[p]) ensures exists g :: g in e.files && g.path == p && HasPin(h, g, now[p]) {
      if now != mid && p == f.path {
        assert f in e.files && f.path == p && HasPin(h, f, now[p]);
      }
    }
  }

  lemma OnlyPlacesTransitive(h: Hashing, e: Entry, was: Disk, mid: Disk, now: Disk)
    requires OnlyPlaces(h, e, was, mid) && OnlyPlaces(h, e, mid, now)
    ensures OnlyPlaces(h, e, was, now)
  {
    forall p | p in now && (p !in was || now[p] != was[p]) ensures exists g :: g in e.files && g.path == p && HasPin(h, g, now[p]) {
      if p in mid && mid[p] == now[p] {
        assert p !in was || mid[p] != was[p];
      }
    }
  }

  /** Everything new in the table is a file of `e` whose content on disk has the pin. */
  ghost predicate OnlyRecords(h: Hashing, e: Entry, disk: Disk, was: Table, now: Table) {
    && was.Keys <= now.Keys
    && forall p :: p in now && (p !in was || now[p] != was[p]) ==> IsRecord(h, e, disk, p, now[p])
  }

  ghost predicate IsRecord(h: Hashing, e: Entry, disk: Disk, path: string, row: Row) {
    exists f :: f in e.files && f.path == path && path in disk && HasPin(h, f, disk[path]) && row == Row(f.pin, f.size)
  }

  /** What an install may change, whether it succeeds or not. */
  ghost predicate Installs(h: Hashing, e: Entry, disk: Disk, table: Table, disk': Disk, table': Table) {
    OnlyPlaces(h, e, disk, disk') && OnlyRecords(h, e, disk', table, table')
  }

  /** A record stays right when other pinned content of `e` is put in place. */
  lemma RecordStays(h: Hashing, m: Manifest, e: Entry, disk: Disk, disk': Disk, path: string, row: Row)
    requires CollisionFree(h) && OneDigest(Pinned(m)) && e in m && OnlyPlaces(h, e, disk, disk')
    requires IsRecord(h, e, disk, path, row)
    ensures IsRecord(h, e, disk', path, row)
  {
    var f :| f in e.files && f.path == path && path in disk && HasPin(h, f, disk[path]) && row == Row(f.pin, f.size);
    if disk'[path] != disk[path] {
      var g :| g in e.files && g.path == path && HasPin(h, g, disk'[path]);
      assert f in Pinned(m) && g in Pinned(m);
      SameContent(h, m, f, g, disk[path], disk'[path]);
    }
  }

  lemma InstallsTransitive(h: Hashing, m: Manifest, e: Entry, d0: Disk, t0: Table, d1: Disk, t1: Table, d2: Disk, t2: Table)
    requires CollisionFree(h) && OneDigest(Pinned(m)) && e in m
    requires Installs(h, e, d0, t0, d1, t1) && Installs(h, e, d1, t1, d2, t2)
    ensures Installs(h, e, d0, t0, d2, t2)
  {
    OnlyPlacesTransitive(h, e, d0, d1, d2);
    forall p | p in t2 && (p !in t0 || t2[p] != t0[p]) ensures IsRecord(h, e, d2, p, t2[p]) {
      if p in t1 && t1[p] == t2[p] {
        RecordStays(h, m, e, d1, d2, p, t1[p]);
      }
    }
  }

  /** One file of `e` placed, recorded, both or neither. */
  lemma InstallsOne(h: Hashing, e: Entry, f: File, disk: Disk, table: Table, disk': Disk, table': Table)
    requires f in e.files
    requires disk' == disk || (f.path in disk' && disk' == disk[f.path := disk'[f.path]] && HasPin(h, f, disk'[f.path]))
    requires table' == table || (table' == table[f.path := Row(f.pin, f.size)] && f.path in disk' && HasPin(h, f, disk'[f.path]))
    ensures Installs(h, e, disk, table, disk', table')
  {
    OnlyPlacesOneMore(h, e, disk, disk, disk', f);
  }

  /** The files of `e` before the `i`th, and those found verified, pass. */
  predicate Present(disk: Disk, table: Table, e: Entry, verified: seq<bool>, i: nat) {
    |verified| == |e.files| && forall j :: 0 <= j < |e.files| && (j < i || verified[j]) ==> FileOk(disk, table, e.files[j])
  }

  lemma PresentGrows(m: Manifest, d: Disk, t: Table, disk: Disk, table: Table, e: Entry, verified: seq<bool>, i: nat)
    requires e in m && Present(d, t, e, verified, i) && Keeps(m, d, t, disk, table)
    requires i < |e.files| && (verified[i] || FileOk(disk, table, e.files[i]))
    ensures Present(disk, table, e, verified, i + 1)
  {
    assert forall g :: g in e.files ==> g in Pinned(m);
  }

  // ---- Sharing -------------------------------------------------------------

  /** The entry an install row stands for, if it says installed. */
  function InstalledEntry(m: Manifest, installs: map<string, InstallStatus>, name: string): Option<Entry> {
    if name in installs && installs[name].Installed? then Get(m, name) else None
  }

  /** The paths the installed model `n` uses, if it is another than `name`. */
  ghost function UsedBy(m: Manifest, installs: map<string, InstallStatus>, n: string, name: string): set<string> {
    if n != name && InstalledEntry(m, installs, n).Some? then
      set f | f in InstalledEntry(m, installs, n).value.files :: f.path
    else {}
  }

  /** The paths that installed models other than `name` use. */
  ghost function SharedPaths(m: Manifest, installs: map<string, InstallStatus>, name: string): set<string> {
    set n, p | n in installs && p in UsedBy(m, installs, n, name) :: p
  }

  /** The paths of `files` that are not shared. */
  ghost function OwnPaths(files: seq<File>, shared: set<string>): set<string> {
    set f | f in files && f.path !in shared :: f.path
  }

  lemma OwnPathsInside(files: seq<File>, shared: set<string>, i: nat)
    requires i <= |files|
    ensures OwnPaths(files[..i], shared) !! shared && OwnPaths(files[..|files|], shared) == OwnPaths(files, shared)
  {
    assert files[..|files|] == files;
  }

  lemma OwnPathsGrow(files: seq<File>, shared: set<string>, i: nat)
    requires i < |files|
    ensures OwnPaths(files[..i + 1], shared) == OwnPaths(files[..i], shared) + if files[i].path in shared then {} else {files[i].path}
    ensures OwnPaths(files[..i + 1], shared) <= OwnPaths(files, shared)
  {
    assert files[..i + 1] == files[..i] + [files[i]];
  }

  predicate IsDownloading(installs: map<string, InstallStatus>, name: string) {
    name in installs && installs[name].Downloading?
  }

  /** The row of a pull that will not be tried again: a paused one stays paused. */
  function GivenUp(installs: map<string, InstallStatus>, name: string): (r: map<string, InstallStatus>)
    ensures !IsDownloading(r, name)
  {
    if IsDownloading(installs, name) then installs[name := Failed] else installs
  }

  const MAX_TRANSIENT_ATTEMPTS := 3

  /** How a step's context stands: in use, canceled by a pause or a stopping worker,
      or out of time. */
  datatype Context = Live | Canceled | Expired

  /** A failed attempt is the last one; running out of time is never permanent. */
  predicate LastTry(context: Context, permanent: bool, attempt: int) {
    !context.Canceled? && ((context.Live? && permanent) || attempt >= MAX_TRANSIENT_ATTEMPTS)
  }

  /** Every model recorded as installed passes the load gate, `but` one perhaps. */
  ghost predicate InstalledLoads(m: Manifest, installs: map<string, InstallStatus>, disk: Disk, table: Table, but: set<string>) {
    forall n :: n in installs && n !in but && InstalledEntry(m, installs, n).Some? ==>
                  CheckOk(disk, table, InstalledEntry(m, installs, n).value)
  }

  /** A removal got as far as file `upTo`: the files before it are gone and so are
      their rows, the last one perhaps excepted. */
  ghost predicate GoneUpTo(files: seq<File>, shared: set<string>, upTo: nat, gone: set<string>, rows: set<string>) {
    && upTo <= |files| && gone == OwnPaths(files[..upTo], shared) && rows <= gone
    && (rows == gone || (upTo > 0 && rows >= OwnPaths(files[..upTo - 1], shared)))
  }

  /** A removal that stops part way leaves its own model loadable exactly when it
      deleted nothing that was there. */
  lemma PartlyRemovedLoadsIff(disk: Disk, table: Table, e: Entry, shared: set<string>, upTo: nat, gone: set<string>, rows: set<string>)
    requires GoneUpTo(e.files, shared, upTo, gone, rows)
    ensures CheckOk(disk - gone, table - rows, e) <==> CheckOk(disk, table, e) && disk - gone == disk
  {
    if gone == {} {
      assert disk - gone == disk && table - rows == table;
    } else {
      var p :| p in gone;
      var f :| f in e.files[..upTo] && f.path == p;
      assert p !in disk - gone && f in e.files;
      assert !FileOk(disk - gone, table - rows, f);
      assert disk - gone == disk ==> !FileOk(disk, table, f);
    }
  }

  /** A model of two files whose removal stops after the first one: it is recorded
      as installed and does not load. */
  lemma HalfRemovedIsInstalled(pin: Pin) returns (m: Manifest, e: Entry, installs: map<string, InstallStatus>, disk: Disk, table: Table,
                                                  gone: set<string>, rows: set<string>)
    ensures m == [e] && InstalledEntry(m, installs, e.name) == Some(e) && CheckOk(disk, table, e)
    ensures GoneUpTo(e.files, SharedPaths(m, installs, e.name), 1, gone, rows)
    ensures !CheckOk(disk - gone, table - rows, e)
  {
    var a, b := File("a", pin, 1, None), File("b", pin, 1, None);
    e := Entry("m", Licence("MIT", "u"), [a, b]);
    m, installs := [e], map["m" := Installed];
    disk, table := map["a" := [0], "b" := [0]], map["a" := Row(pin, 1), "b" := Row(pin, 1)];
    gone, rows := {"a"}, {"a"};
    assert SharedPaths(m, installs, "m") == {};
    assert e.files[..1] == [a];
    assert OwnPaths(e.files[..1], {}) == {"a"};
    assert !FileOk(disk - gone, table - rows, a) && a in e.files;
  }

  /** Without some paths, exactly the models that use none of them still load. */
  lemma RemovalKeepsIff(disk: Disk, table: Table, o: Entry, gone: set<string>)
    ensures CheckOk(disk - gone, table - gone, o)
            <==> CheckOk(disk, table, o) && forall f :: f in o.files ==> f.path !in gone
  {
  }

  lemma RemovalKeepsInstalled(m: Manifest, installs: map<string, InstallStatus>, disk: Disk, table: Table,
                              name: string, disk': Disk, table': Table, but: set<string>)
    requires InstalledLoads(m, installs, disk, table, but + {name})
    requires forall p :: p in SharedPaths(m, installs, name) ==>
                           (p in disk ==> p in disk' && disk'[p] == disk[p]) && (p in table ==> p in table' && table'[p] == table[p])
    ensures InstalledLoads(m, installs, disk', table', but + {name})
  {
    forall n | n in installs && n !in but && n != name && InstalledEntry(m, installs, n).Some?
      ensures CheckOk(disk', table', InstalledEntry(m, installs, n).value)
    {
      var o := InstalledEntry(m, installs, n).value;
      forall f | f in o.files ensures FileOk(disk', table', f) {
        assert f.path in UsedBy(m, installs, n, name);
        assert f.path in SharedPaths(m, installs, name);
      }
    }
  }

  // ---- Responses -----------------------------------------------------------

  /** A server's answer: its status, what each read of the body returns, and
      whether the connection then breaks instead of ending. */
  datatype Response = NoAnswer | Answer(status: int, chunks: seq<Content>, broken: bool)

  /** The body as far as `limit` bytes. */
  function Received(chunks: seq<Content>, limit: int): Content {
    if chunks == [] || limit <= 0 then []
    else if |chunks[0]| >= limit then chunks[0][..limit]
    else chunks[0] + Received(chunks[1..], limit - |chunks[0]|)
  }

  function Flatten(chunks: seq<Content>): Content {
    if chunks == [] then [] else chunks[0] + Flatten(chunks[1..])
  }

  /** However the body is cut up into reads, its first `limit` bytes are received. */
  lemma {:induction false} ReceivedIsPrefix(chunks: seq<Content>, limit: int)
    ensures var n := MinInt(|Flatten(chunks)|, limit);
            Received(chunks, limit) == if n <= 0 then [] else Flatten(chunks)[..n]
  {
    if chunks != [] && limit > 0 && |chunks[0]| < limit {
      ReceivedIsPrefix(chunks[1..], limit - |chunks[0]|);
    }
  }

  lemma ReceivedFirst(chunk: Content, chunks: seq<Content>, limit: nat)
    requires limit > 0
    ensures Received([chunk] + chunks, limit)
            == if |chunk| >= limit then chunk[..limit] else chunk + Received(chunks, limit - |chunk|)
  {
    assert ([chunk] + chunks)[1..] == chunks;
  }

  /** The next read of a body, cut at what may still be received. */
  lemma ReceivedStep(chunks: seq<Content>, i: nat, limit: nat, data: Content)
    requires i < |chunks| && limit > 0 && data == chunks[i][..MinInt(|chunks[i]|, limit)]
    ensures Received(chunks[i..], limit) == data + Received(chunks[i + 1..], limit - |data|)
  {
    var chunk, rest := chunks[i], chunks[i + 1..];
    assert chunks[i..] == [chunk] + rest;
    ReceivedFirst(chunk, rest, limit);
    if |chunk| >= limit {
      assert Received(rest, limit - |data|) == [];
      assert data + [] == data;
    } else {
      assert data == chunk;
    }
  }

  /** A download resumed from any prefix of the pinned content, from a server that
      sends the rest, has the whole content; one byte more would be noticed. */
  lemma ResumedIsWhole(h: Hashing, f: File, content: Content, offset: nat, chunks: seq<Content>)
    requires HasPin(h, f, content) && offset <= |content|
    ensures Flatten(chunks) == content[offset..] ==> content[..offset] + Received(chunks, f.size - offset + 1) == content
    ensures |Flatten(chunks)| > |content| - offset ==> |content[..offset] + Received(chunks, f.size - offset + 1)| == f.size + 1
  {
    ReceivedIsPrefix(chunks, f.size - offset + 1);
  }

  /** What a write at `pos` makes of a file. */
  function Overwrite(content: Content, pos: nat, data: Content): Content
    requires pos <= |content|
  {
    content[..pos] + data + if pos + |data| <= |content| then content[pos + |data|..] else []
  }

  lemma WriteAtEndAppends(content: Content, data: Content)
    ensures Overwrite(content, |content|, data) == content + data
  {
  }

  /** What a failing write may leave: part of the data. */
  ghost predicate PartlyWritten(was: Content, pos: nat, data: Content, now: Content)
    requires pos <= |was|
  {
    exists k :: 0 <= k <= |data| && now == Overwrite(was, pos, data[..k])
  }

  /** What a server can send of a file of `size` bytes of which `start` is there:
      nothing when the answer is not the file or breaks off early. */
  function Sent(start: Content, size: int, resp: Response): Option<Content> {
    if resp.NoAnswer? then None
    else if resp.status == 206 && start != [] then Whole(start + Received(resp.chunks, size - |start| + 1), size, resp.broken)
    else if resp.status == 200 then Whole(Received(resp.chunks, size + 1), size, resp.broken)
    else None
  }

  /** A connection may break after the last byte that is read. */
  function Whole(content: Content, size: int, broken: bool): Option<Content> {
    if broken && |content| != size + 1 then None else Some(content)
  }

  /** The content a download compares with its pin, given what was downloaded before. */
  function Attempt(f: File, part: Content, resp: Response): Option<Content> {
    var start := if |part| > f.size then [] else part;
    if |start| >= f.size then Some(start) else Sent(start, f.size, resp)
  }

  /** What is on disk after an attempt that was given up. */
  function KeptOf(f: File, part: Content, resp: Response): Content {
    var start := if |part| > f.size then [] else part;
    if resp.NoAnswer? then start
    else if resp.status == 206 && start != [] then start + Received(resp.chunks, f.size - |start| + 1)
    else if resp.status == 200 then Received(resp.chunks, f.size + 1)
    else start
  }

  /** The answer is about `content`: of a range the bytes asked for, otherwise all
      bytes from the first one on; fewer only when the connection breaks. */
  ghost predicate Honest(f: File, content: Content, part: Content, resp: Response) {
    resp.Answer? ==>
      var body, start := Flatten(resp.chunks), if |part| > f.size then [] else part;
      && (resp.status == 206 && |start| <= |content| ==> Sends(body, content[|start|..], resp.broken))
      && (resp.status == 200 ==> Sends(body, content, resp.broken))
  }

  ghost predicate Sends(body: Content, asked: Content, broken: bool) {
    body <= asked && (!broken ==> body == asked)
  }

  /** What is there to be resumed is a beginning of `content`, or too long to be. */
  ghost predicate Resumable(f: File, content: Content, part: Content) {
    part <= content || |part| > f.size
  }

  /** An answer that ends a download: a whole range, or the whole file. */
  predicate Settles(start: Content, resp: Response) {
    resp.Answer? && !resp.broken && ((resp.status == 206 && start != []) || resp.status == 200)
  }

  lemma ReceivedSent(chunks: seq<Content>, asked: Content)
    requires Flatten(chunks) <= asked
    ensures Received(chunks, |asked| + 1) == Flatten(chunks)
  {
    ReceivedIsPrefix(chunks, |asked| + 1);
  }

  /** One attempt against an honest server gets the content or leaves a beginning
      of it. */
  lemma AttemptResumes(f: File, content: Content, part: Content, resp: Response)
    requires |content| == f.size && Resumable(f, content, part) && Honest(f, content, part, resp)
    ensures var start, got := if |part| > f.size then [] else part, Attempt(f, part, resp);
            && (got.Some? <==> |start| == f.size || Settles(start, resp))
            && (got.Some? ==> got.value == content)
            && (got.None? ==> KeptOf(f, part, resp) <= content)
            && (got.None? && resp.Answer? && resp.status == 206 && start != [] ==> KeptOf(f, part, resp) == start + Flatten(resp.chunks))
  {
    var start := if |part| > f.size then [] else part;
    if |start| == f.size {
      assert start == content;
    } else if resp.Answer? && resp.status == 206 && start != [] {
      ReceivedSent(resp.chunks, content[|start|..]);
      assert start + content[|start|..] == content;
    } else if resp.Answer? && resp.status == 200 {
      ReceivedSent(resp.chunks, content);
    }
  }

  /** The content that the first of some attempts to get through compares with the
      pin, and what attempts that are all given up leave. */
  function DownloadOf(f: File, part: Content, resps: seq<Response>): Option<Content>
    decreases |resps|
  {
    if resps == [] then None
    else if Attempt(f, part, resps[0]).Some? then Attempt(f, part, resps[0])
    else DownloadOf(f, KeptOf(f, part, resps[0]), resps[1..])
  }

  function KeptAfter(f: File, part: Content, resps: seq<Response>): Content
    decreases |resps|
  {
    if resps == [] then part else KeptAfter(f, KeptOf(f, part, resps[0]), resps[1..])
  }

  ghost predicate AllHonest(f: File, content: Content, part: Content, resps: seq<Response>)
    decreases |resps|
  {
    resps != [] ==>
      && Honest(f, content, part, resps[0])
      && (Attempt(f, part, resps[0]).None? ==> AllHonest(f, content, KeptOf(f, part, resps[0]), resps[1..]))
  }

  /** However many attempts break off, and whichever of them resumed or started over,
      the first to get through has the whole content; until then a beginning of it
      is kept. */
  lemma {:induction false} ResumesToWhole(f: File, content: Content, part: Content, resps: seq<Response>)
    requires |content| == f.size && Resumable(f, content, part) && AllHonest(f, content, part, resps)
    ensures DownloadOf(f, part, resps).Some? ==> DownloadOf(f, part, resps).value == content
    ensures DownloadOf(f, part, resps).None? && (part <= content || resps != []) ==> KeptAfter(f, part, resps) <= content
    ensures (exists i :: 0 <= i < |resps| && resps[i].Answer? && resps[i].status == 200 && !resps[i].broken)
            ==> DownloadOf(f, part, resps).Some?
    decreases |resps|
  {
    if resps != [] {
      AttemptResumes(f, content, part, resps[0]);
      if Attempt(f, part, resps[0]).None? { ResumesToWhole(f, content, KeptOf(f, part, resps[0]), resps[1..]); }
    }
  }

  ghost function BytesSent(resps: seq<Response>): nat {
    if resps == [] then 0 else (if resps[0].Answer? then |Flatten(resps[0].chunks)| else 0) + BytesSent(resps[1..])
  }

  predicate OnlyRanges(resps: seq<Response>) {
    forall r :: r in resps ==> r.Answer? ==> r.status == 206
  }

  /** From a server that honours the ranges, no byte is asked for twice: what is kept
      is as long as all that was ever sent. */
  lemma {:induction false} NoByteTwice(f: File, content: Content, part: Content, resps: seq<Response>)
    requires |content| == f.size && [] < part <= content && AllHonest(f, content, part, resps) && OnlyRanges(resps)
    requires DownloadOf(f, part, resps).None?
    ensures part <= KeptAfter(f, part, resps) && |KeptAfter(f, part, resps)| == |part| + BytesSent(resps)
    decreases |resps|
  {
    if resps != [] {
      AttemptResumes(f, content, part, resps[0]);
      assert resps[0] in resps;
      NoByteTwice(f, content, KeptOf(f, part, resps[0]), resps[1..]);
    }
  }

  function PartOf(parts: map<Pin, Content>, f: File): Content {
    if f.pin in parts then parts[f.pin] else []
  }

  /** Downloading `f` on top of `part` gives its pinned content. */
  predicate Completes(h: Hashing, f: File, part: Content, resp: Response) {
    Attempt(f, part, resp).Some? && HasPin(h, f, Attempt(f, part, resp).value)
  }

  /** `now` is `was`, perhaps without the download of `pin`. */
  predicate OnlyDrops(was: map<Pin, Content>, now: map<Pin, Content>, pin: Pin) {
    now == was || now == was - {pin}
  }

  /** A server's answers, by the file and the offset asked for. */
  type Server = (File, nat) -> Response

  /** Where a download of `f` goes on: after what is there, or at the start when that
      is too long. */
  function Offset(f: File, part: Content): nat {
    if |part| > f.size then 0 else |part|
  }

  /** The server completes `f` from what is there now, and from nothing. */
  predicate Fetchable(h: Hashing, f: File, parts: map<Pin, Content>, server: Server) {
    && Completes(h, f, PartOf(parts, f), server(f, Offset(f, PartOf(parts, f))))
    && Completes(h, f, [], server(f, 0))
  }

  predicate EntryFetchable(h: Hashing, e: Entry, parts: map<Pin, Content>, server: Server) {
    Gate(e) && forall f :: f in e.files ==> Fetchable(h, f, parts, server)
  }

  /** The server has `content` for `f`: it sends all of it, or what is asked for. */
  ghost predicate Serves(server: Server, f: File, content: Content) {
    forall k: nat :: k < f.size ==>
                       var r := server(f, k);
                       && r.Answer? && !r.broken
                       && ((r.status == 200 && Flatten(r.chunks) == content)
                           || (r.status == 206 && k > 0 && k <= |content| && Flatten(r.chunks) == content[k..]))
  }

  lemma ServedCompletes(h: Hashing, f: File, content: Content, part: Content, server: Server)
    requires HasPin(h, f, content) && Resumable(f, content, part) && Serves(server, f, content)
    ensures Completes(h, f, part, server(f, Offset(f, part)))
  {
    var start := if |part| > f.size then [] else part;
    if |start| == f.size {
      assert start == content;
    } else {
      assert start <= content;
      AttemptResumes(f, content, part, server(f, |start|));
    }
  }

  /** A server that has the pinned content completes every download of it, whether it
      honours ranges or not. */
  lemma ServedIsFetchable(h: Hashing, f: File, content: Content, parts: map<Pin, Content>, server: Server)
    requires HasPin(h, f, content) && Resumable(f, content, PartOf(parts, f)) && Serves(server, f, content)
    ensures Fetchable(h, f, parts, server)
  {
    ServedCompletes(h, f, content, PartOf(parts, f), server);
    ServedCompletes(h, f, content, [], server);
  }

  lemma DropKeepsFetchable(h: Hashing, e: Entry, was: map<Pin, Content>, now: map<Pin, Content>, pin: Pin, server: Server)
    requires OnlyDrops(was, now, pin)
    ensures EntryFetchable(h, e, was, server) ==> EntryFetchable(h, e, now, server)
  {
    if EntryFetchable(h, e, was, server) {
      forall f | f in e.files ensures Fetchable(h, f, now, server) {
        assert PartOf(now, f) == PartOf(was, f) || PartOf(now, f) == [];
      }
    }
  }

  // ---- Operations ----------------------------------------------------------

  /** What lasts of a volume: the files in place, the table and the installs. */
  datatype Shelf = Shelf(disk: Disk, table: Table, installs: map<string, InstallStatus>)

  /** An operation on the model `name` that succeeded or not. */
  datatype Op = ClaimOf(name: string, ok: bool) | PauseOf(name: string, ok: bool)
              | PullOf(name: string, ok: bool) | RemoveOf(name: string, ok: bool)

  predicate Claims(was: Shelf, name: string, ok: bool, now: Shelf) {
    (ok ==> !IsDownloading(was.installs, name)) && now == if ok then was.(installs := was.installs[name := Downloading]) else was
  }

  predicate Pauses(was: Shelf, name: string, ok: bool, now: Shelf) {
    (ok ==> IsDownloading(was.installs, name)) && now == if ok then was.(installs := was.installs[name := Paused]) else was
  }

  /** A pull puts only pinned content of `e` in place and records only that; when it
      succeeds all of it is there. */
  ghost predicate Pulls(h: Hashing, e: Entry, was: Shelf, ok: bool, now: Shelf) {
    && Installs(h, e, was.disk, was.table, now.disk, now.table)
    && if ok then CheckOk(now.disk, now.table, e) && now.installs == was.installs[e.name := Installed]
       else now.installs == was.installs || now.installs == GivenUp(was.installs, e.name)
  }

  /** A removal deletes the files and rows of `e` that no other installed model uses,
      and then its install row, or stops on the way. */
  ghost predicate Removes(m: Manifest, e: Entry, was: Shelf, ok: bool, now: Shelf) {
    exists upTo, gone, rows :: RemovesUpTo(m, e, was, ok, now, upTo, gone, rows)
  }

  ghost predicate RemovesUpTo(m: Manifest, e: Entry, was: Shelf, ok: bool, now: Shelf, upTo: nat, gone: set<string>, rows: set<string>) {
    && GoneUpTo(e.files, SharedPaths(m, was.installs, e.name), upTo, gone, rows)
    && (ok ==> upTo == |e.files| && rows == gone)
    && now == Shelf(was.disk - gone, was.table - rows, if ok then was.installs - {e.name} else was.installs)
  }

  /** An operation on a model that is not in the manifest fails and changes nothing. */
  ghost predicate Does(h: Hashing, m: Manifest, was: Shelf, op: Op, now: Shelf) {
    match op
    case ClaimOf(name, ok) => Claims(was, name, ok, now)
    case PauseOf(name, ok) => Pauses(was, name, ok, now)
    case PullOf(name, ok) => if Get(m, name).Some? then Pulls(h, Get(m, name).value, was, ok, now) else !ok && now == was
    case RemoveOf(name, ok) => if Get(m, name).Some? then Removes(m, Get(m, name).value, was, ok, now) else !ok && now == was
  }

  // ---- The volume ----------------------------------------------------------

  class Volume {
    /** The files in place, the partial downloads by digest, the table of verified
        files and the installs. */
    var disk: Disk
    var parts: map<Pin, Content>
    var table: Table
    var installs: map<string, InstallStatus>
    const h: Hashing
    /** Whether file system and database can be relied on; if not, any operation may
        fail at any time. */
    const reliable: bool

    constructor (h: Hashing, reliable: bool)
      ensures disk == map[] && parts == map[] && table == map[] && installs == map[]
      ensures this.h == h && this.reliable == reliable
    {
      disk, parts, table, installs := map[], map[], map[], map[];
      this.h, this.reliable := h, reliable;
    }

    ghost function Contents(): Shelf
      reads this
    {
      Shelf(disk, table, installs)
    }

    method Fails() returns (failed: bool)
      ensures reliable ==> !failed
    {
      failed := *;
      if reliable { failed := false; }
    }

    /** The load gate: returns whether every file of `e` was verified and is still
        on disk with its pinned size. */
    method Check(m: Manifest, name: string) returns (ok: bool)
      ensures ok <==> Get(m, name).Some? && CheckOk(disk, table, Get(m, name).value)
    {
      var found := Get(m, name);
      if found.None? { return false; }
      var e := found.value;
      if !Gate(e) { return false; }
      for i := 0 to |e.files|
        invariant forall j :: 0 <= j < i ==> FileOk(disk, table, e.files[j])
      {
        var f := e.files[i];
        assert f in e.files;
        if f.path !in table || table[f.path].pin != f.pin || table[f.path].size != f.size { return false; }
        if f.path !in disk || |disk[f.path]| != f.size { return false; }
        assert FileOk(disk, table, f);
      }
      return true;
    }

    /** Writes `data` at `pos`, or fails with some of it written. */
    method Write(pin: Pin, pos: nat, data: Content) returns (ok: bool)
      requires pin in parts && pos <= |parts[pin]|
      modifies this`parts
      ensures ok ==> parts == old(parts)[pin := Overwrite(old(parts)[pin], pos, data)]
      ensures reliable ==> ok
      ensures !ok ==> pin in parts && parts == old(parts)[pin := parts[pin]] && PartlyWritten(old(parts)[pin], pos, data, parts[pin])
    {
      var failed := Fails();
      if failed {
        var k :| 0 <= k <= |data|;
        parts := parts[pin := Overwrite(parts[pin], pos, data[..k])];
        return false;
      }
      parts := parts[pin := Overwrite(parts[pin], pos, data)];
      return true;
    }

    /** Starts a partial download over: truncates the file, seeks to its start and
        takes a new hasher. */
    method Restart(f: File) returns (ok: bool, pos: nat, hashed: Content)
      requires f.pin in parts
      modifies this`parts
      ensures reliable ==> ok
      ensures parts == old(parts) || parts == old(parts)[f.pin := []]
      ensures ok ==> parts == old(parts)[f.pin := []] && pos == 0 && hashed == []
    {
      pos, hashed := 0, [];
      var failed := Fails();
      if failed { return false, pos, hashed; }
      parts := parts[f.pin := []];
      failed := Fails();
      return !failed, pos, hashed;
    }

    /** Asks for `f` from `offset` on and writes the body to the partial download.
        `hashed` is what the hasher has consumed. Whatever the server answers, a
        fetch that succeeds leaves the hasher with exactly the bytes of the file:
        the old ones and the body, or the body alone when the range was ignored,
        and never more than one byte too many. */
    method Fetch(f: File, resp: Response, offset: nat, before: Content) returns (ok: bool, hashed: Content)
      requires f.pin in parts && parts[f.pin] == before && offset == |before| && offset < f.size
      modifies this`parts
      ensures f.pin in parts && parts == old(parts)[f.pin := parts[f.pin]]
      ensures ok ==> parts[f.pin] == hashed && |hashed| <= f.size + 1 && Sent(before, f.size, resp) == Some(hashed)
      ensures reliable ==> (ok <==> Sent(before, f.size, resp).Some?)
      ensures reliable ==> parts[f.pin] == KeptOf(f, before, resp)
    {
      hashed := before;
      if resp.NoAnswer? { return false, hashed; }
      var pos := offset;
      if resp.status == 206 && offset > 0 {
        var failed := Fails();
        if failed { return false, hashed; }
      } else if resp.status == 200 {
        var restarted;
        restarted, pos, hashed := Restart(f);
        if !restarted { return false, hashed; }
        assert hashed + Received(resp.chunks, f.size - pos + 1) == Received(resp.chunks, f.size + 1);
      } else {
        return false, hashed;
      }
      ok, hashed := ReadBody(f, resp, pos, hashed);
    }

    /** The read loop: writes the body, at most one byte past the pinned size, and
        feeds the hasher the same bytes. */
    method ReadBody(f: File, resp: Response, start: nat, before: Content) returns (ok: bool, hashed: Content)
      requires resp.Answer? && f.pin in parts && parts[f.pin] == before && start == |before| && start <= f.size
      modifies this`parts
      ensures f.pin in parts && parts == old(parts)[f.pin := parts[f.pin]]
      ensures ok ==> parts[f.pin] == hashed && hashed == before + Received(resp.chunks, f.size - start + 1)
      ensures ok ==> |hashed| <= f.size + 1 && (resp.broken ==> |hashed| == f.size + 1)
      ensures reliable ==> parts[f.pin] == before + Received(resp.chunks, f.size - start + 1)
      ensures reliable ==> (ok <==> !resp.broken || |before + Received(resp.chunks, f.size - start + 1)| == f.size + 1)
    {
      hashed := before;
      var limit := f.size - start + 1;
      ghost var whole := before + Received(resp.chunks, limit);
      assert resp.chunks[0..] == resp.chunks;
      var i := 0;
      var pos := start;
      while limit > 0 && i < |resp.chunks|
        invariant 0 <= i <= |resp.chunks| && 0 <= limit
        invariant f.pin in parts && parts == old(parts)[f.pin := parts[f.pin]]
        invariant parts[f.pin] == hashed && pos == |hashed| && pos + limit == f.size + 1
        invariant whole == hashed + Received(resp.chunks[i..], limit)
        decreases |resp.chunks| - i
      {
        var chunk := resp.chunks[i];
        var n := MinInt(|chunk|, limit);
        var data := chunk[..n];
        ReceivedStep(resp.chunks, i, limit, data);
        if n > 0 {
          WriteAtEndAppends(parts[f.pin], data);
          var written := Write(f.pin, pos, data);
          if !written { return false, hashed; }
          hashed := hashed + data;
          pos := pos + n;
        }
        limit := limit - n;
        i := i + 1;
      }
      assert whole == hashed;
      ok := limit == 0 || !resp.broken;
    }

    /** Whether `f` is verified, adopting it when its content is on disk and right;
        and how much of it was downloaded before. */
    method Inspect(f: File, ghost m: Manifest) returns (ok: bool, verified: bool, partial: nat)
      requires CollisionFree(h) && OneDigest(Pinned(m)) && f in Pinned(m) && Genuine(h, m, disk, table)
      modifies this`table
      ensures Genuine(h, m, disk, table) && Keeps(m, disk, old(table), disk, table)
      ensures ok && verified ==> FileOk(disk, table, f)
      ensures table == old(table) || (table == old(table)[f.path := Row(f.pin, f.size)] && f.path in disk && HasPin(h, f, disk[f.path]))
      ensures ok ==> (verified <==> FileOk(disk, old(table), f) || (f.path in disk && HasPin(h, f, disk[f.path])))
      ensures partial == 0 || (f.pin in parts && partial == |parts[f.pin]| <= f.size)
      ensures reliable ==> ok
    {
      verified, partial := false, 0;
      var failed := Fails();
      if failed { return false, verified, partial; }
      if f.path in disk && |disk[f.path]| == f.size {
        failed := Fails();
        if failed { return false, verified, partial; }
        if f.path in table && table[f.path].pin == f.pin && table[f.path].size == f.size {
          return true, true, partial;
        }
        failed := Fails();
        if failed { return false, verified, partial; }
        if Sum(h, f, disk[f.path]) == f.pin {
          RecordKeeps(h, m, disk, table, f);
          var marked := MarkFileVerified(f);
          if !marked { return false, verified, partial; }
          return true, true, partial;
        }
      }
      failed := Fails();
      if !failed && f.pin in parts && |parts[f.pin]| <= f.size {
        partial := |parts[f.pin]|;
      }
      return true, verified, partial;
    }

    method MarkFileVerified(f: File) returns (ok: bool)
      modifies this`table
      ensures table == if ok then old(table)[f.path := Row(f.pin, f.size)] else old(table)
      ensures reliable ==> ok
    {
      var failed := Fails();
      if failed { return false; }
      table := table[f.path := Row(f.pin, f.size)];
      return true;
    }

    /** Downloads `f` into its partial file, checks its size and digest, and renames
        it into place. Nothing is put in place but content of the pinned size and
        digest; content that is not is thrown away, so that the next try starts
        from nothing. */
    method DownloadFile(f: File, resp: Response) returns (ok: bool)
      modifies this`disk, this`parts
      ensures ok ==> Completes(h, f, PartOf(old(parts), f), resp)
      ensures disk == if ok then old(disk)[f.path := Attempt(f, PartOf(old(parts), f), resp).value] else old(disk)
      ensures reliable ==> (ok <==> Completes(h, f, PartOf(old(parts), f), resp))
      ensures reliable ==> parts == if Attempt(f, PartOf(old(parts), f), resp).Some? then old(parts) - {f.pin}
                                    else old(parts)[f.pin := KeptOf(f, PartOf(old(parts), f), resp)]
      ensures forall pin :: pin != f.pin ==> (pin in parts <==> pin in old(parts)) && (pin in parts ==> parts[pin] == old(parts)[pin])
      ensures ok ==> f.pin !in parts
    {
      var failed := Fails();
      if failed { return false; }
      if f.pin !in parts { parts := parts[f.pin := []]; }
      failed := Fails();
      if failed { return false; }
      var hashed := parts[f.pin];
      var offset := |hashed|;
      if offset > f.size {
        var restarted;
        restarted, offset, hashed := Restart(f);
        if !restarted { return false; }
      }
      if offset < f.size {
        var fetched;
        fetched, hashed := Fetch(f, resp, offset, hashed);
        if !fetched { return false; }
      }
      assert parts[f.pin] == hashed && Attempt(f, PartOf(old(parts), f), resp) == Some(hashed);
      ok := PutInPlace(f, hashed);
    }

    /** The end of a download: compares size and digest with the pin, then renames
        the file into place or throws it away. */
    method PutInPlace(f: File, hashed: Content) returns (ok: bool)
      requires f.pin in parts && parts[f.pin] == hashed
      modifies this`disk, this`parts
      ensures ok ==> HasPin(h, f, hashed) && f.pin !in parts
      ensures disk == if ok then old(disk)[f.path := hashed] else old(disk)
      ensures parts == old(parts) || parts == old(parts) - {f.pin}
      ensures reliable ==> (ok <==> HasPin(h, f, hashed)) && f.pin !in parts
    {
      var failed := Fails();
      if failed { return false; }
      if |parts[f.pin]| != f.size || Sum(h, f, hashed) != f.pin {
        failed := Fails();
        if !failed { parts := parts - {f.pin}; }
        return false;
      }
      failed := Fails();
      if failed { return false; }
      disk := disk[f.path := parts[f.pin]];
      parts := parts - {f.pin};
      return true;
    }

    /** Downloads `f` while holding the lock on its partial file, unless another
        pull has verified it meanwhile, and records it. */
    method DownloadExclusive(f: File, resp: Response, ghost m: Manifest) returns (ok: bool)
      requires CollisionFree(h) && OneDigest(Pinned(m)) && f in Pinned(m) && Genuine(h, m, disk, table)
      modifies this`disk, this`parts, this`table
      ensures Genuine(h, m, disk, table) && Keeps(m, old(disk), old(table), disk, table)
      ensures ok ==> FileOk(disk, table, f)
      ensures reliable && Completes(h, f, PartOf(old(parts), f), resp) ==> ok
      ensures OnlyDrops(old(parts), parts, f.pin) || !ok
      ensures disk == old(disk) || (f.path in disk && disk == old(disk)[f.path := disk[f.path]] && HasPin(h, f, disk[f.path]))
      ensures table == old(table)
              || (table == old(table)[f.path := Row(f.pin, f.size)] && f.path in disk && HasPin(h, f, disk[f.path]))
    {
      var failed := Fails();
      if failed { return false; }
      var inspected, verified, partial := Inspect(f, m);
      if !inspected { return false; }
      if verified { return true; }
      ghost var d1, t1 := disk, table;
      var downloaded := DownloadFile(f, resp);
      if !downloaded { return false; }
      PlaceKeeps(h, m, d1, t1, f, disk[f.path]);
      KeepsTransitive(m, old(disk), old(table), d1, t1, disk, table);
      ghost var d2, t2 := disk, table;
      RecordKeeps(h, m, disk, table, f);
      ok := MarkFileVerified(f);
      KeepsTransitive(m, old(disk), old(table), d2, t2, disk, table);
    }

    /** Makes every file of `e` present and verified; `roomy` says whether the disks
        have room for what is missing. It may fail anywhere, and it
        may have run and failed before: no other model of the manifest stops passing
        the load gate, everything put in place is pinned content of `e`, and when it
        succeeds `e` itself passes. With nothing failing and a server that completes
        every file, it succeeds. */
    method Install(e: Entry, server: Server, roomy: bool, ghost m: Manifest) returns (ok: bool)
      requires CollisionFree(h) && OneDigest(Pinned(m)) && e in m && Genuine(h, m, disk, table)
      modifies this`disk, this`parts, this`table
      ensures Genuine(h, m, disk, table) && Keeps(m, old(disk), old(table), disk, table)
      ensures ok ==> CheckOk(disk, table, e)
      ensures reliable && roomy && EntryFetchable(h, e, old(parts), server) ==> ok
      ensures Installs(h, e, old(disk), old(table), disk, table)
      ensures !Gate(e) ==> !ok && disk == old(disk) && table == old(table) && parts == old(parts)
    {
      if !Gate(e) { return false; }
      var failed := Fails();
      if failed { return false; }
      var planned, verified, need := PlanFiles(e, m);
      if !planned { return false; }
      if need != 0 {
        failed := Fails();
        if failed || !roomy { return false; }
      }
      ghost var t := table;
      ok := DownloadMissing(e, verified, server, m);
      InstallsTransitive(h, m, e, old(disk), old(table), old(disk), t, disk, table);
    }

    /** The first loop of an install: what each file needs. */
    method PlanFiles(e: Entry, ghost m: Manifest) returns (ok: bool, verified: seq<bool>, need: int)
      requires CollisionFree(h) && OneDigest(Pinned(m)) && e in m && Genuine(h, m, disk, table)
      modifies this`table
      ensures Genuine(h, m, disk, table) && Keeps(m, disk, old(table), disk, table)
      ensures Installs(h, e, disk, old(table), disk, table)
      ensures reliable ==> ok
      ensures ok ==> |verified| == |e.files| && Present(disk, table, e, verified, 0)
    {
      verified, need := [], 0;
      for i := 0 to |e.files|
        invariant Genuine(h, m, disk, table) && Keeps(m, disk, old(table), disk, table)
        invariant Installs(h, e, disk, old(table), disk, table)
        invariant |verified| == i && forall j :: 0 <= j < i && verified[j] ==> FileOk(disk, table, e.files[j])
      {
        var f := e.files[i];
        assert forall g :: g in e.files ==> g in Pinned(m);
        ghost var t := table;
        var inspected, done, partial := Inspect(f, m);
        InstallsOne(h, e, f, disk, t, disk, table);
        InstallsTransitive(h, m, e, disk, old(table), disk, t, disk, table);
        if !inspected { return false, verified, need; }
        verified := verified + [done];
        if !done { need := need + f.size - partial; }
      }
      return true, verified, need;
    }

    /** Downloads one missing file of `e`. */
    method DownloadOne(e: Entry, f: File, server: Server, ghost m: Manifest) returns (ok: bool)
      requires CollisionFree(h) && OneDigest(Pinned(m)) && f in Pinned(m) && f in e.files && Genuine(h, m, disk, table)
      modifies this`disk, this`parts, this`table
      ensures Genuine(h, m, disk, table) && Keeps(m, old(disk), old(table), disk, table)
      ensures ok ==> FileOk(disk, table, f)
      ensures Installs(h, e, old(disk), old(table), disk, table)
      ensures EntryFetchable(h, e, old(parts), server) ==> (reliable ==> ok) && (ok ==> EntryFetchable(h, e, parts, server))
    {
      assert EntryFetchable(h, e, parts, server) ==> Fetchable(h, f, parts, server);
      ok := DownloadExclusive(f, server(f, Offset(f, PartOf(parts, f))), m);
      InstallsOne(h, e, f, old(disk), old(table), disk, table);
      if ok { DropKeepsFetchable(h, e, old(parts), parts, f.pin, server); }
    }

    /** The second loop of an install: downloads what is missing. */
    method DownloadMissing(e: Entry, verified: seq<bool>, server: Server, ghost m: Manifest) returns (ok: bool)
      requires CollisionFree(h) && OneDigest(Pinned(m)) && e in m && Genuine(h, m, disk, table) && Gate(e)
      requires |verified| == |e.files| && Present(disk, table, e, verified, 0)
      modifies this`disk, this`parts, this`table
      ensures Genuine(h, m, disk, table) && Keeps(m, old(disk), old(table), disk, table)
      ensures ok ==> CheckOk(disk, table, e)
      ensures reliable && EntryFetchable(h, e, old(parts), server) ==> ok
      ensures Installs(h, e, old(disk), old(table), disk, table)
    {
      assert forall g :: g in e.files ==> g in Pinned(m);
      for i := 0 to |e.files|
        invariant Genuine(h, m, disk, table) && Keeps(m, old(disk), old(table), disk, table)
        invariant Present(disk, table, e, verified, i)
        invariant Installs(h, e, old(disk), old(table), disk, table)
        invariant EntryFetchable(h, e, old(parts), server) ==> EntryFetchable(h, e, parts, server)
      {
        ghost var d, t := disk, table;
        if !verified[i] {
          var downloaded := DownloadOne(e, e.files[i], server, m);
          KeepsTransitive(m, old(disk), old(table), d, t, disk, table);
          InstallsTransitive(h, m, e, old(disk), old(table), d, t, disk, table);
          if !downloaded { return false; }
        }
        PresentGrows(m, d, t, disk, table, e, verified, i);
      }
      return true;
    }

    /** Records `name` as installed. */
    method MarkInstalled(name: string) returns (ok: bool)
      modifies this`installs
      ensures installs == if ok then old(installs)[name := Installed] else old(installs)
      ensures reliable ==> ok
    {
      var failed := Fails();
      if failed { return false; }
      installs := installs[name := Installed];
      return true;
    }

    /** Takes `name` for a pull, unless one holds it. */
    method Claim(name: string) returns (ok: bool)
      modifies this`installs
      ensures installs == if ok then old(installs)[name := Downloading] else old(installs)
      ensures ok ==> !IsDownloading(old(installs), name)
      ensures reliable ==> (ok <==> !IsDownloading(old(installs), name))
      ensures Claims(old(Contents()), name, ok, Contents())
    {
      var failed := Fails();
      if failed { return false; }
      if name in installs && installs[name].Downloading? { return false; }
      installs := installs[name := Downloading];
      return true;
    }

    /** Pauses the pull of `name`, if one holds it. */
    method Pause(name: string) returns (ok: bool)
      modifies this`installs
      ensures installs == if ok then old(installs)[name := Paused] else old(installs)
      ensures ok ==> IsDownloading(old(installs), name)
      ensures reliable ==> (ok <==> IsDownloading(old(installs), name))
      ensures Pauses(old(Contents()), name, ok, Contents())
    {
      var failed := Fails();
      if failed { return false; }
      if name !in installs || !installs[name].Downloading? { return false; }
      installs := installs[name := Paused];
      return true;
    }

    /** The pull step: installs `name` and records what became of it. Whatever that is,
        every model that was recorded as installed and loadable still is; when the
        step succeeds so is `name`, whatever a removal that stopped part way left; a
        paused pull keeps its row; and the last attempt never leaves the row saying
        that a download is running. `context` is how the step's context stands at
        the end and `permanent` whether a failure to install would be permanent. */
    method Pull(name: string, m: Manifest, server: Server, roomy: bool, context: Context, permanent: bool, attempt: int,
                ghost but: set<string>) returns (ok: bool)
      requires CollisionFree(h) && OneDigest(Pinned(m)) && Genuine(h, m, disk, table)
      requires InstalledLoads(m, installs, disk, table, but)
      modifies this
      ensures Genuine(h, m, disk, table)
      ensures InstalledLoads(m, installs, disk, table, if ok then but - {name} else but)
      ensures ok ==> context.Live? && installs == old(installs)[name := Installed] && InstalledEntry(m, installs, name).Some?
      ensures !ok ==> installs == old(installs) || installs == GivenUp(old(installs), name)
      ensures context.Canceled? || Get(m, name).None? ==> !ok && installs == old(installs)
      ensures reliable && Get(m, name).Some? && !ok ==>
                var last := LastTry(context, permanent || !Gate(Get(m, name).value), attempt);
                installs == if last then GivenUp(old(installs), name) else old(installs)
      ensures Does(h, m, old(Contents()), PullOf(name, ok), Contents())
      ensures reliable && roomy && context.Live? && Get(m, name).Some? && EntryFetchable(h, Get(m, name).value, old(parts), server) ==> ok
    {
      GetFinds(m, name);
      var found := Get(m, name);
      if found.None? { return false; }
      ok := Install(found.value, server, roomy, m);
      InstallKeepsInstalled(m, installs, old(disk), old(table), disk, table, but);
      if context.Canceled? { return false; }
      if context.Expired? || !ok {
        if LastTry(context, permanent || !Gate(found.value), attempt) {
          var failed := Fails();
          if !failed { installs := GivenUp(installs, name); }
        }
        return false;
      }
      ok := MarkInstalled(name);
    }

    /** Deletes the files of `e` that no other installed model uses, their rows and
        the install row of `e`; when it does not stop part way, exactly the files that
        only `e` used are gone. Every other installed model that passed the load gate
        still does, whether it stops or not and whatever earlier removals, of `but`,
        left behind. One that stops has deleted the files before `upTo`, and `e` still
        loads exactly when nothing was deleted. */
    method Remove(m: Manifest, e: Entry, ghost but: set<string>)
      returns (ok: bool, ghost upTo: nat, ghost gone: set<string>, ghost rows: set<string>)
      requires InstalledLoads(m, installs, disk, table, but + {e.name})
      modifies this`disk, this`table, this`installs
      ensures InstalledLoads(m, installs, disk, table, if ok then but - {e.name} else but + {e.name})
      ensures reliable ==> ok
      ensures Genuine(h, m, old(disk), old(table)) ==> Genuine(h, m, disk, table)
      ensures RemovesUpTo(m, e, old(Contents()), ok, Contents(), upTo, gone, rows)
      ensures ok ==> gone == rows == OwnPaths(e.files, SharedPaths(m, old(installs), e.name))
      ensures !ok ==> (CheckOk(disk, table, e) <==> CheckOk(old(disk), old(table), e) && disk == old(disk))
    {
      upTo, gone, rows := 0, {}, {};
      var failed := Fails();
      if failed { return false, upTo, gone, rows; }
      var shared := ListShared(m, e.name);
      ok, upTo, gone, rows := RemoveFiles(e.files, shared);
      OwnPathsInside(e.files, shared, upTo);
      RemovalKeepsInstalled(m, installs, old(disk), old(table), e.name, disk, table, but);
      PartlyRemovedLoadsIff(old(disk), old(table), e, shared, upTo, gone, rows);
      if ok { failed := Fails(); }
      if !ok || failed { return false, upTo, gone, rows; }
      installs := installs - {e.name};
    }

    /** The loop of a removal. */
    method RemoveFiles(files: seq<File>, shared: set<string>)
      returns (ok: bool, ghost upTo: nat, ghost gone: set<string>, ghost rows: set<string>)
      modifies this`disk, this`table
      ensures disk == old(disk) - gone && table == old(table) - rows
      ensures GoneUpTo(files, shared, upTo, gone, rows)
      ensures reliable ==> ok
      ensures ok ==> upTo == |files| && rows == gone
    {
      gone, rows := {}, {};
      for i := 0 to |files|
        invariant disk == old(disk) - gone && table == old(table) - rows
        invariant rows == gone == OwnPaths(files[..i], shared)
      {
        var f := files[i];
        OwnPathsGrow(files, shared, i);
        if f.path !in shared {
          var failed := Fails();
          if failed { return false, i, gone, rows; }
          disk := disk - {f.path};
          gone := gone + {f.path};
          failed := Fails();
          if failed { return false, i + 1, gone, rows; }
          table := table - {f.path};
          rows := rows + {f.path};
        }
      }
      return true, |files|, gone, rows;
    }

    /** The paths that installed models other than `name` use. */
    method ListShared(m: Manifest, name: string) returns (shared: set<string>)
      ensures shared == SharedPaths(m, installs, name)
    {
      shared := {};
      var rest := installs.Keys;
      while rest != {}
        invariant rest <= installs.Keys
        invariant forall p :: p in shared <==> exists n :: n in installs.Keys - rest && p in UsedBy(m, installs, n, name)
        decreases rest
      {
        var n :| n in rest;
        ghost var before, open := shared, rest;
        var found := InstalledEntry(m, installs, n);
        if n != name && found.Some? {
          shared := shared + set f | f in found.value.files :: f.path;
        }
        rest := rest - {n};
        assert shared == before + UsedBy(m, installs, n, name);
        forall p ensures p in shared <==> exists k :: k in installs.Keys - rest && p in UsedBy(m, installs, k, name) {
          if p in before {
            var k :| k in installs.Keys - open && p in UsedBy(m, installs, k, name);
            assert k in installs.Keys - rest;
          } else if p in UsedBy(m, installs, n, name) {
            assert n in installs.Keys - rest;
          }
        }
      }
    }
  }

  lemma InstallKeepsInstalled(m: Manifest, installs: map<string, InstallStatus>, disk: Disk, table: Table,
                              disk': Disk, table': Table, but: set<string>)
    requires Keeps(m, disk, table, disk', table') && InstalledLoads(m, installs, disk, table, but)
    ensures InstalledLoads(m, installs, disk', table', but)
  {
    forall n | n in installs && n !in but && InstalledEntry(m, installs, n).Some?
      ensures CheckOk(disk', table', InstalledEntry(m, installs, n).value)
    {
      GetFinds(m, n);
      KeepsChecks(m, disk, table, disk', table', InstalledEntry(m, installs, n).value);
    }
  }
}
