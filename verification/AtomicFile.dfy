/** Exclusive temp, write, sync, rename (`atomic_file.rs`): one call, and any interleaving of
    calls with process crashes and power loss. */
module AtomicFiles {
  import opened Options

  /** A name in the target's directory. Temp names carry a random stem; no target is one. */
  datatype Path = Temp(stem: nat) | Named(name: nat)

  type Bytes = seq<nat>

  const CREATE_ATTEMPTS := 16

  // ---------------------------------------------------------------- one call

  datatype Step = Fine | Error

  /** What the operating system answers to each call after the temp exists. */
  datatype Answers = Answers(write: Step, sync: Step, rename: Step)

  /** The first `n` names are all held. */
  predicate Taken(files: map<Path, Bytes>, stems: seq<nat>, n: nat)
    requires n <= |stems|
  {
    forall i :: 0 <= i < n ==> Temp(stems[i]) in files
  }

  class FileSystem {
    var files: map<Path, Bytes>

    constructor ()
      ensures files == map[]
    {
      files := map[];
    }

    /** `create_in_with`: the first of at most sixteen names that nothing holds yet, created empty.
        `broken` makes `open_exclusive` fail for another reason at that attempt. */
    method CreateIn(stems: seq<nat>, broken: Option<nat>) returns (temp: Option<Path>, tries: nat)
      requires |stems| >= CREATE_ATTEMPTS
      modifies this
      ensures tries <= CREATE_ATTEMPTS
      ensures temp.Some? ==>
              tries > 0 && temp == Some(Temp(stems[tries - 1])) && temp.value !in old(files)
              && files == old(files)[temp.value := []]
      ensures temp == None ==> files == old(files)
      ensures temp == None <==>
              Taken(old(files), stems, CREATE_ATTEMPTS)
              || (broken.Some? && broken.value < CREATE_ATTEMPTS && Taken(old(files), stems, broken.value))
    {
      tries := 0;
      while tries < CREATE_ATTEMPTS
        invariant tries <= CREATE_ATTEMPTS && files == old(files)
        invariant Taken(files, stems, tries) && (broken.Some? ==> broken.value >= tries)
      {
        var path := Temp(stems[tries]);
        if broken == Some(tries) { return None, tries + 1; }
        tries := tries + 1;
        if path !in files {
          files := files[path := []];
          return Some(path), tries;
        }
      }
      temp := None;
    }

    method Remove(path: Path)
      modifies this
      ensures files == old(files) - {path}
    {
      files := files - {path};
    }

    /** `write_atomically`: the whole replacement or nothing, and no temp either way. */
    method WriteAtomically(target: Path, bytes: Bytes, stems: seq<nat>, broken: Option<nat>, answers: Answers)
      returns (ok: bool)
      requires target.Named? && |stems| >= CREATE_ATTEMPTS
      modifies this
      ensures files == if ok then old(files)[target := bytes] else old(files)
      ensures answers == Answers(Fine, Fine, Fine) && broken == None ==>
                (ok <==> !Taken(old(files), stems, CREATE_ATTEMPTS))
    {
      var temp, tries := CreateIn(stems, broken);
      if temp == None { return false; }
      var path := temp.value;
      ok := answers.write == Fine;
      if ok {
        files := files[path := bytes];
        ok := answers.sync == Fine;
      }
      if ok && answers.rename == Fine {
        files := files[target := files[path]] - {path};
      } else {
        ok := false;
        Remove(path);
      }
      assert files == if ok then old(files)[target := bytes] else old(files);
    }
  }

  // ---------------------------------------------------------------- interleaved writers

  type Inode = nat
  type Pid = nat

  /** A file's bytes, and whether they have reached the disk. */
  datatype Data = Data(bytes: Bytes, synced: bool)

  datatype Stage =
    | Naming(tries: nat)
    | Writing(temp: Path, inode: Inode, written: nat)
    | Synced(temp: Path, inode: Inode)
    | Closed(ok: bool)
    | Crashed

  datatype Writer = Writer(target: Path, bytes: Bytes, stage: Stage)

  datatype Link = Link(path: Path, inode: Inode)

  /** The directory; every link it has had and every name it has lacked since the start (entries
      are not synced, so power loss may bring any of them back); and the bytes of the files. */
  datatype Disk = Disk(dir: map<Path, Inode>, links: set<Link>, gaps: set<Path>, data: map<Inode, Data>)

  /** `litter` are the temps that crashes left. */
  datatype World = World(disk: Disk, writers: map<Pid, Writer>, litter: set<Path>)

  function Staged(w: World, disk: Disk, p: Pid, s: Stage): World
    requires p in w.writers
  {
    w.(disk := disk, writers := w.writers[p := w.writers[p].(stage := s)])
  }

  function Linked(d: Disk, path: Path, i: Inode): Disk {
    d.(dir := d.dir[path := i],
       links := d.links + {Link(path, i)},
       gaps := if path in d.dir then d.gaps else d.gaps + {path})
  }

  function Unlinked(d: Disk, path: Path): Disk {
    d.(dir := d.dir - {path}, gaps := d.gaps + {path})
  }

  function Stored(d: Disk, i: Inode, x: Data): Disk {
    d.(data := d.data[i := x])
  }

  ghost predicate Create(w: World, v: World, p: Pid, stem: nat, i: Inode) {
    && p in w.writers && w.writers[p].stage.Naming? && w.writers[p].stage.tries < CREATE_ATTEMPTS
    && i !in w.disk.data
    && Temp(stem) !in w.disk.dir
    && v == Staged(w, Stored(Linked(w.disk, Temp(stem), i), i, Data([], false)), p, Writing(Temp(stem), i, 0))
  }

  /** The name is taken: another one, or after the sixteenth an error. */
  ghost predicate Collide(w: World, v: World, p: Pid, stem: nat) {
    && p in w.writers && w.writers[p].stage.Naming? && w.writers[p].stage.tries < CREATE_ATTEMPTS
    && Temp(stem) in w.disk.dir
    && var tries := w.writers[p].stage.tries + 1;
       v == Staged(w, w.disk, p, if tries == CREATE_ATTEMPTS then Closed(false) else Naming(tries))
  }

  ghost predicate WriteMore(w: World, v: World, p: Pid, n: nat) {
    && p in w.writers && w.writers[p].stage.Writing?
    && var s := w.writers[p].stage;
       && s.written <= n <= |w.writers[p].bytes|
       && v == Staged(w, Stored(w.disk, s.inode, Data(w.writers[p].bytes[..n], false)), p, Writing(s.temp, s.inode, n))
  }

  ghost predicate Sync(w: World, v: World, p: Pid) {
    && p in w.writers && w.writers[p].stage.Writing? && w.writers[p].stage.written == |w.writers[p].bytes|
    && var s := w.writers[p].stage;
       v == Staged(w, Stored(w.disk, s.inode, Data(w.writers[p].bytes, true)), p, Synced(s.temp, s.inode))
  }

  ghost predicate Rename(w: World, v: World, p: Pid) {
    && p in w.writers && w.writers[p].stage.Synced?
    && var s := w.writers[p].stage;
       v == Staged(w, Unlinked(Linked(w.disk, w.writers[p].target, s.inode), s.temp), p, Closed(true))
  }

  predicate HasTemp(s: Stage) { s.Writing? || s.Synced? }

  /** Any error while the temp exists drops it; an error before leaves nothing to drop. */
  ghost predicate Fail(w: World, v: World, p: Pid) {
    && p in w.writers
    && var s := w.writers[p].stage;
       && (s.Naming? || HasTemp(s))
       && v == Staged(w, if HasTemp(s) then Unlinked(w.disk, s.temp) else w.disk, p, Closed(false))
  }

  ghost predicate Crash(w: World, v: World, p: Pid) {
    && p in w.writers
    && var s := w.writers[p].stage;
       v == Staged(w, w.disk, p, Crashed).(litter := if HasTemp(s) then w.litter + {s.temp} else w.litter)
  }

  /** What a disk may hold after power loss: any past entry of each name, and bytes that were not
      synced may be anything. */
  ghost predicate Survives(d: Disk, e: Disk) {
    && (forall x :: x in e.dir ==> Link(x, e.dir[x]) in d.links)
    && (forall x :: x in d.dir && x !in e.dir ==> x in d.gaps)
    && e.links == d.links && e.gaps == d.gaps && e.data.Keys == d.data.Keys
    && (forall i :: i in d.data && d.data[i].synced ==> e.data[i] == d.data[i])
  }

  ghost predicate PowerLoss(w: World, v: World) {
    && Survives(w.disk, v.disk)
    && v.writers.Keys == w.writers.Keys
    && (forall p :: p in w.writers ==> v.writers[p] == w.writers[p].(stage := Crashed))
    && v.litter == w.litter + set x | x in v.disk.dir && x.Temp?
  }

  ghost predicate WriterStep(w: World, v: World, p: Pid) {
    || (exists stem, i :: Create(w, v, p, stem, i))
    || (exists stem :: Collide(w, v, p, stem))
    || (exists n: nat :: WriteMore(w, v, p, n))
    || Sync(w, v, p)
    || Rename(w, v, p)
    || Fail(w, v, p)
    || Crash(w, v, p)
  }

  ghost predicate Next(w: World, v: World) {
    (exists p :: WriterStep(w, v, p)) || PowerLoss(w, v)
  }

  /** Some files are there, all on disk; some writers are about to start. */
  ghost predicate Init(w: World) {
    && w.disk.links == (set x | x in w.disk.dir :: Link(x, w.disk.dir[x]))
    && w.disk.gaps == {}
    && (forall x :: x in w.disk.dir ==> w.disk.dir[x] in w.disk.data)
    && (forall i :: i in w.disk.data ==> w.disk.data[i].synced)
    && (forall p :: p in w.writers ==> w.writers[p].target.Named? && w.writers[p].stage == Naming(0))
    && w.litter == {}
  }

  ghost predicate Run(run: seq<World>) {
    run != [] && Init(run[0]) && forall i :: 0 <= i < |run| - 1 ==> Next(run[i], run[i + 1])
  }

  // ---------------------------------------------------------------- what every step keeps

  ghost predicate IsTarget(w0: World, x: Path) {
    exists p :: p in w0.writers && w0.writers[p].target == x
  }

  /** `b` is what `x` held at the start, or all the bytes of a writer of `x`. */
  ghost predicate Whole(w0: World, x: Path, b: Bytes) {
    || (x in w0.disk.dir && w0.disk.dir[x] in w0.disk.data && b == w0.disk.data[w0.disk.dir[x]].bytes)
    || (exists p :: p in w0.writers && w0.writers[p].target == x && w0.writers[p].bytes == b)
  }

  ghost predicate SameWriter(a: Writer, b: Writer) {
    a.target == b.target && a.bytes == b.bytes && a.target.Named?
  }

  ghost predicate SameWriters(w0: World, writers: map<Pid, Writer>) {
    writers.Keys == w0.writers.Keys && forall p :: p in writers ==> SameWriter(w0.writers[p], writers[p])
  }

  /** What a link of a name other than a temp leads to is whole, on disk, and of a known name. */
  ghost predicate Settled(w0: World, data: map<Inode, Data>, l: Link) {
    && l.inode in data && data[l.inode].synced
    && Whole(w0, l.path, data[l.inode].bytes)
    && (IsTarget(w0, l.path) || (l.path in w0.disk.dir && l.inode == w0.disk.dir[l.path]))
  }

  ghost predicate NamedSettled(w0: World, d: Disk) {
    forall l :: l in d.links && l.path.Named? ==> Settled(w0, d.data, l)
  }

  /** The directory's entries are among the links, and no link is dangling. */
  ghost predicate Recorded(d: Disk) {
    && (forall x :: x in d.dir ==> Link(x, d.dir[x]) in d.links)
    && (forall l :: l in d.links ==> l.inode in d.data)
  }

  /** Names there at the start were never missing, temp names among them never relinked, and no
      file there at the start was written. */
  ghost predicate OldStays(w0: World, d: Disk) {
    && (forall x :: x in w0.disk.dir ==> x in d.dir && x !in d.gaps)
    && (forall l :: l in d.links && l.path.Temp? && l.path in w0.disk.dir ==> l.inode == w0.disk.dir[l.path])
    && (forall i :: i in w0.disk.data ==> i in d.data && d.data[i] == w0.disk.data[i] && d.data[i].synced)
  }

  /** A live temp: not there at the start, linked, and the only name its file ever had. */
  ghost predicate Private(w0: World, d: Disk, temp: Path, i: Inode) {
    && temp.Temp? && temp !in w0.disk.dir && temp in d.dir && d.dir[temp] == i
    && i in d.data && i !in w0.disk.data
    && forall l :: l in d.links && l.inode == i ==> l.path == temp
  }

  ghost predicate StageGood(w0: World, d: Disk, wr: Writer) {
    match wr.stage
    case Naming(tries) => tries < CREATE_ATTEMPTS
    case Writing(temp, i, n) => Private(w0, d, temp, i) && n <= |wr.bytes| && d.data[i] == Data(wr.bytes[..n], false)
    case Synced(temp, i) => Private(w0, d, temp, i) && d.data[i] == Data(wr.bytes, true)
    case _ => true
  }

  ghost predicate StagesGood(w0: World, d: Disk, writers: map<Pid, Writer>) {
    forall p :: p in writers ==> StageGood(w0, d, writers[p])
  }

  ghost predicate Holds(writers: map<Pid, Writer>, p: Pid, x: Path) {
    p in writers && HasTemp(writers[p].stage) && writers[p].stage.temp == x
  }

  /** No two writers share a temp. */
  ghost predicate Apart(writers: map<Pid, Writer>) {
    forall p, q, x :: Holds(writers, p, x) && Holds(writers, q, x) ==> p == q
  }

  /** Every temp in the directory was there at the start, is litter, or is some writer's. */
  ghost predicate Accounted(w0: World, d: Disk, writers: map<Pid, Writer>, litter: set<Path>) {
    forall x :: x in d.dir && x.Temp? ==> x in w0.disk.dir || x in litter || exists p :: Holds(writers, p, x)
  }

  ghost predicate DiskGood(w0: World, d: Disk) {
    NamedSettled(w0, d) && Recorded(d) && OldStays(w0, d)
  }

  ghost predicate WritersGood(w0: World, w: World) {
    && SameWriters(w0, w.writers) && StagesGood(w0, w.disk, w.writers) && Apart(w.writers)
    && Accounted(w0, w.disk, w.writers, w.litter)
  }

  ghost predicate Invariant(w0: World, w: World) {
    DiskGood(w0, w.disk) && WritersGood(w0, w)
  }

  lemma InitHolds(w: World)
    requires Init(w)
    ensures Invariant(w, w)
  {
  }

  /** `p` moves on, the others stay where they are. */
  ghost predicate Moves(w: World, v: World, p: Pid) {
    && p in w.writers
    && p in v.writers && v.writers == w.writers[p := v.writers[p]]
    && SameWriter(w.writers[p], v.writers[p])
  }

  /** What the step left of the disk does for a writer who did not move. */
  ghost predicate Undisturbed(w0: World, d: Disk, e: Disk, wr: Writer) {
    StageGood(w0, d, wr) ==> StageGood(w0, e, wr)
  }

  /** A step keeps the writers in order if the mover's stage is good, its temp is nobody else's, the
      others are undisturbed, and every temp left in the directory is accounted for. */
  lemma MoveKeeps(w0: World, w: World, v: World, p: Pid)
    requires WritersGood(w0, w) && Moves(w, v, p)
    requires StageGood(w0, v.disk, v.writers[p])
    requires forall q :: q in w.writers && q != p ==> Undisturbed(w0, w.disk, v.disk, w.writers[q])
    requires HasTemp(v.writers[p].stage) ==> forall q :: q != p ==> !Holds(w.writers, q, v.writers[p].stage.temp)
    requires w.litter <= v.litter
    requires forall x :: x in v.disk.dir && x.Temp? ==> x in w.disk.dir || Holds(v.writers, p, x)
    requires HasTemp(w.writers[p].stage) ==> var x := w.writers[p].stage.temp;
             x !in v.disk.dir || x in v.litter || Holds(v.writers, p, x)
    ensures WritersGood(w0, v)
  {
    forall q | q in v.writers ensures StageGood(w0, v.disk, v.writers[q]) {
      if q != p { assert StageGood(w0, w.disk, w.writers[q]) && Undisturbed(w0, w.disk, v.disk, w.writers[q]); }
    }
    assert forall q, x :: q != p ==> (Holds(v.writers, q, x) <==> Holds(w.writers, q, x));
    forall x | x in v.disk.dir && x.Temp? && x !in w0.disk.dir && x !in v.litter
      ensures exists q :: Holds(v.writers, q, x)
    {
      if !Holds(v.writers, p, x) {
        var q :| Holds(w.writers, q, x);
        assert Holds(v.writers, q, x);
      }
    }
  }

  lemma SameDisk(w0: World, w: World, v: World, p: Pid)
    requires Invariant(w0, w) && Moves(w, v, p) && v.disk == w.disk && w.litter <= v.litter
    requires StageGood(w0, v.disk, v.writers[p]) && !HasTemp(v.writers[p].stage)
    requires HasTemp(w.writers[p].stage) ==> w.writers[p].stage.temp in v.litter
    ensures Invariant(w0, v)
  {
    MoveKeeps(w0, w, v, p);
  }

  // ---- creating a temp

  lemma CreateKeeps(w0: World, w: World, v: World, p: Pid, stem: nat, i: Inode)
    requires Invariant(w0, w) && Create(w, v, p, stem, i)
    ensures Invariant(w0, v)
  {
    CreateDisk(w0, w.disk, v.disk, Temp(stem), i);
    forall q | q in w.writers && q != p ensures Undisturbed(w0, w.disk, v.disk, w.writers[q]) {
      CreateElsewhere(w0, w.disk, v.disk, Temp(stem), i, w.writers[q]);
    }
    forall q | q != p ensures !Holds(w.writers, q, Temp(stem)) {
      if q in w.writers { assert StageGood(w0, w.disk, w.writers[q]); }
    }
    assert SameWriter(w0.writers[p], w.writers[p]);
    MoveKeeps(w0, w, v, p);
  }

  lemma CreateDisk(w0: World, d: Disk, e: Disk, path: Path, i: Inode)
    requires DiskGood(w0, d) && path.Temp? && path !in d.dir && i !in d.data
    requires e == Stored(Linked(d, path, i), i, Data([], false))
    ensures DiskGood(w0, e) && Private(w0, e, path, i)
  {
    assert path !in w0.disk.dir;
    assert forall l :: l in d.links ==> l.inode != i;
    forall l | l in e.links && l.path.Named?
      ensures Settled(w0, e.data, l)
    {
      assert l in d.links && Settled(w0, d.data, l);
    }
  }

  lemma CreateElsewhere(w0: World, d: Disk, e: Disk, path: Path, i: Inode, wr: Writer)
    requires path !in d.dir && i !in d.data
    requires e == Stored(Linked(d, path, i), i, Data([], false))
    ensures Undisturbed(w0, d, e, wr)
  {
  }

  // ---- writing and syncing

  /** Writing a file that has no name but a private temp disturbs nothing else. */
  lemma StoreDisk(w0: World, d: Disk, temp: Path, i: Inode, x: Data)
    requires DiskGood(w0, d) && Private(w0, d, temp, i)
    ensures DiskGood(w0, Stored(d, i, x)) && Private(w0, Stored(d, i, x), temp, i)
  {
    var e := Stored(d, i, x);
    forall l | l in e.links && l.path.Named? ensures Settled(w0, e.data, l) { assert Settled(w0, d.data, l); }
  }

  lemma StoreElsewhere(w0: World, d: Disk, i: Inode, x: Data, temp: Path, wr: Writer)
    requires Recorded(d) && Private(w0, d, temp, i) && (HasTemp(wr.stage) ==> wr.stage.temp != temp)
    ensures Undisturbed(w0, d, Stored(d, i, x), wr)
  {
    if HasTemp(wr.stage) && StageGood(w0, d, wr) { assert Link(wr.stage.temp, wr.stage.inode) in d.links; }
  }

  lemma RewriteKeeps(w0: World, w: World, v: World, p: Pid, x: Data)
    requires Invariant(w0, w) && Moves(w, v, p) && v.litter == w.litter
    requires HasTemp(w.writers[p].stage) && HasTemp(v.writers[p].stage)
             && v.writers[p].stage.temp == w.writers[p].stage.temp
    requires v.disk == Stored(w.disk, w.writers[p].stage.inode, x)
    requires Private(w0, w.disk, w.writers[p].stage.temp, w.writers[p].stage.inode)
    requires Private(w0, v.disk, w.writers[p].stage.temp, w.writers[p].stage.inode) ==>
             StageGood(w0, v.disk, v.writers[p])
    ensures Invariant(w0, v)
  {
    var temp, i := w.writers[p].stage.temp, w.writers[p].stage.inode;
    StoreDisk(w0, w.disk, temp, i, x);
    assert Holds(w.writers, p, temp);
    forall q | q in w.writers && q != p ensures Undisturbed(w0, w.disk, v.disk, w.writers[q]) {
      assert !Holds(w.writers, q, temp);
      StoreElsewhere(w0, w.disk, i, x, temp, w.writers[q]);
    }
    MoveKeeps(w0, w, v, p);
  }

  // ---- leaving the temp

  lemma UnlinkDisk(w0: World, d: Disk, temp: Path)
    requires DiskGood(w0, d) && temp.Temp? && temp !in w0.disk.dir
    ensures DiskGood(w0, Unlinked(d, temp))
  {
    var e := Unlinked(d, temp);
    assert forall l :: l in e.links && l.path.Named? ==> Settled(w0, d.data, l);
  }

  lemma UnlinkElsewhere(w0: World, d: Disk, temp: Path, wr: Writer)
    requires HasTemp(wr.stage) ==> wr.stage.temp != temp
    ensures Undisturbed(w0, d, Unlinked(d, temp), wr)
  {
  }

  lemma DropKeeps(w0: World, w: World, v: World, p: Pid)
    requires Invariant(w0, w) && Fail(w, v, p) && HasTemp(w.writers[p].stage)
    ensures Invariant(w0, v)
  {
    var temp := w.writers[p].stage.temp;
    assert StageGood(w0, w.disk, w.writers[p]);
    UnlinkDisk(w0, w.disk, temp);
    assert Holds(w.writers, p, temp);
    forall q | q in w.writers && q != p ensures Undisturbed(w0, w.disk, v.disk, w.writers[q]) {
      assert !Holds(w.writers, q, temp);
      UnlinkElsewhere(w0, w.disk, temp, w.writers[q]);
    }
    assert SameWriter(w0.writers[p], w.writers[p]);
    MoveKeeps(w0, w, v, p);
  }

  lemma LinkDisk(w0: World, d: Disk, target: Path, i: Inode)
    requires DiskGood(w0, d) && target.Named? && IsTarget(w0, target)
    requires i in d.data && d.data[i].synced && Whole(w0, target, d.data[i].bytes)
    ensures DiskGood(w0, Linked(d, target, i))
  {
    var e := Linked(d, target, i);
    forall l | l in e.links && l.path.Named? ensures Settled(w0, e.data, l) {
      if l in d.links { assert Settled(w0, d.data, l); }
    }
  }

  lemma LinkElsewhere(w0: World, d: Disk, target: Path, i: Inode, temp: Path, wr: Writer)
    requires Recorded(d) && target.Named? && Private(w0, d, temp, i) && (HasTemp(wr.stage) ==> wr.stage.temp != temp)
    ensures Undisturbed(w0, d, Linked(d, target, i), wr)
  {
    if HasTemp(wr.stage) && StageGood(w0, d, wr) { assert Link(wr.stage.temp, wr.stage.inode) in d.links; }
  }

  lemma RenameKeeps(w0: World, w: World, v: World, p: Pid)
    requires Invariant(w0, w) && Rename(w, v, p)
    ensures Invariant(w0, v)
  {
    var s, t := w.writers[p].stage, w.writers[p].target;
    assert StageGood(w0, w.disk, w.writers[p]);
    assert SameWriter(w0.writers[p], w.writers[p]);
    assert Whole(w0, t, w.writers[p].bytes) && IsTarget(w0, t);
    var mid := Linked(w.disk, t, s.inode);
    LinkDisk(w0, w.disk, t, s.inode);
    UnlinkDisk(w0, mid, s.temp);
    assert Holds(w.writers, p, s.temp);
    forall q | q in w.writers && q != p ensures Undisturbed(w0, w.disk, v.disk, w.writers[q]) {
      assert !Holds(w.writers, q, s.temp);
      LinkElsewhere(w0, w.disk, t, s.inode, s.temp, w.writers[q]);
      UnlinkElsewhere(w0, mid, s.temp, w.writers[q]);
    }
    MoveKeeps(w0, w, v, p);
  }

  // ---- dying

  lemma PowerLossKeeps(w0: World, w: World, v: World)
    requires Invariant(w0, w) && PowerLoss(w, v)
    ensures Invariant(w0, v)
  {
    SurvivesDisk(w0, w.disk, v.disk);
    forall p | p in v.writers
      ensures SameWriter(w0.writers[p], v.writers[p])
    {
      assert SameWriter(w0.writers[p], w.writers[p]);
    }
  }

  lemma SurvivesDisk(w0: World, d: Disk, e: Disk)
    requires DiskGood(w0, d) && Survives(d, e)
    ensures DiskGood(w0, e)
  {
    forall l | l in e.links && l.path.Named? ensures Settled(w0, e.data, l) { assert Settled(w0, d.data, l); }
  }

  lemma WriterStepKeeps(w0: World, w: World, v: World, p: Pid)
    requires Invariant(w0, w) && WriterStep(w, v, p)
    ensures Invariant(w0, v)
  {
    assert p in w.writers && SameWriter(w0.writers[p], w.writers[p]) && StageGood(w0, w.disk, w.writers[p]);
    if exists stem, i :: Create(w, v, p, stem, i) {
      var stem: nat, i: nat :| Create(w, v, p, stem, i);
      CreateKeeps(w0, w, v, p, stem, i);
    } else if exists n: nat :: WriteMore(w, v, p, n) {
      var n: nat :| WriteMore(w, v, p, n);
      RewriteKeeps(w0, w, v, p, Data(w.writers[p].bytes[..n], false));
    } else if Sync(w, v, p) {
      RewriteKeeps(w0, w, v, p, Data(w.writers[p].bytes, true));
    } else if Rename(w, v, p) {
      RenameKeeps(w0, w, v, p);
    } else if Fail(w, v, p) && HasTemp(w.writers[p].stage) {
      DropKeeps(w0, w, v, p);
    } else {
      SameDisk(w0, w, v, p);
    }
  }

  lemma StepKeeps(w0: World, w: World, v: World)
    requires Invariant(w0, w) && Next(w, v)
    ensures Invariant(w0, v)
  {
    if PowerLoss(w, v) {
      PowerLossKeeps(w0, w, v);
    } else {
      var p :| WriterStep(w, v, p);
      WriterStepKeeps(w0, w, v, p);
    }
  }

  lemma {:induction false} RunKeeps(run: seq<World>)
    requires Run(run)
    ensures Invariant(run[0], run[|run| - 1])
  {
    if |run| == 1 {
      InitHolds(run[0]);
    } else {
      RunKeeps(run[..|run| - 1]);
      StepKeeps(run[0], run[|run| - 2], run[|run| - 1]);
    }
  }

  // ---------------------------------------------------------------- what every run guarantees

  /** At every moment of every run, whatever crashed, a target holds its old contents or the
      complete bytes of one of its writers, and a target that existed never goes missing. */
  lemma TargetsAreNeverTorn(run: seq<World>, x: Path)
    requires Run(run) && x.Named?
    ensures var w0, d := run[0], run[|run| - 1].disk;
            && (x in w0.disk.dir ==> x in d.dir)
            && (x in d.dir ==> d.dir[x] in d.data && Whole(w0, x, d.data[d.dir[x]].bytes))
  {
    RunKeeps(run);
    var w0, d := run[0], run[|run| - 1].disk;
    if x in d.dir { assert Settled(w0, d.data, Link(x, d.dir[x])); }
  }

  /** A name that existed and is no writer's target, a planted temp name included, is never altered. */
  lemma NothingElseIsAltered(run: seq<World>, x: Path)
    requires Run(run) && x in run[0].disk.dir && !IsTarget(run[0], x)
    ensures var d0, d := run[0].disk, run[|run| - 1].disk;
            && x in d.dir && d.dir[x] == d0.dir[x]
            && d0.dir[x] in d0.data && d0.dir[x] in d.data && d.data[d0.dir[x]] == d0.data[d0.dir[x]]
  {
    RunKeeps(run);
    var w0, d := run[0], run[|run| - 1].disk;
    assert Link(x, d.dir[x]) in d.links;
    if x.Named? { assert Settled(w0, d.data, Link(x, d.dir[x])); }
  }

  /** Without a crash no temp outlives its writer: once all are done only targets are new. And no
      writer tries more than sixteen names. */
  lemma ErrorsLeaveNoTemp(run: seq<World>)
    requires Run(run)
    ensures var w0, w := run[0], run[|run| - 1];
            && (forall p :: p in w.writers && w.writers[p].stage.Naming? ==> w.writers[p].stage.tries < 16)
            && (w.litter == {} && (forall p :: p in w.writers ==> w.writers[p].stage.Closed?) ==>
                  forall x :: x in w.disk.dir ==> x in w0.disk.dir || IsTarget(w0, x))
  {
    var w0, w := run[0], run[|run| - 1];
    RunKeeps(run);
    forall p | p in w.writers && w.writers[p].stage.Naming? ensures w.writers[p].stage.tries < CREATE_ATTEMPTS {
      assert StageGood(w0, w.disk, w.writers[p]);
    }
    if w.litter == {} && (forall p :: p in w.writers ==> w.writers[p].stage.Closed?) {
      forall x | x in w.disk.dir ensures x in w0.disk.dir || IsTarget(w0, x) {
        assert Link(x, w.disk.dir[x]) in w.disk.links;
        if x.Named? { assert Settled(w0, w.disk.data, Link(x, w.disk.dir[x])); }
      }
    }
  }

  // ---------------------------------------------------------------- runs that end well, and power loss

  lemma Extends(run: seq<World>, v: World)
    requires Run(run) && Next(run[|run| - 1], v)
    ensures Run(run + [v]) && (run + [v])[0] == run[0]
  {
    forall k | 0 <= k < |run| ensures Next((run + [v])[k], (run + [v])[k + 1]) {
      if k < |run| - 1 { assert Next(run[k], run[k + 1]); }
    }
  }

  /** A temp that has just been created takes all the bytes, reaches the disk and is renamed. */
  lemma TempCompletes(run: seq<World>, p: Pid, temp: Path, i: Inode) returns (longer: seq<World>)
    requires Run(run)
    requires var w := run[|run| - 1]; p in w.writers && w.writers[p].stage == Writing(temp, i, 0)
    ensures Run(longer) && longer[0] == run[0]
    ensures var w, v := run[|run| - 1], longer[|longer| - 1];
            && v.writers == w.writers[p := w.writers[p].(stage := Closed(true))]
            && v.disk.dir == w.disk.dir[w.writers[p].target := i] - {temp}
            && v.disk.data == w.disk.data[i := Data(w.writers[p].bytes, true)]
  {
    var w := run[|run| - 1];
    var wr := w.writers[p];
    assert wr.bytes[..|wr.bytes|] == wr.bytes;
    var written := Staged(w, Stored(w.disk, i, Data(wr.bytes, false)), p, Writing(temp, i, |wr.bytes|));
    assert WriteMore(w, written, p, |wr.bytes|) && WriterStep(w, written, p);
    Extends(run, written);
    var synced := Staged(written, Stored(written.disk, i, Data(wr.bytes, true)), p, Synced(temp, i));
    assert Sync(written, synced, p) && WriterStep(written, synced, p);
    Extends(run + [written], synced);
    var renamed := Staged(synced, Unlinked(Linked(synced.disk, wr.target, i), temp), p, Closed(true));
    assert Rename(synced, renamed, p) && WriterStep(synced, renamed, p);
    Extends(run + [written] + [synced], renamed);
    longer := run + [written] + [synced] + [renamed];
  }

  /** From every start, over a name that nothing holds, a write completes: the target leads to all
      its bytes, on disk, and every other name to what it led to before. */
  lemma WriteCompletes(w: World, p: Pid, stem: nat, i: Inode) returns (run: seq<World>)
    requires Init(w) && p in w.writers && Temp(stem) !in w.disk.dir && i !in w.disk.data
    ensures Run(run) && run[0] == w
    ensures var v := run[|run| - 1];
            && v.writers == w.writers[p := w.writers[p].(stage := Closed(true))]
            && v.disk.dir == w.disk.dir[w.writers[p].target := i]
            && v.disk.data == w.disk.data[i := Data(w.writers[p].bytes, true)]
  {
    var created := Staged(w, Stored(Linked(w.disk, Temp(stem), i), i, Data([], false)), p, Writing(Temp(stem), i, 0));
    assert Create(w, created, p, stem, i) && WriterStep(w, created, p);
    Extends([w], created);
    run := TempCompletes([w] + [created], p, Temp(stem), i);
  }

  lemma {:induction false} LinksStay(run: seq<World>)
    requires Run(run)
    ensures run[0].disk.links <= run[|run| - 1].disk.links
  {
    if |run| > 1 {
      LinksStay(run[..|run| - 1]);
      assert Next(run[|run| - 2], run[|run| - 1]);
    }
  }

  function AllCrashed(writers: map<Pid, Writer>): map<Pid, Writer> {
    map p | p in writers :: writers[p].(stage := Crashed)
  }

  function Temps(dir: map<Path, Inode>): set<Path> { set x | x in dir && x.Temp? }

  /** A replacement is not durable: at any moment of any run power loss may bring back the file a name
      led to at the start, with its bytes. */
  lemma PowerLossMayUndo(run: seq<World>, x: Path) returns (v: World)
    requires Run(run) && x in run[0].disk.dir
    ensures Run(run + [v]) && x in v.disk.dir && v.disk.dir[x] == run[0].disk.dir[x]
    ensures var i := run[0].disk.dir[x];
            i in run[0].disk.data && i in v.disk.data && v.disk.data[i] == run[0].disk.data[i]
  {
    var w := run[|run| - 1];
    RunKeeps(run);
    LinksStay(run);
    var dir := w.disk.dir[x := run[0].disk.dir[x]];
    v := World(w.disk.(dir := dir), AllCrashed(w.writers), w.litter + Temps(dir));
    assert PowerLoss(w, v);
    Extends(run, v);
  }

  ghost predicate LacksKnown(d: Disk, x: Path) { forall l :: l in d.links && l.path == x ==> x in d.gaps }

  lemma WriterLacks(w: World, v: World, p: Pid, x: Path)
    requires Recorded(w.disk) && LacksKnown(w.disk, x) && WriterStep(w, v, p)
    ensures LacksKnown(v.disk, x)
  {
    if x in w.disk.dir { assert Link(x, w.disk.dir[x]) in w.disk.links; }
    if exists stem, i :: Create(w, v, p, stem, i) {
      var stem: nat, i: nat :| Create(w, v, p, stem, i);
      assert v.disk.gaps == Linked(w.disk, Temp(stem), i).gaps && v.disk.links == Linked(w.disk, Temp(stem), i).links;
    } else if Rename(w, v, p) {
      var s := w.writers[p].stage;
      var mid := Linked(w.disk, w.writers[p].target, s.inode);
      assert v.disk.links == mid.links && v.disk.gaps == mid.gaps + {s.temp};
    } else {
      assert v.disk.links == w.disk.links && w.disk.gaps <= v.disk.gaps;
    }
  }

  /** A name that was not there at the start and has had a link is known to have been missing. */
  lemma {:induction false} GapsStay(run: seq<World>, x: Path)
    requires Run(run) && x !in run[0].disk.dir
    ensures LacksKnown(run[|run| - 1].disk, x)
  {
    if |run| > 1 {
      var before, w, v := run[..|run| - 1], run[|run| - 2], run[|run| - 1];
      RunKeeps(before);
      GapsStay(before, x);
      assert Next(w, v);
      if !PowerLoss(w, v) {
        var p :| WriterStep(w, v, p);
        WriterLacks(w, v, p, x);
      }
    }
  }

  /** Or leave a name that was not there at the start missing again. */
  lemma PowerLossMayDrop(run: seq<World>, x: Path) returns (v: World)
    requires Run(run) && x !in run[0].disk.dir
    ensures Run(run + [v]) && v.disk.dir == run[|run| - 1].disk.dir - {x}
  {
    var w := run[|run| - 1];
    RunKeeps(run);
    GapsStay(run, x);
    if x in w.disk.dir { assert Link(x, w.disk.dir[x]) in w.disk.links; }
    var dir := w.disk.dir - {x};
    v := World(w.disk.(dir := dir), AllCrashed(w.writers), w.litter + Temps(dir));
    assert PowerLoss(w, v);
    Extends(run, v);
  }

  /** And bytes that were written to a temp and not synced may turn into any others. */
  lemma PowerLossMayTear(run: seq<World>, p: Pid, torn: Bytes) returns (v: World)
    requires Run(run) && p in run[|run| - 1].writers && run[|run| - 1].writers[p].stage.Writing?
    ensures Run(run + [v]) && v.disk.dir == run[|run| - 1].disk.dir
    ensures var i := run[|run| - 1].writers[p].stage.inode; i in v.disk.data && v.disk.data[i].bytes == torn
  {
    var w := run[|run| - 1];
    RunKeeps(run);
    var i := w.writers[p].stage.inode;
    assert StageGood(run[0], w.disk, w.writers[p]);
    v := World(Stored(w.disk, i, Data(torn, false)), AllCrashed(w.writers), w.litter + Temps(w.disk.dir));
    assert PowerLoss(w, v);
    Extends(run, v);
  }
}
