/** The watermark file shared by several processes: each folds its own marks into what it read
    and renames the result into place, with no lock (`oplog/watermark.rs`). */
module MarksFile {
  import opened Options
  import opened OpLog
  import opened Watermarks

  /** One process: the marks it verified or loaded, whether an advance of them is yet to be written,
      and, between reading the file back and the rename, what it read. Its own mutex keeps `mine`
      still from the advance to the end of the write. */
  datatype Proc = Proc(mine: Marks, dirty: bool, read: Option<Marks>)

  datatype Disk = Disk(file: Marks, procs: map<nat, Proc>)

  /** An unreadable file counts as empty, at a load and at a fold alike. */
  datatype Step =
    | Load(p: nat, readable: bool)
    | Observe(p: nat, heads: seq<Head>)
    | ReadBack(p: nat, readable: bool)
    | Rename(p: nat)
    | Abandon(p: nat)
    | Exit(p: nat)

  predicate Idle(d: Disk, p: nat) { p in d.procs && !d.procs[p].dirty && d.procs[p].read == None }

  predicate Dirty(d: Disk, p: nat) { p in d.procs && d.procs[p].dirty && d.procs[p].read == None }

  predicate Pending(d: Disk, p: nat) { p in d.procs && d.procs[p].read.Some? }

  function Contents(d: Disk, readable: bool): Marks { if readable then d.file else map[] }

  function With(d: Disk, p: nat, proc: Proc): Disk { d.(procs := d.procs[p := proc]) }

  /** A step that is not enabled does nothing. A write follows an advance and nothing else; `Abandon`
      is a write that failed. */
  function Next(d: Disk, s: Step): Disk {
    match s
    case Load(p, readable) => With(d, p, Proc(Contents(d, readable), false, None))
    case Observe(p, heads) =>
      if Idle(d, p) then
        var mine := AdvanceAll(d.procs[p].mine, heads);
        With(d, p, Proc(mine, mine != d.procs[p].mine, None))
      else d
    case ReadBack(p, readable) =>
      if Dirty(d, p) then With(d, p, d.procs[p].(read := Some(Contents(d, readable)))) else d
    case Rename(p) =>
      if Pending(d, p) then
        With(d, p, Proc(d.procs[p].mine, false, None)).(file := Merged(d.procs[p].read.value, d.procs[p].mine))
      else d
    case Abandon(p) => if p in d.procs then With(d, p, Proc(d.procs[p].mine, false, None)) else d
    case Exit(p) => d.(procs := d.procs - {p})
  }

  /** The state after the first `k` steps. */
  function At(d: Disk, steps: seq<Step>, k: nat): Disk
    requires k <= |steps|
  {
    if k == 0 then d else Next(At(d, steps, k - 1), steps[k - 1])
  }

  // ---------------------------------------------------------------- every run

  ghost predicate Keyed(d: Disk) {
    && WellKeyed(d.file)
    && forall p :: p in d.procs ==>
       WellKeyed(d.procs[p].mine) && (d.procs[p].read.Some? ==> WellKeyed(d.procs[p].read.value))
  }

  lemma MergedKeyed(onDisk: Marks, mine: Marks)
    requires WellKeyed(onDisk) && WellKeyed(mine)
    ensures WellKeyed(Merged(onDisk, mine))
  {
  }

  lemma NextKeyed(d: Disk, s: Step)
    requires Keyed(d)
    ensures Keyed(Next(d, s))
  {
    match s {
      case Observe(p, heads) => if Idle(d, p) { NeverLowered(d.procs[p].mine, heads); }
      case Rename(p) => if Pending(d, p) { MergedKeyed(d.procs[p].read.value, d.procs[p].mine); }
      case _ =>
    }
  }

  lemma {:induction false} AtKeyed(d: Disk, steps: seq<Step>, k: nat)
    requires Keyed(d) && k <= |steps|
    ensures Keyed(At(d, steps, k))
  {
    if k > 0 {
      AtKeyed(d, steps, k - 1);
      NextKeyed(At(d, steps, k - 1), steps[k - 1]);
    }
  }

  ghost predicate Holds(marks: Marks, h: Head) { exists a :: a in marks && marks[a] == h }

  /** The mark is somewhere on this machine. */
  ghost predicate Anywhere(d: Disk, h: Head) {
    || Holds(d.file, h)
    || exists p :: p in d.procs && InProc(d.procs[p], h)
  }

  ghost predicate InProc(proc: Proc, h: Head) {
    Holds(proc.mine, h) || (proc.read.Some? && Holds(proc.read.value, h))
  }

  ghost predicate ObservedBefore(steps: seq<Step>, k: nat, h: Head)
    requires k <= |steps|
  {
    exists i: nat :: i < k && steps[i].Observe? && h in steps[i].heads
  }

  lemma {:induction false} AdvancedHolds(marks: Marks, heads: seq<Head>, h: Head)
    requires Holds(AdvanceAll(marks, heads), h)
    ensures Holds(marks, h) || h in heads
  {
    if heads != [] {
      var n := |heads| - 1;
      var before := AdvanceAll(marks, heads[..n]);
      var a :| a in AdvanceAll(marks, heads) && AdvanceAll(marks, heads)[a] == h;
      if h != heads[n] {
        assert a in before && before[a] == h;
        AdvancedHolds(marks, heads[..n], h);
      }
    }
  }

  lemma MergedHolds(onDisk: Marks, mine: Marks, h: Head)
    requires Holds(Merged(onDisk, mine), h)
    ensures Holds(onDisk, h) || Holds(mine, h)
  {
    var a :| a in Merged(onDisk, mine) && Merged(onDisk, mine)[a] == h;
    assert MarkOf(Merged(onDisk, mine), a) == Some(h);
    assert MarkOf(onDisk, a) == Some(h) || MarkOf(mine, a) == Some(h);
  }

  lemma ProcHolds(d: Disk, p: nat, h: Head)
    requires p in d.procs && InProc(d.procs[p], h)
    ensures Anywhere(d, h)
  {
  }

  lemma NextHolds(d: Disk, s: Step, h: Head)
    requires Anywhere(Next(d, s), h)
    ensures Anywhere(d, h) || (s.Observe? && h in s.heads)
  {
    var e := Next(d, s);
    if Holds(e.file, h) {
      if s.Rename? && Pending(d, s.p) {
        MergedHolds(d.procs[s.p].read.value, d.procs[s.p].mine, h);
        ProcHolds(d, s.p, h);
      }
    } else {
      var p :| p in e.procs && InProc(e.procs[p], h);
      if s.Observe? && p == s.p && Idle(d, p) && Holds(e.procs[p].mine, h) {
        AdvancedHolds(d.procs[p].mine, s.heads, h);
      }
      if p in d.procs && InProc(d.procs[p], h) { ProcHolds(d, p, h); }
    }
  }

  /** No mark is invented: whatever is remembered was there at the start or verified by a read. */
  lemma {:induction false} MarksWereVerified(d: Disk, steps: seq<Step>, k: nat, h: Head)
    requires k <= |steps| && Anywhere(At(d, steps, k), h)
    ensures Anywhere(d, h) || ObservedBefore(steps, k, h)
  {
    if k > 0 {
      NextHolds(At(d, steps, k - 1), steps[k - 1], h);
      if Anywhere(At(d, steps, k - 1), h) { MarksWereVerified(d, steps, k - 1, h); }
    }
  }

  // ---------------------------------------------------------------- what one process keeps

  /** No step between `i` and `j` is of process `p`. */
  ghost predicate Quiet(steps: seq<Step>, p: nat, i: nat, j: nat)
    requires i <= j <= |steps|
  {
    forall k :: i <= k < j ==> steps[k].p != p
  }

  /** Process `p` is neither restarted nor gone between `i` and `j`. */
  ghost predicate Lives(steps: seq<Step>, p: nat, i: nat, j: nat)
    requires i <= j <= |steps|
  {
    forall k :: i <= k < j ==> steps[k] != Exit(p) && !(steps[k].Load? && steps[k].p == p)
  }

  lemma {:induction false} QuietKeeps(d: Disk, steps: seq<Step>, p: nat, i: nat, j: nat)
    requires i <= j <= |steps| && Quiet(steps, p, i, j) && p in At(d, steps, i).procs
    ensures p in At(d, steps, j).procs && At(d, steps, j).procs[p] == At(d, steps, i).procs[p]
    decreases j
  {
    if i < j { QuietKeeps(d, steps, p, i, j - 1); }
  }

  lemma RisesTrans(x: Marks, y: Marks, z: Marks)
    requires Rises(x, y) && Rises(y, z)
    ensures Rises(x, z)
  {
  }

  lemma MemoryStep(d: Disk, s: Step, p: nat)
    requires Keyed(d) && p in d.procs && s != Exit(p) && !(s.Load? && s.p == p)
    ensures p in Next(d, s).procs && Rises(d.procs[p].mine, Next(d, s).procs[p].mine)
  {
    if s.Observe? { NeverLowered(d.procs[p].mine, s.heads); }
  }

  /** The marks in memory never fall while the process lives. */
  lemma {:induction false} MemoryRises(d: Disk, steps: seq<Step>, p: nat, i: nat, j: nat)
    requires Keyed(d) && i <= j <= |steps| && Lives(steps, p, i, j) && p in At(d, steps, i).procs
    ensures p in At(d, steps, j).procs && Rises(At(d, steps, i).procs[p].mine, At(d, steps, j).procs[p].mine)
    decreases j
  {
    if i < j {
      MemoryRises(d, steps, p, i, j - 1);
      AtKeyed(d, steps, j - 1);
      MemoryStep(At(d, steps, j - 1), steps[j - 1], p);
      RisesTrans(At(d, steps, i).procs[p].mine, At(d, steps, j - 1).procs[p].mine, At(d, steps, j).procs[p].mine);
    }
  }

  ghost predicate AtLeast(marks: Marks, a: AuthorKey, lamport: nat) { a in marks && lamport <= marks[a].lamport }

  /** A rename puts back every mark its process has had since it was loaded, whatever other
      processes lost in between. */
  lemma RenameRestores(d: Disk, steps: seq<Step>, p: nat, i: nat, j: nat, a: AuthorKey)
    requires Keyed(d) && i <= j < |steps| && Lives(steps, p, i, j)
    requires p in At(d, steps, i).procs && a in At(d, steps, i).procs[p].mine
    requires steps[j] == Rename(p) && Pending(At(d, steps, j), p)
    ensures AtLeast(At(d, steps, j + 1).file, a, At(d, steps, i).procs[p].mine[a].lamport)
  {
    MemoryRises(d, steps, p, i, j);
    var was := At(d, steps, j).procs[p];
    var file := At(d, steps, j + 1).file;
    assert file == Merged(was.read.value, was.mine);
    assert MarkOf(file, a) == Higher(MarkOf(was.read.value, a), MarkOf(was.mine, a));
  }

  /** From an advance to the end of its write a process's marks stand still, whatever it observes and
      whatever the others do. */
  lemma {:induction false} MarksStandStill(d: Disk, steps: seq<Step>, p: nat, i: nat, j: nat)
    requires i <= j <= |steps| && Lives(steps, p, i, j) && p in At(d, steps, i).procs
    requires At(d, steps, i).procs[p].dirty || At(d, steps, i).procs[p].read.Some?
    requires forall k :: i <= k < j ==> steps[k] != Rename(p) && steps[k] != Abandon(p)
    ensures var was, now := At(d, steps, i), At(d, steps, j);
            && p in now.procs && now.procs[p].mine == was.procs[p].mine
            && now.procs[p].dirty == was.procs[p].dirty
            && (was.procs[p].read.Some? ==> now.procs[p].read == was.procs[p].read)
    decreases j
  {
    if i < j { MarksStandStill(d, steps, p, i, j - 1); }
  }

  /** A write begins only after an advance, and its end, either way, waits for the next one. Only a
      rename that ends a write touches the file. */
  lemma WritesFollowAdvances(d: Disk, s: Step, p: nat)
    requires p in d.procs && p in Next(d, s).procs && s != Load(p, true) && s != Load(p, false)
    ensures var was, now := d.procs[p], Next(d, s).procs[p];
            && (now.read.Some? && was.read == None ==> s.ReadBack? && s.p == p && was.dirty)
            && (now.dirty && !was.dirty ==> s.Observe? && s.p == p && now.mine != was.mine)
            && ((s == Rename(p) && was.read.Some?) || s == Abandon(p) ==> now == Proc(was.mine, false, None))
            && (Next(d, s).file == d.file || (s.Rename? && s.p in d.procs && d.procs[s.p].read.Some?))
  {
  }

  // ---------------------------------------------------------------- what a race loses

  /** Going from `x` to `y`, the mark of `a` is dropped or lowered. */
  ghost predicate Falls(x: Marks, y: Marks, a: AuthorKey) {
    a in x && !AtLeast(y, a, x[a].lamport)
  }

  /** `p` reads the file back at `i` and renames at `j`, with no step of its own in between. */
  ghost predicate Write(d: Disk, steps: seq<Step>, p: nat, i: nat, j: nat) {
    && i < j < |steps| && steps[i].ReadBack? && steps[i].p == p && Dirty(At(d, steps, i), p)
    && Quiet(steps, p, i + 1, j) && steps[j] == Rename(p)
  }

  lemma WriteIs(d: Disk, steps: seq<Step>, p: nat, i: nat, j: nat)
    requires Write(d, steps, p, i, j)
    ensures At(d, steps, j + 1).file ==
            Merged(Contents(At(d, steps, i), steps[i].readable), At(d, steps, i).procs[p].mine)
  {
    assert At(d, steps, i + 1) == Next(At(d, steps, i), steps[i]);
    QuietKeeps(d, steps, p, i + 1, j);
  }

  /** Exactly what a write loses: the marks that stand in the file when it renames and are above
      both what it read back and what its process holds. */
  lemma LosesIff(d: Disk, steps: seq<Step>, p: nat, i: nat, j: nat, a: AuthorKey)
    requires Write(d, steps, p, i, j)
    ensures Falls(At(d, steps, j).file, At(d, steps, j + 1).file, a) <==>
            && a in At(d, steps, j).file
            && !AtLeast(Contents(At(d, steps, i), steps[i].readable), a, At(d, steps, j).file[a].lamport)
            && !AtLeast(At(d, steps, i).procs[p].mine, a, At(d, steps, j).file[a].lamport)
  {
    WriteIs(d, steps, p, i, j);
    var read, mine := Contents(At(d, steps, i), steps[i].readable), At(d, steps, i).procs[p].mine;
    assert MarkOf(Merged(read, mine), a) == Higher(MarkOf(read, a), MarkOf(mine, a));
  }

  /** The file's mark of `a` changed between `i` and `j`, so a rename in between put it there. */
  lemma {:induction false} ChangedByRename(d: Disk, steps: seq<Step>, i: nat, j: nat, a: AuthorKey) returns (k: nat)
    requires i <= j <= |steps| && MarkOf(At(d, steps, i).file, a) != MarkOf(At(d, steps, j).file, a)
    ensures i <= k < j && steps[k].Rename? && Pending(At(d, steps, k), steps[k].p)
    ensures MarkOf(At(d, steps, k + 1).file, a) == MarkOf(At(d, steps, j).file, a)
    decreases j
  {
    k := j - 1;
    if MarkOf(At(d, steps, j - 1).file, a) == MarkOf(At(d, steps, j).file, a) {
      k := ChangedByRename(d, steps, i, j - 1, a);
    }
  }

  /** A write that could read the file loses only what another process renamed into place after
      that read. */
  lemma LossComesFromARace(d: Disk, steps: seq<Step>, p: nat, i: nat, j: nat, a: AuthorKey) returns (k: nat)
    requires Write(d, steps, p, i, j) && steps[i].readable
    requires Falls(At(d, steps, j).file, At(d, steps, j + 1).file, a)
    ensures i < k < j && steps[k].Rename? && steps[k].p != p
    ensures MarkOf(At(d, steps, k + 1).file, a) == MarkOf(At(d, steps, j).file, a)
  {
    LosesIff(d, steps, p, i, j, a);
    assert At(d, steps, i + 1).file == At(d, steps, i).file;
    k := ChangedByRename(d, steps, i + 1, j, a);
  }

  /** The race of two writers that read the same state: the later rename loses exactly the marks
      that the other advanced beyond both the file and the later writer's memory. */
  lemma SameReadLosesIff(d: Disk, steps: seq<Step>, p: nat, i: nat, j: nat, q: nat, r: nat, k: nat, a: AuthorKey)
    requires Write(d, steps, p, i, j) && Write(d, steps, q, r, k) && steps[i].readable && steps[r].readable
    requires r < k && i < k < j && At(d, steps, r).file == At(d, steps, i).file
    requires At(d, steps, j).file == At(d, steps, k + 1).file
    ensures Falls(At(d, steps, j).file, At(d, steps, j + 1).file, a) <==>
            && a in At(d, steps, r).procs[q].mine
            && !AtLeast(At(d, steps, i).file, a, At(d, steps, r).procs[q].mine[a].lamport)
            && !AtLeast(At(d, steps, i).procs[p].mine, a, At(d, steps, r).procs[q].mine[a].lamport)
  {
    LosesIff(d, steps, p, i, j, a);
    WriteIs(d, steps, q, r, k);
    var file, mine := At(d, steps, i).file, At(d, steps, r).procs[q].mine;
    assert MarkOf(Merged(file, mine), a) == Higher(MarkOf(file, a), MarkOf(mine, a));
  }

  /** Every rename writes over the very contents it read back. */
  ghost predicate NoRace(d: Disk, steps: seq<Step>) {
    forall k: nat :: k < |steps| && steps[k].Rename? && Pending(At(d, steps, k), steps[k].p) ==>
      At(d, steps, k).procs[steps[k].p].read == Some(At(d, steps, k).file)
  }

  /** Without such a race and without an unreadable file, no mark in the file ever falls. */
  lemma {:induction false} FileRises(d: Disk, steps: seq<Step>, i: nat, j: nat)
    requires NoRace(d, steps) && i <= j <= |steps|
    ensures Rises(At(d, steps, i).file, At(d, steps, j).file)
    decreases j
  {
    if i < j {
      FileRises(d, steps, i, j - 1);
      RisesTrans(At(d, steps, i).file, At(d, steps, j - 1).file, At(d, steps, j).file);
    }
  }

  // ---------------------------------------------------------------- more than one advance

  lemma AdvanceOne(marks: Marks, h: Head)
    requires h.author !in marks
    ensures AdvanceAll(marks, [h]) == marks[h.author := h]
            && Merged(marks, marks[h.author := h]) == marks[h.author := h]
  {
    assert [h][..0] == [];
    assert AdvanceAll(marks, [h][..0]) == marks;
    MarksEqual(Merged(marks, marks[h.author := h]), marks[h.author := h]);
  }

  /** Process 0 learns a head and writes it, while the others stay where they are. */
  lemma OneWrite(d: Disk, h: Head)
    requires Idle(d, 0) && d.procs[0].mine == d.file && h.author !in d.file
    ensures Next(Next(Next(d, Observe(0, [h])), ReadBack(0, true)), Rename(0)) ==
            Disk(d.file[h.author := h], d.procs[0 := Proc(d.file[h.author := h], false, None)])
  {
    AdvanceOne(d.file, h);
    var mine := d.file[h.author := h];
    assert h.author in mine && mine != d.file;
    var e := Next(d, Observe(0, [h]));
    assert e == Disk(d.file, d.procs[0 := Proc(mine, true, None)]);
    var f := Next(e, ReadBack(0, true));
    assert f == Disk(d.file, d.procs[0 := Proc(mine, true, Some(d.file))]);
  }

  lemma WriteAt(d: Disk, steps: seq<Step>, k: nat, h: Head)
    requires k + 3 <= |steps| && steps[k] == Observe(0, [h]) && steps[k + 1] == ReadBack(0, true)
             && steps[k + 2] == Rename(0)
    requires Idle(At(d, steps, k), 0) && At(d, steps, k).procs[0].mine == At(d, steps, k).file
             && h.author !in At(d, steps, k).file
    ensures At(d, steps, k + 3) ==
            var e := At(d, steps, k);
              Disk(e.file[h.author := h], e.procs[0 := Proc(e.file[h.author := h], false, None)])
  {
    assert At(d, steps, k + 1) == Next(At(d, steps, k), steps[k]);
    assert At(d, steps, k + 2) == Next(At(d, steps, k + 1), steps[k + 1]);
    OneWrite(At(d, steps, k), h);
  }

  lemma TwoWritesFiled(d: Disk, steps: seq<Step>, k: nat, g: Head, h: Head)
    requires k + 6 <= |steps| && g.author != h.author
    requires steps[k] == Observe(0, [g]) && steps[k + 1] == ReadBack(0, true) && steps[k + 2] == Rename(0)
    requires steps[k + 3] == Observe(0, [h]) && steps[k + 4] == ReadBack(0, true) && steps[k + 5] == Rename(0)
    requires var e := At(d, steps, k);
             e.file == map[] && 0 in e.procs && e.procs[0] == Proc(map[], false, None) && 1 in e.procs
    ensures At(d, steps, k + 3).file == map[g.author := g]
    ensures At(d, steps, k + 6).file == map[g.author := g, h.author := h]
    ensures 1 in At(d, steps, k + 6).procs && At(d, steps, k + 6).procs[1] == At(d, steps, k).procs[1]
  {
    WriteAt(d, steps, k, g);
    WriteAt(d, steps, k + 3, h);
  }

  /** A pending write over an empty read files its own head and nothing else. */
  lemma StalledRename(d: Disk, p: nat, f: Head)
    requires p in d.procs && d.procs[p] == Proc(map[f.author := f], true, Some(map[]))
    ensures Next(d, Rename(p)).file == map[f.author := f]
  {
    var none: Marks := map[];
    assert none[f.author := f] == map[f.author := f];
    AdvanceOne(none, f);
  }

  const NOTHING := Disk(map[], map[])

  /** Two processes start. The second learns a head and reads the file back, and stalls. */
  function Stalls(f: Head): seq<Step> { [Load(0, true), Load(1, true), Observe(1, [f]), ReadBack(1, true)] }

  function TwoWrites(g: Head, h: Head): seq<Step> {
    [Observe(0, [g]), ReadBack(0, true), Rename(0)] + [Observe(0, [h]), ReadBack(0, true), Rename(0)]
  }

  /** Then the first writes twice, and the second renames. */
  function Race(f: Head, g: Head, h: Head): seq<Step> { Stalls(f) + TwoWrites(g, h) + [Rename(1)] }

  function Stalled(f: Head): Disk {
    Disk(map[], map[0 := Proc(map[], false, None), 1 := Proc(map[f.author := f], true, Some(map[]))])
  }

  lemma BothLoad()
    ensures Next(Next(NOTHING, Load(0, true)), Load(1, true)) ==
            Disk(map[], map[0 := Proc(map[], false, None), 1 := Proc(map[], false, None)])
  {
  }

  lemma LearnsAndReads(d: Disk, p: nat, f: Head)
    requires d.file == map[] && p in d.procs && d.procs[p] == Proc(map[], false, None)
    ensures Next(Next(d, Observe(p, [f])), ReadBack(p, true)) == With(d, p, Proc(map[f.author := f], true, Some(map[])))
  {
    var none: Marks := map[];
    AdvanceOne(none, f);
    var mine := none[f.author := f];
    assert mine == map[f.author := f] && f.author in mine && mine != none;
    assert Next(d, Observe(p, [f])) == With(d, p, Proc(mine, true, None));
  }

  lemma StalledAt(d: Disk, steps: seq<Step>, k: nat, f: Head)
    requires k + 4 <= |steps| && steps[k] == Load(0, true) && steps[k + 1] == Load(1, true)
    requires steps[k + 2] == Observe(1, [f]) && steps[k + 3] == ReadBack(1, true) && At(d, steps, k) == NOTHING
    ensures At(d, steps, k + 4) == Stalled(f)
  {
    BothLoad();
    var e := Next(Next(NOTHING, Load(0, true)), Load(1, true));
    LearnsAndReads(e, 1, f);
    AtFour(d, steps, k);
    assert With(e, 1, Proc(map[f.author := f], true, Some(map[]))) == Stalled(f);
  }

  lemma AtFour(d: Disk, steps: seq<Step>, k: nat)
    requires k + 4 <= |steps|
    ensures At(d, steps, k + 4) ==
            Next(Next(Next(Next(At(d, steps, k), steps[k]), steps[k + 1]), steps[k + 2]), steps[k + 3])
  {
    assert At(d, steps, k + 1) == Next(At(d, steps, k), steps[k]);
    assert At(d, steps, k + 2) == Next(At(d, steps, k + 1), steps[k + 1]);
    assert At(d, steps, k + 3) == Next(At(d, steps, k + 2), steps[k + 2]);
  }

  /** A race may lose more than the other's single advance: from an empty machine there is a run whose
      last rename undoes two complete writes of another process. */
  lemma TwoAdvancesLost(f: Head, g: Head, h: Head)
    requires f.author != g.author && g.author != h.author && f.author != h.author
    ensures At(NOTHING, Race(f, g, h), 7).file == map[g.author := g]
    ensures At(NOTHING, Race(f, g, h), 10).file == map[g.author := g, h.author := h]
    ensures At(NOTHING, Race(f, g, h), 11).file == map[f.author := f]
  {
    var steps, middle := Race(f, g, h), TwoWrites(g, h);
    assert steps[0] == Stalls(f)[0] && steps[1] == Stalls(f)[1] && steps[2] == Stalls(f)[2] && steps[3] == Stalls(f)[3];
    StalledAt(NOTHING, steps, 0, f);
    assert steps[4] == middle[0] && steps[5] == middle[1] && steps[6] == middle[2];
    assert steps[7] == middle[3] && steps[8] == middle[4] && steps[9] == middle[5];
    TwoWritesFiled(NOTHING, steps, 4, g, h);
    assert steps[10] == Rename(1);
    StalledRename(At(NOTHING, steps, 10), 1, f);
  }
}
