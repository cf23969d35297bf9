/** The local vault's two advisory locks (`config.rs`) and the processes that take them:
    `serve`, `dashboard`, `upgrade`, and binaries older than the liveness file. */
module VaultLocks {
  import opened Options

  type Pid = nat
  type Root = nat

  datatype LockFile = WriterFile | LivenessFile
  datatype Mode = Shared | Exclusive

  /** One held lock: the file description `owner` keeps open on a lock file of `root`. */
  datatype Hold = Hold(owner: Pid, root: Root, file: LockFile, mode: Mode)

  predicate Conflict(a: Hold, b: Hold) {
    a.root == b.root && a.file == b.file && (a.mode == Exclusive || b.mode == Exclusive)
  }

  /** A non-blocking attempt succeeds exactly when no hold conflicts with it. */
  predicate Free(holds: set<Hold>, want: Hold) {
    forall h :: h in holds ==> !Conflict(h, want)
  }

  /** A lock is refused exactly where the same file of the same vault is held and either is exclusive. */
  lemma RefusedMeans(holds: set<Hold>, want: Hold)
    ensures !Free(holds, want) <==>
            exists pid, mode :: Hold(pid, want.root, want.file, mode) in holds
                                && (mode == Exclusive || want.mode == Exclusive)
  {
    if !Free(holds, want) {
      var h :| h in holds && Conflict(h, want);
      assert h == Hold(h.owner, want.root, want.file, h.mode);
    }
    if pid, mode :| Hold(pid, want.root, want.file, mode) in holds && (mode == Exclusive || want.mode == Exclusive) {
      assert Conflict(Hold(pid, want.root, want.file, mode), want);
    }
  }

  // ---------------------------------------------------------------- the calls

  datatype Backend = S3 | Local(root: Root)
  datatype Attempt = NotLocal | Acquired(lock: Hold) | Held
  datatype Binding = Binding(liveness: Hold, writer: Attempt)
  datatype Outcome<T> = Bound(value: T) | Unguarded | Refused

  /** The operating system's lock table for the vault files. */
  class LockTable {
    var holds: set<Hold>

    constructor ()
      ensures holds == {}
    {
      holds := {};
    }

    /** `try_lock_vault_file`. */
    method TryLockVaultFile(pid: Pid, storage: Backend, file: LockFile, mode: Mode) returns (attempt: Attempt)
      modifies this
      ensures attempt == NotLocal <==> storage == S3
      ensures attempt.Acquired? ==>
              attempt.lock == Hold(pid, storage.root, file, mode) && Free(old(holds), attempt.lock)
              && holds == old(holds) + {attempt.lock}
      ensures attempt == Held ==> !Free(old(holds), Hold(pid, storage.root, file, mode))
      ensures !attempt.Acquired? ==> holds == old(holds)
    {
      if storage == S3 { return NotLocal; }
      var want := Hold(pid, storage.root, file, mode);
      if Free(holds, want) {
        holds := holds + {want};
        attempt := Acquired(want);
      } else {
        attempt := Held;
      }
    }

    /** Dropping a `VaultLock`, or the death of its process. */
    method Release(lock: Hold)
      modifies this
      ensures holds == old(holds) - {lock}
    {
      holds := holds - {lock};
    }

    method ReleaseAll(pid: Pid)
      modifies this
      ensures holds == set h | h in old(holds) && h.owner != pid
    {
      holds := set h | h in holds && h.owner != pid;
    }

    /** `acquire_serve_vault_lock`: refused exactly under a migration, read-only exactly when the
        write role is taken. */
    method AcquireServe(pid: Pid, storage: Backend) returns (out: Outcome<Binding>)
      modifies this
      ensures out == Unguarded <==> storage == S3
      ensures storage.Local? ==> (out == Refused <==> !Free(old(holds), Hold(pid, storage.root, LivenessFile, Shared)))
      ensures out.Bound? ==>
                && out.value.liveness == Hold(pid, storage.root, LivenessFile, Shared)
                && (out.value.writer.Acquired? <==> Free(old(holds), Hold(pid, storage.root, WriterFile, Exclusive)))
                && (out.value.writer.Acquired? ==>
                   out.value.writer.lock == Hold(pid, storage.root, WriterFile, Exclusive))
                && holds == old(holds) + {out.value.liveness} + if out.value.writer.Acquired?
                   then {out.value.writer.lock} else {}
      ensures !out.Bound? ==> holds == old(holds)
    {
      var liveness := TryLockVaultFile(pid, storage, LivenessFile, Shared);
      match liveness
      case NotLocal => return Unguarded;
      case Held => return Refused;
      case Acquired(lock) =>
        var writer := TryLockVaultFile(pid, storage, WriterFile, Exclusive);
        out := Bound(Binding(lock, writer));
    }

    /** `acquire_upgrade_lock`: all or nothing. */
    method AcquireUpgrade(pid: Pid, storage: Backend) returns (out: Outcome<(Hold, Hold)>)
      modifies this
      requires forall h :: h in holds ==> h.owner != pid
      ensures out.Bound? <==>
              storage.Local? && Free(old(holds), Hold(pid, storage.root, LivenessFile, Exclusive))
              && Free(old(holds), Hold(pid, storage.root, WriterFile, Exclusive))
      ensures out.Bound? ==>
              holds == old(holds)
              + {Hold(pid, storage.root, LivenessFile, Exclusive), Hold(pid, storage.root, WriterFile, Exclusive)}
      ensures !out.Bound? ==> out == Refused && holds == old(holds)
    {
      var liveness := TryLockVaultFile(pid, storage, LivenessFile, Exclusive);
      match liveness
      case NotLocal => return Refused;
      case Held => return Refused;
      case Acquired(lock) =>
        var writer := TryLockVaultFile(pid, storage, WriterFile, Exclusive);
        if writer.Acquired? {
          out := Bound((lock, writer.lock));
        } else {
          Release(lock);
          out := Refused;
        }
    }

    /** `write_role_contest`. */
    method Contest(pid: Pid, storage: Backend) returns (won: bool)
      modifies this
      ensures won <==> storage.Local? && Free(old(holds), Hold(pid, storage.root, WriterFile, Exclusive))
      ensures holds == if won then old(holds) + {Hold(pid, storage.root, WriterFile, Exclusive)} else old(holds)
    {
      var attempt := TryLockVaultFile(pid, storage, WriterFile, Exclusive);
      won := attempt.Acquired?;
    }
  }

  // ---------------------------------------------------------------- interleaved processes

  datatype Kind = Serve | Dashboard | Upgrade | OldServe | OldUpgrade

  /** How far a process has come. `Live` is a serve between its two boot attempts, `Probed` an
      upgrade between its two, `Ready` a process at work, with or without the write role. */
  datatype Stage = Booting | Live | Probed | Ready(writes: bool)

  datatype Process = Process(kind: Kind, root: Root, stage: Stage)

  datatype State = State(procs: map<Pid, Process>, holds: set<Hold>)

  datatype Action =
    | Spawn(pid: Pid, kind: Kind, root: Root)
    | Attempts(pid: Pid)   // the next boot-time lock attempt
    | Writes(pid: Pid)     // a write tool call in a serve session
    | Dies(pid: Pid)       // exit, drop, refusal or crash

  function Dead(s: State, pid: Pid): State {
    State(s.procs - {pid}, set h | h in s.holds && h.owner != pid)
  }

  /** Take `want` and go on to `won`, or else to `lost`. */
  function Took(s: State, pid: Pid, want: Hold, won: Stage, lost: State): State
    requires pid in s.procs
  {
    if Free(s.holds, want) then State(s.procs[pid := s.procs[pid].(stage := won)], s.holds + {want}) else lost
  }

  function NextAttempt(s: State, pid: Pid): State
    requires pid in s.procs
  {
    var p := s.procs[pid];
    var writer := Hold(pid, p.root, WriterFile, Exclusive);
    match (p.kind, p.stage)
    case (Serve, Booting) => Took(s, pid, Hold(pid, p.root, LivenessFile, Shared), Live, Dead(s, pid))
    case (Serve, Live) => Took(s, pid, writer, Ready(true), State(s.procs[pid := p.(stage := Ready(false))], s.holds))
    case (Dashboard, Booting) => Took(s, pid, Hold(pid, p.root, LivenessFile, Shared), Ready(false), Dead(s, pid))
    case (Upgrade, Booting) => Took(s, pid, Hold(pid, p.root, LivenessFile, Exclusive), Probed, Dead(s, pid))
    case (Upgrade, Probed) => Took(s, pid, writer, Ready(true), Dead(s, pid))
    case (OldServe, Booting) => Took(s, pid, writer, Ready(true), Dead(s, pid))
    case (OldUpgrade, Booting) => Took(s, pid, writer, Ready(true), Dead(s, pid))
    case _ => s
  }

  function Next(s: State, a: Action): State {
    match a
    case Spawn(pid, kind, root) => if pid in s.procs then s
      else s.(procs := s.procs[pid := Process(kind, root, Booting)])
    case Attempts(pid) => if pid in s.procs then NextAttempt(s, pid) else s
    case Writes(pid) =>
      if pid in s.procs && s.procs[pid].kind == Serve && s.procs[pid].stage == Ready(false)
      then Took(s, pid, Hold(pid, s.procs[pid].root, WriterFile, Exclusive), Ready(true), s)
      else s
    case Dies(pid) => Dead(s, pid)
  }

  const START := State(map[], {})

  function Run(actions: seq<Action>): State {
    if actions == [] then START else Next(Run(actions[..|actions| - 1]), actions[|actions| - 1])
  }

  // ---------------------------------------------------------------- what the processes are doing

  /** `pid` appends to the op-log of `root`, or migrates it. */
  predicate HasWriteRole(s: State, pid: Pid, root: Root) {
    pid in s.procs && s.procs[pid].root == root && s.procs[pid].stage == Ready(true)
  }

  predicate Migrates(s: State, pid: Pid, root: Root) {
    HasWriteRole(s, pid, root) && s.procs[pid].kind == Upgrade
  }

  /** `pid` serves `root`, read-only or not. */
  predicate BoundSession(s: State, pid: Pid, root: Root) {
    && pid in s.procs && s.procs[pid].root == root
    && s.procs[pid].kind in {Serve, Dashboard, OldServe}
    && (s.procs[pid].stage == Live || s.procs[pid].stage.Ready?)
  }

  /** The locks a process at its stage must hold. */
  function Expected(pid: Pid, p: Process): set<Hold> {
    var writer := Hold(pid, p.root, WriterFile, Exclusive);
    var shared := Hold(pid, p.root, LivenessFile, Shared);
    var exclusive := Hold(pid, p.root, LivenessFile, Exclusive);
    match p.stage
    case Booting => {}
    case Live => {shared}
    case Probed => {exclusive}
    case Ready(writes) =>
      if p.kind in {OldServe, OldUpgrade} then {writer}
      else if p.kind == Upgrade then {exclusive, writer}
      else if writes then {shared, writer} else {shared}
  }

  ghost predicate StageFits(p: Process) {
    && (p.stage == Live ==> p.kind == Serve)
    && (p.stage == Probed ==> p.kind == Upgrade)
    && (p.stage == Ready(false) ==> p.kind in {Serve, Dashboard})
    && (p.stage == Ready(true) ==> p.kind != Dashboard)
  }

  /** The lock table is exactly what the live processes account for, and holds nothing in conflict. */
  ghost predicate Invariant(s: State) {
    && (forall pid :: pid in s.procs ==> StageFits(s.procs[pid]))
    && (forall h :: h in s.holds ==> h.owner in s.procs && h in Expected(h.owner, s.procs[h.owner]))
    && (forall pid :: pid in s.procs ==> Expected(pid, s.procs[pid]) <= s.holds)
    && (forall h, k :: h in s.holds && k in s.holds && h != k ==> !Conflict(h, k))
  }

  lemma TookKeeps(s: State, pid: Pid, want: Hold, won: Stage)
    requires Invariant(s) && pid in s.procs && Free(s.holds, want) && want.owner == pid
    requires StageFits(s.procs[pid].(stage := won))
    requires Expected(pid, s.procs[pid].(stage := won)) == Expected(pid, s.procs[pid]) + {want}
    ensures Invariant(State(s.procs[pid := s.procs[pid].(stage := won)], s.holds + {want}))
  {
  }

  lemma DeadKeeps(s: State, pid: Pid)
    requires Invariant(s)
    ensures Invariant(Dead(s, pid))
    ensures forall h :: h in Dead(s, pid).holds ==> h.owner != pid
  {
  }

  lemma AttemptKeeps(s: State, pid: Pid)
    requires Invariant(s) && pid in s.procs
    ensures Invariant(NextAttempt(s, pid))
  {
    var p := s.procs[pid];
    DeadKeeps(s, pid);
    var writer := Hold(pid, p.root, WriterFile, Exclusive);
    var shared := Hold(pid, p.root, LivenessFile, Shared);
    var exclusive := Hold(pid, p.root, LivenessFile, Exclusive);
    match (p.kind, p.stage)
    case (Serve, Booting) => if Free(s.holds, shared) { TookKeeps(s, pid, shared, Live); }
    case (Serve, Live) => if Free(s.holds, writer) { TookKeeps(s, pid, writer, Ready(true)); }
    case (Dashboard, Booting) => if Free(s.holds, shared) { TookKeeps(s, pid, shared, Ready(false)); }
    case (Upgrade, Booting) => if Free(s.holds, exclusive) { TookKeeps(s, pid, exclusive, Probed); }
    case (Upgrade, Probed) => if Free(s.holds, writer) { TookKeeps(s, pid, writer, Ready(true)); }
    case (OldServe, Booting) => if Free(s.holds, writer) { TookKeeps(s, pid, writer, Ready(true)); }
    case (OldUpgrade, Booting) => if Free(s.holds, writer) { TookKeeps(s, pid, writer, Ready(true)); }
    case _ =>
  }

  lemma NextKeeps(s: State, a: Action)
    requires Invariant(s)
    ensures Invariant(Next(s, a))
  {
    match a
    case Spawn(_, _, _) =>
    case Attempts(pid) => if pid in s.procs { AttemptKeeps(s, pid); }
    case Writes(pid) =>
      if pid in s.procs && s.procs[pid].kind == Serve && s.procs[pid].stage == Ready(false) {
        var want := Hold(pid, s.procs[pid].root, WriterFile, Exclusive);
        if Free(s.holds, want) { TookKeeps(s, pid, want, Ready(true)); }
      }
    case Dies(pid) => DeadKeeps(s, pid);
  }

  lemma {:induction false} RunKeeps(actions: seq<Action>)
    ensures Invariant(Run(actions))
  {
    if actions != [] {
      RunKeeps(actions[..|actions| - 1]);
      NextKeeps(Run(actions[..|actions| - 1]), actions[|actions| - 1]);
    }
  }

  // ---------------------------------------------------------------- what every run guarantees

  /** At most one process has the write role of a vault, whatever the mix of binaries. */
  lemma OneWriter(actions: seq<Action>, root: Root, a: Pid, b: Pid)
    requires HasWriteRole(Run(actions), a, root) && HasWriteRole(Run(actions), b, root)
    ensures a == b
  {
    var s := Run(actions);
    RunKeeps(actions);
    var x, y := Hold(a, root, WriterFile, Exclusive), Hold(b, root, WriterFile, Exclusive);
    assert x in Expected(a, s.procs[a]) && y in Expected(b, s.procs[b]);
    assert Conflict(x, y);
  }

  /** While a current `upgrade` migrates, nothing serves the vault, older binaries included. */
  lemma MigrationIsAlone(actions: seq<Action>, root: Root, u: Pid, p: Pid)
    requires Migrates(Run(actions), u, root)
    ensures !BoundSession(Run(actions), p, root)
  {
    var s := Run(actions);
    RunKeeps(actions);
    if BoundSession(s, p, root) {
      if s.procs[p].kind == OldServe {
        OneWriter(actions, root, u, p);
      } else {
        var x, y := Hold(u, root, LivenessFile, Exclusive), Hold(p, root, LivenessFile, Shared);
        assert x in Expected(u, s.procs[u]) && y in Expected(p, s.procs[p]);
        assert Conflict(x, y);
      }
    }
  }

  /** A read-only session's write succeeds exactly when no process has the write role; then it has
      it, and otherwise nothing changes. */
  lemma ContestWinsIffFree(actions: seq<Action>, pid: Pid)
    requires var s := Run(actions); pid in s.procs && s.procs[pid].kind == Serve && s.procs[pid].stage == Ready(false)
    ensures var s, t := Run(actions), Next(Run(actions), Writes(pid));
            && (HasWriteRole(t, pid, s.procs[pid].root) <==> forall q :: !HasWriteRole(s, q, s.procs[pid].root))
            && ((exists q :: HasWriteRole(s, q, s.procs[pid].root)) ==> t == s)
  {
    var s := Run(actions);
    RunKeeps(actions);
    var root := s.procs[pid].root;
    var want := Hold(pid, root, WriterFile, Exclusive);
    WriterFileFree(s, want);
  }

  /** Holding the writer file and having the write role are the same thing. */
  lemma WriterFileFree(s: State, want: Hold)
    requires Invariant(s) && want.file == WriterFile && want.mode == Exclusive
    ensures Free(s.holds, want) <==> forall q :: !HasWriteRole(s, q, want.root)
  {
    if exists q :: HasWriteRole(s, q, want.root) {
      var q :| HasWriteRole(s, q, want.root);
      assert Hold(q, want.root, WriterFile, Exclusive) in Expected(q, s.procs[q]);
      assert !Free(s.holds, want);
    } else if !Free(s.holds, want) {
      var h :| h in s.holds && Conflict(h, want);
      assert h in Expected(h.owner, s.procs[h.owner]);
      assert HasWriteRole(s, h.owner, want.root);
    }
  }

  /** A boot is refused exactly under a current upgrade at work, and starts read-only exactly
      when the role is taken. */
  lemma ServeBoots(actions: seq<Action>, pid: Pid)
    requires var s := Run(actions); pid in s.procs && s.procs[pid].kind == Serve && s.procs[pid].stage == Booting
    ensures var s, t := Run(actions), Next(Run(actions), Attempts(pid));
            && (pid !in t.procs <==> exists u :: UpgradeAtWork(s, u, s.procs[pid].root))
            && (pid in t.procs ==> t.procs[pid].stage == Live)
  {
    var s := Run(actions);
    RunKeeps(actions);
    var root := s.procs[pid].root;
    var want := Hold(pid, root, LivenessFile, Shared);
    if exists u :: UpgradeAtWork(s, u, root) {
      var u :| UpgradeAtWork(s, u, root);
      assert Hold(u, root, LivenessFile, Exclusive) in Expected(u, s.procs[u]);
      assert !Free(s.holds, want);
    } else if !Free(s.holds, want) {
      var h :| h in s.holds && Conflict(h, want);
      assert h in Expected(h.owner, s.procs[h.owner]);
      assert UpgradeAtWork(s, h.owner, root);
    }
  }

  predicate UpgradeAtWork(s: State, u: Pid, root: Root) {
    u in s.procs && s.procs[u].kind == Upgrade && s.procs[u].root == root && s.procs[u].stage != Booting
  }

  /** A dashboard is refused under the same upgrade, and otherwise starts read-only. */
  lemma DashboardBoots(actions: seq<Action>, pid: Pid)
    requires var s := Run(actions);
             pid in s.procs && s.procs[pid].kind == Dashboard && s.procs[pid].stage == Booting
    ensures var s, t := Run(actions), Next(Run(actions), Attempts(pid));
            && (pid !in t.procs <==> exists u :: UpgradeAtWork(s, u, s.procs[pid].root))
            && (pid in t.procs ==> t.procs[pid].stage == Ready(false))
  {
    RunKeeps(actions);
    SharedFree(Run(actions), Hold(pid, Run(actions).procs[pid].root, LivenessFile, Shared));
  }

  /** The liveness file is free to share exactly when no current upgrade is at work. */
  lemma SharedFree(s: State, want: Hold)
    requires Invariant(s) && want.file == LivenessFile && want.mode == Shared
    ensures Free(s.holds, want) <==> forall u :: !UpgradeAtWork(s, u, want.root)
  {
    if exists u :: UpgradeAtWork(s, u, want.root) {
      var u :| UpgradeAtWork(s, u, want.root);
      assert Hold(u, want.root, LivenessFile, Exclusive) in Expected(u, s.procs[u]);
      assert !Free(s.holds, want);
    } else if !Free(s.holds, want) {
      var h :| h in s.holds && Conflict(h, want);
      assert h in Expected(h.owner, s.procs[h.owner]);
      assert UpgradeAtWork(s, h.owner, want.root);
    }
  }

  /** A process of a current binary past its first boot attempt. */
  predicate PastProbe(s: State, p: Pid, root: Root) {
    p in s.procs && s.procs[p].root == root && s.procs[p].kind in {Serve, Dashboard, Upgrade}
    && s.procs[p].stage != Booting
  }

  /** A current upgrade goes on exactly when no current binary is bound to the vault. */
  lemma UpgradeBoots(actions: seq<Action>, pid: Pid)
    requires var s := Run(actions); pid in s.procs && s.procs[pid].kind == Upgrade && s.procs[pid].stage == Booting
    ensures var s, t := Run(actions), Next(Run(actions), Attempts(pid));
            && (pid !in t.procs <==> exists p :: PastProbe(s, p, s.procs[pid].root))
            && (pid in t.procs ==> t.procs[pid].stage == Probed)
  {
    var s := Run(actions);
    RunKeeps(actions);
    var want := Hold(pid, s.procs[pid].root, LivenessFile, Exclusive);
    if exists p :: PastProbe(s, p, want.root) {
      var p :| PastProbe(s, p, want.root);
      var h := Hold(p, want.root, LivenessFile, if s.procs[p].kind == Upgrade then Exclusive else Shared);
      assert h in Expected(p, s.procs[p]);
      assert !Free(s.holds, want);
    } else if !Free(s.holds, want) {
      var h :| h in s.holds && Conflict(h, want);
      assert h in Expected(h.owner, s.procs[h.owner]);
      assert PastProbe(s, h.owner, want.root);
    }
  }

  /** And it migrates exactly when then no process, older ones included, has the write role. */
  lemma UpgradeMigrates(actions: seq<Action>, pid: Pid)
    requires var s := Run(actions); pid in s.procs && s.procs[pid].kind == Upgrade && s.procs[pid].stage == Probed
    ensures var s, t := Run(actions), Next(Run(actions), Attempts(pid));
            && (pid !in t.procs <==> exists q :: HasWriteRole(s, q, s.procs[pid].root))
            && (pid in t.procs ==> t.procs[pid].stage == Ready(true) && Migrates(t, pid, s.procs[pid].root))
  {
    RunKeeps(actions);
    WriterFileFree(Run(actions), Hold(pid, Run(actions).procs[pid].root, WriterFile, Exclusive));
  }

  /** The second attempt of a boot: read-write exactly when no process has the write role. */
  lemma ServeDegrades(actions: seq<Action>, pid: Pid)
    requires var s := Run(actions); pid in s.procs && s.procs[pid].kind == Serve && s.procs[pid].stage == Live
    ensures var s, t := Run(actions), Next(Run(actions), Attempts(pid));
            pid in t.procs && t.procs[pid].stage == Ready(forall q :: !HasWriteRole(s, q, s.procs[pid].root))
  {
    RunKeeps(actions);
    WriterFileFree(Run(actions), Hold(pid, Run(actions).procs[pid].root, WriterFile, Exclusive));
  }

  /** No stale hold: every lock belongs to a live process that is using it, and a death, clean or
      not, leaves none of its locks behind and frees the role it had. */
  lemma DeathReleases(actions: seq<Action>, pid: Pid, root: Root)
    ensures forall h :: h in Run(actions).holds ==> h.owner in Run(actions).procs
    ensures forall h :: h in Run(actions + [Dies(pid)]).holds ==> h.owner != pid
    ensures HasWriteRole(Run(actions), pid, root) ==> forall q :: !HasWriteRole(Run(actions + [Dies(pid)]), q, root)
  {
    RunKeeps(actions);
    assert (actions + [Dies(pid)])[..|actions|] == actions;
    assert Run(actions + [Dies(pid)]) == Dead(Run(actions), pid);
    if HasWriteRole(Run(actions), pid, root) {
      forall q ensures !HasWriteRole(Dead(Run(actions), pid), q, root) {
        if HasWriteRole(Run(actions), q, root) { OneWriter(actions, root, pid, q); }
      }
    }
  }

  // ---------------------------------------------------------------- vaults do not affect each other

  /** What concerns one vault. */
  function Project(s: State, root: Root): State {
    State(map pid | pid in s.procs && s.procs[pid].root == root :: s.procs[pid], set h | h in s.holds && h.root == root)
  }

  /** The vault an action concerns; a spawned process names it, any other action's process has it. */
  predicate Concerns(s: State, a: Action, root: Root) {
    match a
    case Spawn(_, _, r) => r == root
    case Attempts(pid) => pid in s.procs && s.procs[pid].root == root
    case Writes(pid) => pid in s.procs && s.procs[pid].root == root
    case Dies(pid) => pid in s.procs && s.procs[pid].root == root
  }

  lemma ProjectedFree(s: State, want: Hold)
    ensures Free(s.holds, want) <==> Free(Project(s, want.root).holds, want)
  {
    if Free(Project(s, want.root).holds, want) {
      forall h | h in s.holds ensures !Conflict(h, want) {
        if h.root == want.root { assert h in Project(s, want.root).holds; }
      }
    }
  }

  /** A dead pid owns nothing, so an action naming one is idle. */
  lemma DeadOwnsNothing(s: State, pid: Pid)
    requires Invariant(s) && pid !in s.procs
    ensures Dead(s, pid) == s
  {
    assert s.procs - {pid} == s.procs;
    assert (set h | h in s.holds && h.owner != pid) == s.holds;
  }

  lemma DeadElsewhere(s: State, pid: Pid, root: Root)
    requires Invariant(s) && pid in s.procs && s.procs[pid].root != root
    ensures Project(Dead(s, pid), root) == Project(s, root)
  {
    forall h | h in s.holds && h.root == root
      ensures h.owner != pid
    {
      assert h in Expected(h.owner, s.procs[h.owner]);
    }
    assert Project(Dead(s, pid), root).holds == Project(s, root).holds;
    assert Project(Dead(s, pid), root).procs == Project(s, root).procs;
  }

  lemma TookElsewhere(s: State, pid: Pid, want: Hold, won: Stage, root: Root)
    requires pid in s.procs && s.procs[pid].root == want.root != root
    ensures Project(State(s.procs[pid := s.procs[pid].(stage := won)], s.holds + {want}), root) == Project(s, root)
    ensures Project(State(s.procs[pid := s.procs[pid].(stage := won)], s.holds), root) == Project(s, root)
  {
    var t := State(s.procs[pid := s.procs[pid].(stage := won)], s.holds + {want});
    assert Project(t, root).procs == Project(s, root).procs;
    assert Project(t, root).holds == Project(s, root).holds;
  }

  /** An action on one vault leaves every other vault as it was. */
  lemma OtherVaultsUntouched(s: State, a: Action, root: Root)
    requires Invariant(s) && !Concerns(s, a, root)
    ensures Project(Next(s, a), root) == Project(s, root)
  {
    match a
    case Spawn(pid, kind, r) =>
      if pid !in s.procs {
        var t := s.(procs := s.procs[pid := Process(kind, r, Booting)]);
        assert Project(t, root).procs == Project(s, root).procs;
      }
    case Dies(pid) => if pid in s.procs { DeadElsewhere(s, pid, root); } else { DeadOwnsNothing(s, pid); }
    case Attempts(pid) => if pid in s.procs { AttemptElsewhere(s, pid, root); }
    case Writes(pid) =>
      if pid in s.procs {
        TookElsewhere(s, pid, Hold(pid, s.procs[pid].root, WriterFile, Exclusive), Ready(true), root);
      }
  }

  lemma AttemptElsewhere(s: State, pid: Pid, root: Root)
    requires Invariant(s) && pid in s.procs && s.procs[pid].root != root
    ensures Project(NextAttempt(s, pid), root) == Project(s, root)
  {
    DeadElsewhere(s, pid, root);
    var r := s.procs[pid].root;
    forall won: Stage, f: LockFile, m: Mode
      ensures Project(State(s.procs[pid := s.procs[pid].(stage := won)], s.holds + {Hold(pid, r, f, m)}), root) ==
              Project(s, root)
    {
      TookElsewhere(s, pid, Hold(pid, r, f, m), won, root);
    }
    TookElsewhere(s, pid, Hold(pid, r, WriterFile, Exclusive), Ready(false), root);
  }

  lemma DeadHere(s: State, pid: Pid, root: Root)
    requires pid in s.procs && s.procs[pid].root == root
    ensures Project(Dead(s, pid), root) == Dead(Project(s, root), pid)
  {
    assert Project(Dead(s, pid), root).procs == Dead(Project(s, root), pid).procs;
    assert Project(Dead(s, pid), root).holds == Dead(Project(s, root), pid).holds;
  }

  lemma TookHere(s: State, pid: Pid, want: Hold, won: Stage, root: Root)
    requires pid in s.procs && s.procs[pid].root == want.root == root
    ensures var p := s.procs[pid].(stage := won);
            && Project(State(s.procs[pid := p], s.holds + {want}), root) ==
               State(Project(s, root).procs[pid := p], Project(s, root).holds + {want})
            && Project(State(s.procs[pid := p], s.holds), root) ==
               State(Project(s, root).procs[pid := p], Project(s, root).holds)
    ensures Free(s.holds, want) <==> Free(Project(s, root).holds, want)
  {
    var p := s.procs[pid].(stage := won);
    assert Project(State(s.procs[pid := p], s.holds), root).procs == Project(s, root).procs[pid := p];
    assert Project(State(s.procs[pid := p], s.holds + {want}), root).holds == Project(s, root).holds + {want};
    ProjectedFree(s, want);
  }

  lemma TookProjects(s: State, pid: Pid, want: Hold, won: Stage, lost: State, root: Root)
    requires pid in s.procs && s.procs[pid].root == want.root == root
    ensures pid in Project(s, root).procs
    ensures Project(Took(s, pid, want, won, lost), root) == Took(Project(s, root), pid, want, won, Project(lost, root))
  {
    TookHere(s, pid, want, won, root);
  }

  /** An attempt that does not get its lock ends its process, or leaves it as it was. */
  lemma AttemptEnds(s: State, pid: Pid, want: Hold, won: Stage, root: Root)
    requires pid in s.procs && s.procs[pid].root == want.root == root
    ensures pid in Project(s, root).procs
    ensures var t := Project(s, root);
            && Project(Took(s, pid, want, won, Dead(s, pid)), root) == Took(t, pid, want, won, Dead(t, pid))
            && Project(Took(s, pid, want, won, s), root) == Took(t, pid, want, won, t)
  {
    TookProjects(s, pid, want, won, Dead(s, pid), root);
    TookProjects(s, pid, want, won, s, root);
    DeadHere(s, pid, root);
  }

  lemma AttemptHere(s: State, pid: Pid, root: Root)
    requires pid in s.procs && s.procs[pid].root == root
    ensures Project(NextAttempt(s, pid), root) == NextAttempt(Project(s, root), pid)
  {
    var p := s.procs[pid];
    var writer := Hold(pid, root, WriterFile, Exclusive);
    match (p.kind, p.stage)
    case (Serve, Booting) => AttemptEnds(s, pid, Hold(pid, root, LivenessFile, Shared), Live, root);
    case (Serve, Live) =>
      TookHere(s, pid, writer, Ready(false), root);
      TookProjects(s, pid, writer, Ready(true), State(s.procs[pid := p.(stage := Ready(false))], s.holds), root);
    case (Dashboard, Booting) => AttemptEnds(s, pid, Hold(pid, root, LivenessFile, Shared), Ready(false), root);
    case (Upgrade, Booting) => AttemptEnds(s, pid, Hold(pid, root, LivenessFile, Exclusive), Probed, root);
    case (Upgrade, Probed) => AttemptEnds(s, pid, writer, Ready(true), root);
    case (OldServe, Booting) => AttemptEnds(s, pid, writer, Ready(true), root);
    case (OldUpgrade, Booting) => AttemptEnds(s, pid, writer, Ready(true), root);
    case _ =>
  }

  /** A new process gets a pid no live process has. */
  predicate PidIsNew(s: State, a: Action) { a.Spawn? ==> a.pid !in s.procs }

  /** An action on a vault does there what it would do if no other vault existed. */
  lemma VaultActsAlone(s: State, a: Action, root: Root)
    requires Concerns(s, a, root) && PidIsNew(s, a)
    ensures Project(Next(s, a), root) == Next(Project(s, root), a)
  {
    match a
    case Spawn(pid, kind, r) =>
      assert Project(Next(s, a), root).procs == Next(Project(s, root), a).procs;
    case Dies(pid) => DeadHere(s, pid, root);
    case Attempts(pid) => AttemptHere(s, pid, root);
    case Writes(pid) => AttemptEnds(s, pid, Hold(pid, root, WriterFile, Exclusive), Ready(true), root);
  }

  /** The actions of a run that concern `root`. */
  function Only(actions: seq<Action>, root: Root): seq<Action> {
    if actions == [] then []
    else
      var before, last := actions[..|actions| - 1], actions[|actions| - 1];
      Only(before, root) + if Concerns(Run(before), last, root) then [last] else []
  }

  ghost predicate NewPids(actions: seq<Action>) {
    forall i :: 0 <= i < |actions| ==> PidIsNew(Run(actions[..i]), actions[i])
  }

  /** Whole runs on different vaults are independent: what a run leaves of one vault is what the
      actions on that vault alone leave. */
  lemma {:induction false} VaultsAreIndependent(actions: seq<Action>, root: Root)
    requires NewPids(actions)
    ensures Project(Run(actions), root) == Run(Only(actions, root))
  {
    if actions == [] {
      assert Project(START, root) == START;
    } else {
      var n := |actions| - 1;
      var before, last := actions[..n], actions[n];
      assert forall i :: 0 <= i < n ==> before[..i] == actions[..i];
      VaultsAreIndependent(before, root);
      RunKeeps(before);
      assert PidIsNew(Run(actions[..n]), actions[n]);
      if Concerns(Run(before), last, root) {
        VaultActsAlone(Run(before), last, root);
        assert (Only(before, root) + [last])[..|Only(before, root)|] == Only(before, root);
      } else {
        OtherVaultsUntouched(Run(before), last, root);
        assert Only(before, root) + [] == Only(before, root);
      }
    }
  }

  /** A serve older than the liveness file likewise starts if and only if no process has the write role,
      upgrades included. */
  lemma OldServeWinsIffFree(actions: seq<Action>, pid: Pid)
    requires var s := Run(actions); pid in s.procs && s.procs[pid].kind == OldServe && s.procs[pid].stage == Booting
    ensures var s, t := Run(actions), Next(Run(actions), Attempts(pid));
            && (pid !in t.procs <==> exists q :: HasWriteRole(s, q, s.procs[pid].root))
            && (pid in t.procs ==> t.procs[pid].stage == Ready(true))
  {
    RunKeeps(actions);
    WriterFileFree(Run(actions), Hold(pid, Run(actions).procs[pid].root, WriterFile, Exclusive));
  }

  /** What an older upgrade sees: its attempt succeeds if and only if no process has the write role,
      whoever else is bound; otherwise it is gone. */
  lemma OldUpgradeWinsIffFree(actions: seq<Action>, pid: Pid)
    requires var s := Run(actions); pid in s.procs && s.procs[pid].kind == OldUpgrade && s.procs[pid].stage == Booting
    ensures var s, t := Run(actions), Next(Run(actions), Attempts(pid));
            && (HasWriteRole(t, pid, s.procs[pid].root) <==> forall q :: !HasWriteRole(s, q, s.procs[pid].root))
            && (pid !in t.procs <==> exists q :: HasWriteRole(s, q, s.procs[pid].root))
  {
    RunKeeps(actions);
    WriterFileFree(Run(actions), Hold(pid, Run(actions).procs[pid].root, WriterFile, Exclusive));
  }

  /** The gap the documentation concedes: an `upgrade` older than the liveness file migrates under
      a session that does not write. */
  lemma OldUpgradeMigratesUnderReader() returns (actions: seq<Action>)
    ensures HasWriteRole(Run(actions), 2, 0) && Run(actions).procs[2].kind == OldUpgrade
    ensures BoundSession(Run(actions), 1, 0)
  {
    var one := [Spawn(1, Dashboard, 0)];
    var two := one + [Attempts(1)];
    var three := two + [Spawn(2, OldUpgrade, 0)];
    actions := three + [Attempts(2)];
    assert one[..0] == [] && two[..1] == one && three[..2] == two && actions[..3] == three;
    assert Run(one) == State(map[1 := Process(Dashboard, 0, Booting)], {});
    assert Run(two) == State(map[1 := Process(Dashboard, 0, Ready(false))], {Hold(1, 0, LivenessFile, Shared)});
    assert Run(three) ==
           State(map[1 := Process(Dashboard, 0, Ready(false)), 2 := Process(OldUpgrade, 0, Booting)],
           {Hold(1, 0, LivenessFile, Shared)});
  }

  // ---------------------------------------------------------------- the steps, by the calls

  /** The processes of a machine over the operating system's lock table: each action, made of the
      lock calls above, is the step of the model. */
  class Machine {
    var procs: map<Pid, Process>
    const table: LockTable

    ghost function Current(): State
      reads this, table
    {
      State(procs, table.holds)
    }

    constructor ()
      ensures fresh(table) && Current() == START
    {
      procs := map[];
      table := new LockTable();
    }

    method Kill(pid: Pid)
      modifies this, table
      ensures Current() == Dead(old(Current()), pid)
    {
      procs := procs - {pid};
      table.ReleaseAll(pid);
    }

    /** One lock attempt: on to `won`, or else `lost`, or dead if there is nothing else. */
    method Attempt(pid: Pid, file: LockFile, mode: Mode, won: Stage, lost: Option<Stage>)
      requires pid in procs
      modifies this, table
      ensures var s := old(Current());
              Current() == Took(s, pid, Hold(pid, s.procs[pid].root, file, mode), won,
                                if lost == None then Dead(s, pid)
                                  else State(s.procs[pid := s.procs[pid].(stage := lost.value)], s.holds))
    {
      var p := procs[pid];
      var attempt := table.TryLockVaultFile(pid, Local(p.root), file, mode);
      if attempt.Acquired? {
        procs := procs[pid := p.(stage := won)];
      } else if lost.Some? {
        procs := procs[pid := p.(stage := lost.value)];
      } else {
        Kill(pid);
      }
    }

    method BootAttempt(pid: Pid)
      requires pid in procs
      modifies this, table
      ensures Current() == NextAttempt(old(Current()), pid)
    {
      match (procs[pid].kind, procs[pid].stage)
      case (Serve, Booting) => Attempt(pid, LivenessFile, Shared, Live, None);
      case (Serve, Live) => Attempt(pid, WriterFile, Exclusive, Ready(true), Some(Ready(false)));
      case (Dashboard, Booting) => Attempt(pid, LivenessFile, Shared, Ready(false), None);
      case (Upgrade, Booting) => Attempt(pid, LivenessFile, Exclusive, Probed, None);
      case (Upgrade, Probed) => Attempt(pid, WriterFile, Exclusive, Ready(true), None);
      case (OldServe, Booting) => Attempt(pid, WriterFile, Exclusive, Ready(true), None);
      case (OldUpgrade, Booting) => Attempt(pid, WriterFile, Exclusive, Ready(true), None);
      case _ =>
    }

    method Perform(a: Action)
      modifies this, table
      ensures Current() == Next(old(Current()), a)
    {
      match a
      case Spawn(pid, kind, root) => if pid !in procs { procs := procs[pid := Process(kind, root, Booting)]; }
      case Attempts(pid) => if pid in procs { BootAttempt(pid); }
      case Writes(pid) =>
        if pid in procs && procs[pid].kind == Serve && procs[pid].stage == Ready(false) {
          var won := table.Contest(pid, Local(procs[pid].root));
          if won { procs := procs[pid := procs[pid].(stage := Ready(true))]; }
        }
      case Dies(pid) => Kill(pid);
    }

    /** An undisturbed boot in one call, `acquire_serve_binding` or `acquire_upgrade_lock`, takes the
        machine where the two attempts of the step relation take it. */
    method Boot(pid: Pid)
      requires pid in procs && procs[pid].stage == Booting && procs[pid].kind in {Serve, Upgrade}
      requires forall h :: h in table.holds ==> h.owner != pid
      modifies this, table
      ensures Current() == Next(Next(old(Current()), Attempts(pid)), Attempts(pid))
    {
      var p := procs[pid];
      TwoAttempts(Current(), pid);
      if p.kind == Serve {
        var out := table.AcquireServe(pid, Local(p.root));
        procs := if out.Bound? then procs[pid := p.(stage := Ready(out.value.writer.Acquired?))] else procs - {pid};
      } else {
        var out := table.AcquireUpgrade(pid, Local(p.root));
        procs := if out.Bound? then procs[pid := p.(stage := Ready(true))] else procs - {pid};
      }
    }
  }

  /** Where two attempts in a row take a process that holds nothing yet. */
  lemma TwoAttempts(s: State, pid: Pid)
    requires pid in s.procs && s.procs[pid].stage == Booting && s.procs[pid].kind in {Serve, Upgrade}
    requires forall h :: h in s.holds ==> h.owner != pid
    ensures var t, p := Next(Next(s, Attempts(pid)), Attempts(pid)), s.procs[pid];
            var writer := Hold(pid, p.root, WriterFile, Exclusive);
            var first := Hold(pid, p.root, LivenessFile, if p.kind == Serve then Shared else Exclusive);
            if !Free(s.holds, first) || (p.kind == Upgrade && !Free(s.holds, writer)) then
              t == State(s.procs - {pid}, s.holds)
            else if Free(s.holds, writer) then
              t == State(s.procs[pid := p.(stage := Ready(true))], s.holds + {first} + {writer})
            else
              t == State(s.procs[pid := p.(stage := Ready(false))], s.holds + {first})
  {
    assert (set h | h in s.holds && h.owner != pid) == s.holds;
    var p := s.procs[pid];
    var first := Hold(pid, p.root, LivenessFile, if p.kind == Serve then Shared else Exclusive);
    var writer := Hold(pid, p.root, WriterFile, Exclusive);
    assert Free(s.holds + {first}, writer) <==> Free(s.holds, writer);
    assert (set h | h in s.holds + {first} && h.owner != pid) == s.holds;
    if Free(s.holds, first) {
      var stage := if p.kind == Serve then Live else Probed;
      assert Next(s, Attempts(pid)) == State(s.procs[pid := p.(stage := stage)], s.holds + {first});
    } else {
      assert Next(s, Attempts(pid)) == State(s.procs - {pid}, s.holds);
    }
  }
}
