/**
 * What one backup, one iteration of main's loop and a whole run do, as
 * specification functions over the inputs of each cycle. The two copies of
 * the agent differ in two places, and Variant names them: the root copy
 * asks is_leader before backing up and removes the backup directory and
 * archive in a `finally` around the upload; the nested copy backs up every
 * cycle and never removes anything.
 */
module Schedule {
  import opened Common
  import opened Naming
  import opened UploadRetry
  import Leader

  datatype Variant = Root | Nested

  /** The paths that exist on the local file system. */
  datatype Disk = Disk(dirs: set<string>, files: set<string>)

  /**
   * How an external step (etcdctl backup, writing the tarball) ends; a step
   * that raises may or may not have left its output path behind.
   */
  datatype StepOutcome = Finished | Raised(error: Error, leftover: bool)

  /**
   * How do_backup ends: one of the two preparation steps raised, the upload
   * loop ran, or (root copy only) the upload loop ran and then the
   * `finally` raised, which replaces whatever the loop ended with.
   */
  datatype BackupEnd =
    | SnapshotRaised(error: Error)
    | ArchiveRaised(error: Error)
    | UploadPhase(key: string, run: RetryRun)
    | CleanupRaised(key: string, run: RetryRun, error: Error)

  /** do_backup raises, and so does main, which does not catch it. */
  predicate Raises(b: BackupEnd)
  {
    !b.UploadPhase? || b.run.ending.GaveUp?
  }

  function RaisedError(b: BackupEnd): Error
    requires Raises(b)
  {
    if b.UploadPhase? then b.run.ending.error else b.error
  }

  /**
   * The settings main reads from the environment once. BACKUP_INTERVAL_SEC
   * goes through int(), which accepts a negative number.
   */
  datatype Config = Config(prefix: string, interval: int, runOnce: bool, clientUrl: Option<string>)

  /** What Python 2's time.sleep raises for a negative duration (IOError, EINVAL). */
  const NegativeSleepError: Error := Error("[Errno 22] Invalid argument")

  /**
   * What the outside world does during one cycle: the answer to the leader
   * query, the clock, how etcdctl and tarfile end, the archive's size, the
   * shutdown flag at each check of the upload loop and how each upload
   * ends, how the root copy's shutil.rmtree and os.remove end (a Raised
   * removal's `leftover` says the path is still there), and the flag at
   * main's check before sleeping.
   */
  datatype CycleInput = CycleInput(
    peer: Leader.Reply,
    stamp: Timestamp,
    snapshot: StepOutcome,
    archive: StepOutcome,
    archiveSize: nat,
    flags: seq<bool>,
    outcomes: seq<Attempt>,
    removeDir: StepOutcome,
    removeArchive: StepOutcome,
    flagBeforeSleep: bool)

  /** The cycle supplies a value for every check and attempt the upload loop can make. */
  predicate WellFormed(c: CycleInput)
  {
    MaxRetries <= |c.flags| && MaxRetries <= |c.outcomes|
  }

  /** The inputs of a cycle the loop can run on. */
  type Cycle = c: CycleInput | WellFormed(c)
    witness CycleInput(Leader.NoResponse(Error("")), Timestamp(1970, 1, 1, 0, 0, 0), Finished, Finished, 0,
                       seq(MaxRetries, _ => false), seq(MaxRetries, _ => Delivered), Finished, Finished, false)

  /** The signal handler only ever sets the flag: once seen set in the upload loop, main sees it set too. */
  predicate FlagStaysSet(c: CycleInput)
  {
    forall k :: 0 <= k < |c.flags| && c.flags[k] ==> c.flagBeforeSleep
  }

  /** How an iteration of main's `while True` ends. */
  datatype Next = Crash(error: Error) | ExitRunOnce | ExitShutdown | Sleep(seconds: nat)

  /** What one iteration did: the backup it ran, if any, how it ended, and the disk after it. */
  datatype Iteration = Iteration(backup: Option<BackupEnd>, next: Next, disk: Disk)

  /** How main ends; Running means the cycle inputs ran out while it was still looping. */
  datatype Stop = Died(error: Error) | RanOnce | ShutDown | Running

  datatype RunResult = RunResult(stop: Stop, iterations: seq<Iteration>, disk: Disk)

  /** A run that `done` earlier iterations lead into. */
  function Continued(done: seq<Iteration>, rest: RunResult): RunResult
  {
    rest.(iterations := done + rest.iterations)
  }

  /**
   * The root copy's `finally` after the upload loop: shutil.rmtree on the
   * directory, then os.remove on the archive. An exception from either
   * replaces the loop's ending, and one from rmtree skips os.remove.
   */
  function Cleanup(c: Cycle, key: string, run: RetryRun, disk: Disk): (BackupEnd, Disk)
  {
    var dir := BackupDir(c.stamp);
    var archive := ArchivePath(c.stamp);
    match c.removeDir
    case Raised(e, left) =>
      (CleanupRaised(key, run, e), if left then disk else disk.(dirs := disk.dirs - {dir}))
    case Finished =>
      var cleared := disk.(dirs := disk.dirs - {dir});
      match c.removeArchive
      case Raised(e, left) =>
        (CleanupRaised(key, run, e), if left then cleared else cleared.(files := cleared.files - {archive}))
      case Finished =>
        (UploadPhase(key, run), cleared.(files := cleared.files - {archive}))
  }

  /** do_backup */
  function BackupSpec(v: Variant, prefix: string, c: Cycle, disk: Disk): (BackupEnd, Disk)
  {
    var dir := BackupDir(c.stamp);
    var archive := ArchivePath(c.stamp);
    match c.snapshot
    case Raised(e, left) =>
      (SnapshotRaised(e), if left then disk.(dirs := disk.dirs + {dir}) else disk)
    case Finished =>
      var snapshotted := disk.(dirs := disk.dirs + {dir});
      match c.archive
      case Raised(e, left) =>
        (ArchiveRaised(e), if left then snapshotted.(files := snapshotted.files + {archive}) else snapshotted)
      case Finished =>
        var archived := snapshotted.(files := snapshotted.files + {archive});
        var run := Upload(c.flags, c.outcomes, c.archiveSize);
        if v == Root then Cleanup(c, S3Key(prefix, c.stamp), run, archived)
        else (UploadPhase(S3Key(prefix, c.stamp), run), archived)
  }

  /**
   * What main does after a backup that did not raise: exit on run_once,
   * exit on the flag, or sleep, where a negative interval makes time.sleep
   * raise.
   */
  function AfterBackup(cfg: Config, c: Cycle): Next
  {
    if cfg.runOnce then ExitRunOnce
    else if c.flagBeforeSleep then ExitShutdown
    else if cfg.interval < 0 then Crash(NegativeSleepError)
    else Sleep(cfg.interval)
  }

  /** One pass through the body of main's loop. */
  function IterationSpec(v: Variant, cfg: Config, c: Cycle, disk: Disk): Iteration
  {
    var gate := if v == Root then Leader.IsLeader(cfg.clientUrl, c.peer) else Success(true);
    if gate.Failure? then Iteration(None, Crash(gate.error), disk)
    else if !gate.value then Iteration(None, AfterBackup(cfg, c), disk)
    else
      var (b, after) := BackupSpec(v, cfg.prefix, c, disk);
      Iteration(Some(b), if Raises(b) then Crash(RaisedError(b)) else AfterBackup(cfg, c), after)
  }

  /** How main ends after an iteration that does not sleep. */
  function StopFor(next: Next): Stop
  {
    match next
    case Crash(e) => Died(e)
    case ExitRunOnce => RanOnce
    case ExitShutdown => ShutDown
    case Sleep(_) => Running
  }

  /**
   * The control flow of main's `while True` around any loop body `step`:
   * run the body on each cycle's inputs in turn, go round again after a
   * sleep, and stop at the first iteration that does not sleep.
   */
  function RunOf(step: (Cycle, Disk) -> Iteration, cycles: seq<Cycle>, disk: Disk): RunResult
    decreases |cycles|
  {
    if cycles == [] then RunResult(Running, [], disk)
    else
      var it := step(cycles[0], disk);
      if it.next.Sleep? then Continued([it], RunOf(step, cycles[1..], it.disk))
      else RunResult(StopFor(it.next), [it], it.disk)
  }

  /** The body of main's loop in one copy of the agent. */
  function Step(v: Variant, cfg: Config): (Cycle, Disk) -> Iteration
  {
    (c: Cycle, d: Disk) => IterationSpec(v, cfg, c, d)
  }

  /** main */
  function RunSpec(v: Variant, cfg: Config, cycles: seq<Cycle>, disk: Disk): RunResult
  {
    RunOf(Step(v, cfg), cycles, disk)
  }

  /** One more iteration of the loop, after the iterations `done`. */
  lemma RunStep(step: (Cycle, Disk) -> Iteration, cycles: seq<Cycle>, i: nat, done: seq<Iteration>, disk: Disk)
    requires i < |cycles|
    ensures var it := step(cycles[i], disk);
      Continued(done, RunOf(step, cycles[i..], disk)) ==
        if it.next.Sleep? then Continued(done + [it], RunOf(step, cycles[i + 1..], it.disk))
        else RunResult(StopFor(it.next), done + [it], it.disk)
  {
    assert cycles[i..][0] == cycles[i] && cycles[i..][1..] == cycles[i + 1..];
  }

  /**
   * The root copy backs up exactly when the peer state is StateLeader; the
   * nested copy backs up in every iteration. A backup that runs is do_backup.
   */
  lemma BackupRunsWhen(v: Variant, cfg: Config, c: Cycle, disk: Disk)
    ensures var it := IterationSpec(v, cfg, c, disk);
      (it.backup.Some? <==> (v == Nested || Leader.IsLeader(cfg.clientUrl, c.peer) == Success(true))) &&
      (it.backup.Some? ==> (it.backup.value, it.disk) == BackupSpec(v, cfg.prefix, c, disk)) &&
      (it.backup.None? ==> it.disk == disk)
  {
  }

  /**
   * Nothing in main catches an exception: a failed leader query, a
   * do_backup that raises, or time.sleep refusing a negative interval ends
   * the process with that error, and nothing else does.
   */
  lemma ErrorsEndTheProcess(v: Variant, cfg: Config, c: Cycle, disk: Disk)
    ensures var it := IterationSpec(v, cfg, c, disk);
      (v == Root && Leader.IsLeader(cfg.clientUrl, c.peer).Failure? ==>
         it.next == Crash(Leader.IsLeader(cfg.clientUrl, c.peer).error)) &&
      (it.backup.Some? && Raises(it.backup.value) ==> it.next == Crash(RaisedError(it.backup.value))) &&
      (cfg.interval < 0 && !cfg.runOnce && !c.flagBeforeSleep ==> it.next.Crash?) &&
      (it.next.Crash? ==> (v == Root && Leader.IsLeader(cfg.clientUrl, c.peer).Failure?) ||
                          (it.backup.Some? && Raises(it.backup.value)) ||
                          (it.next == Crash(NegativeSleepError) && cfg.interval < 0 && !cfg.runOnce && !c.flagBeforeSleep))
  {
  }

  /**
   * In the root copy, once the upload loop has run, the `finally` decides
   * how do_backup ends: an exception from rmtree or os.remove is what
   * do_backup raises, even when the loop gave up with its own error, and
   * a raising rmtree leaves the archive in place.
   */
  lemma CleanupErrorReplaces(prefix: string, c: Cycle, disk: Disk)
    requires c.snapshot == Finished && c.archive == Finished
    ensures var (b, after) := BackupSpec(Root, prefix, c, disk);
      var run := Upload(c.flags, c.outcomes, c.archiveSize);
      (b.UploadPhase? <==> c.removeDir == Finished && c.removeArchive == Finished) &&
      (c.removeDir.Raised? ==>
         b == CleanupRaised(S3Key(prefix, c.stamp), run, c.removeDir.error) && ArchivePath(c.stamp) in after.files &&
         (c.removeDir.leftover <==> BackupDir(c.stamp) in after.dirs)) &&
      (c.removeDir == Finished && c.removeArchive.Raised? ==>
         b == CleanupRaised(S3Key(prefix, c.stamp), run, c.removeArchive.error) && BackupDir(c.stamp) !in after.dirs &&
         (c.removeArchive.leftover <==> ArchivePath(c.stamp) in after.files)) &&
      (b.CleanupRaised? ==> Raises(b) && RaisedError(b) == b.error)
  {
  }

  /**
   * A backup whose upload loop was cancelled by the flag is the last one:
   * main sees the flag (or run_once) and exits instead of sleeping.
   */
  lemma CancelledBackupIsLast(v: Variant, cfg: Config, c: Cycle, disk: Disk)
    requires FlagStaysSet(c)
    requires var it := IterationSpec(v, cfg, c, disk);
      it.backup.Some? && it.backup.value.UploadPhase? && it.backup.value.run.ending == Cancelled
    ensures IterationSpec(v, cfg, c, disk).next in {ExitRunOnce, ExitShutdown}
  {
    var run := Upload(c.flags, c.outcomes, c.archiveSize);
    var (b, _) := BackupSpec(v, cfg.prefix, c, disk);
    assert b.UploadPhase? ==> b.run == run;
    RetryEnding(c.flags, c.outcomes, c.archiveSize, MaxRetries, InitialDelay);
    if run.ending == Cancelled {
      assert c.flags[run.attempts];
    }
  }

  /** An iteration that ends as main's checks after the backup decide. */
  predicate EndsAsMainDecides(cfg: Config, c: Cycle, it: Iteration)
  {
    (it.next.Sleep? ==> it.next.seconds == cfg.interval && !cfg.runOnce && !c.flagBeforeSleep) &&
    (it.next == ExitRunOnce ==> cfg.runOnce) &&
    (it.next == ExitShutdown ==> !cfg.runOnce && c.flagBeforeSleep)
  }

  /** A loop body whose every iteration ends as main's checks decide. */
  ghost predicate Decides(step: (Cycle, Disk) -> Iteration, cfg: Config)
  {
    forall c: Cycle, d: Disk :: EndsAsMainDecides(cfg, c, step(c, d))
  }

  /** One iteration of either copy ends as main's checks decide. */
  lemma IterationEndsAt(v: Variant, cfg: Config, c: Cycle, d: Disk)
    ensures EndsAsMainDecides(cfg, c, IterationSpec(v, cfg, c, d))
  {
    var gate := if v == Root then Leader.IsLeader(cfg.clientUrl, c.peer) else Success(true);
    if gate == Success(true) {
      var (b, after) := BackupSpec(v, cfg.prefix, c, d);
    }
  }

  /**
   * In both copies an iteration sleeps for backup_interval only with
   * run_once off, the flag clear and the interval not negative, exits on run_once only with run_once
   * on, and exits on the flag only with run_once off and the flag set.
   */
  lemma IterationEnds(v: Variant, cfg: Config)
    ensures Decides(Step(v, cfg), cfg)
  {
    forall c: Cycle, d: Disk
      ensures EndsAsMainDecides(cfg, c, Step(v, cfg)(c, d))
    {
      IterationEndsAt(v, cfg, c, d);
      var it := IterationSpec(v, cfg, c, d);
      assert Step(v, cfg)(c, d) == it;
    }
  }

  /**
   * Whatever the body, the loop sleeps only after an iteration with
   * run_once off and the flag clear, and runs out of inputs only if every
   * iteration slept.
   */
  lemma {:induction false} RunSleeps(step: (Cycle, Disk) -> Iteration, cfg: Config, cycles: seq<Cycle>, disk: Disk)
    requires Decides(step, cfg)
    ensures var r := RunOf(step, cycles, disk);
      |r.iterations| <= |cycles| &&
      (r.stop != Running ==> |r.iterations| > 0) &&
      (forall k :: 0 <= k < |r.iterations| - 1 ==>
         r.iterations[k].next.Sleep? && r.iterations[k].next.seconds == cfg.interval &&
         !cfg.runOnce && !cycles[k].flagBeforeSleep) &&
      (r.stop == Running ==>
         |r.iterations| == |cycles| &&
         forall k :: 0 <= k < |cycles| ==>
           r.iterations[k].next.Sleep? && r.iterations[k].next.seconds == cfg.interval &&
           !cfg.runOnce && !cycles[k].flagBeforeSleep)
    decreases |cycles|
  {
    if cycles != [] {
      var it := step(cycles[0], disk);
      assert EndsAsMainDecides(cfg, cycles[0], it);
      if it.next.Sleep? {
        RunSleeps(step, cfg, cycles[1..], it.disk);
        var rest := RunOf(step, cycles[1..], it.disk);
        var r := RunOf(step, cycles, disk);
        assert r.iterations == [it] + rest.iterations;
        forall k | 0 < k < |r.iterations| - 1
          ensures r.iterations[k].next.Sleep? && r.iterations[k].next.seconds == cfg.interval && !cycles[k].flagBeforeSleep
        {
          assert r.iterations[k] == rest.iterations[k - 1] && cycles[k] == cycles[1..][k - 1];
        }
        if r.stop == Running {
          forall k | 0 < k < |cycles|
            ensures r.iterations[k].next.Sleep? && r.iterations[k].next.seconds == cfg.interval && !cycles[k].flagBeforeSleep
          {
            assert r.iterations[k] == rest.iterations[k - 1] && cycles[k] == cycles[1..][k - 1];
          }
        }
      }
    }
  }

  /** Whatever the body, a loop that stops stops for the reason its last iteration gives. */
  lemma {:induction false} RunStops(step: (Cycle, Disk) -> Iteration, cfg: Config, cycles: seq<Cycle>, disk: Disk)
    requires Decides(step, cfg)
    ensures var r := RunOf(step, cycles, disk);
      var n := |r.iterations|;
      n <= |cycles| &&
      (r.stop != Running ==> 0 < n && r.stop == StopFor(r.iterations[n - 1].next)) &&
      (r.stop == RanOnce ==> 0 < n && cfg.runOnce) &&
      (r.stop == ShutDown ==> 0 < n && !cfg.runOnce && cycles[n - 1].flagBeforeSleep) &&
      (r.stop.Died? ==> 0 < n && r.iterations[n - 1].next == Crash(r.stop.error))
    decreases |cycles|
  {
    if cycles != [] {
      var it := step(cycles[0], disk);
      assert EndsAsMainDecides(cfg, cycles[0], it);
      if it.next.Sleep? {
        RunStops(step, cfg, cycles[1..], it.disk);
        var rest := RunOf(step, cycles[1..], it.disk);
        var r := RunOf(step, cycles, disk);
        assert r.iterations == [it] + rest.iterations;
        if r.stop != Running {
          assert r.iterations[|r.iterations| - 1] == rest.iterations[|rest.iterations| - 1];
          assert cycles[|r.iterations| - 1] == cycles[1..][|rest.iterations| - 1];
        }
      }
    }
  }

  /** With RUN_ONCE the loop runs one iteration, never sleeps, and does not go on. */
  lemma RunOnceRunsOneIteration(v: Variant, cfg: Config, cycles: seq<Cycle>, disk: Disk)
    requires cfg.runOnce && cycles != []
    ensures var r := RunSpec(v, cfg, cycles, disk);
      |r.iterations| == 1 && (r.stop == RanOnce || r.stop.Died?)
  {
    IterationEnds(v, cfg);
    RunSleeps(Step(v, cfg), cfg, cycles, disk);
    RunStops(Step(v, cfg), cfg, cycles, disk);
  }

  /**
   * If main's check before sleeping sees the flag in iteration k, the loop
   * stops there at the latest, before sleeping.
   */
  lemma FlagStopsBeforeSleeping(v: Variant, cfg: Config, cycles: seq<Cycle>, disk: Disk, k: nat)
    requires k < |cycles| && cycles[k].flagBeforeSleep
    ensures var r := RunSpec(v, cfg, cycles, disk);
      |r.iterations| <= k + 1 && r.stop != Running
  {
    IterationEnds(v, cfg);
    RunSleeps(Step(v, cfg), cfg, cycles, disk);
  }

  /**
   * A negative BACKUP_INTERVAL_SEC never lets main sleep: the run stops in
   * its first iteration, and it dies there unless run_once or the flag ends
   * it first.
   */
  lemma NegativeIntervalStopsFirstIteration(v: Variant, cfg: Config, cycles: seq<Cycle>, disk: Disk)
    requires cfg.interval < 0 && cycles != []
    ensures var r := RunSpec(v, cfg, cycles, disk);
      |r.iterations| == 1 && r.stop != Running &&
      (!cfg.runOnce && !cycles[0].flagBeforeSleep ==> r.stop.Died?)
  {
    IterationEnds(v, cfg);
    RunSleeps(Step(v, cfg), cfg, cycles, disk);
    RunStops(Step(v, cfg), cfg, cycles, disk);
  }

  /**
   * The root copy with ETCD_CLIENT_URL unset does no backup: the leader
   * query raises in the first iteration and ends the process.
   */
  lemma RootWithoutClientUrlDies(cfg: Config, cycles: seq<Cycle>, disk: Disk)
    requires cycles != [] && cfg.clientUrl.None?
    ensures var r := RunSpec(Root, cfg, cycles, disk);
      r.stop.Died? && |r.iterations| == 1 && r.iterations[0].backup.None? && r.disk == disk
  {
    Leader.UnsetUrlRaises(cycles[0].peer);
    assert Step(Root, cfg)(cycles[0], disk) == IterationSpec(Root, cfg, cycles[0], disk);
  }

  /** A loop body that adds no path unless it raises. */
  ghost predicate CleansUp(step: (Cycle, Disk) -> Iteration)
  {
    forall c: Cycle, d: Disk :: !step(c, d).next.Crash? ==> step(c, d).disk.dirs <= d.dirs && step(c, d).disk.files <= d.files
  }

  /** The root copy's do_backup adds no path unless it raises. */
  lemma RootBackupCleansUp(prefix: string, c: Cycle, d: Disk)
    ensures var (b, after) := BackupSpec(Root, prefix, c, d);
      !Raises(b) ==> after.dirs <= d.dirs && after.files <= d.files
  {
  }

  /** The root copy's iteration removes what it creates, unless it raises first. */
  lemma RootIterationCleansUp(cfg: Config)
    ensures CleansUp(Step(Root, cfg))
  {
    forall c: Cycle, d: Disk
      ensures var it := Step(Root, cfg)(c, d);
        !it.next.Crash? ==> it.disk.dirs <= d.dirs && it.disk.files <= d.files
    {
      RootBackupCleansUp(cfg.prefix, c, d);
      var it := IterationSpec(Root, cfg, c, d);
      assert Step(Root, cfg)(c, d) == it;
    }
  }

  /** A loop whose body cleans up leaves no new path behind, unless an iteration raises. */
  lemma {:induction false} RunCleansUp(step: (Cycle, Disk) -> Iteration, cycles: seq<Cycle>, disk: Disk)
    requires CleansUp(step)
    ensures var r := RunOf(step, cycles, disk);
      !r.stop.Died? ==> r.disk.dirs <= disk.dirs && r.disk.files <= disk.files
    decreases |cycles|
  {
    if cycles != [] {
      var it := step(cycles[0], disk);
      if it.next.Sleep? {
        RunCleansUp(step, cycles[1..], it.disk);
      }
    }
  }

  /**
   * The root copy leaves nothing behind: a run that does not die ends with
   * no directory or file that was not there before it started.
   */
  lemma RootRunLeavesNoArtifacts(cfg: Config, cycles: seq<Cycle>, disk: Disk)
    ensures var r := RunSpec(Root, cfg, cycles, disk);
      !r.stop.Died? ==> r.disk.dirs <= disk.dirs && r.disk.files <= disk.files
  {
    RootIterationCleansUp(cfg);
    RunCleansUp(Step(Root, cfg), cycles, disk);
  }

  /**
   * A loop body that removes nothing, and that leaves the cycle's directory
   * and archive in place unless it raises.
   */
  ghost predicate KeepsArtifacts(step: (Cycle, Disk) -> Iteration)
  {
    forall c: Cycle, d: Disk ::
      d.dirs <= step(c, d).disk.dirs && d.files <= step(c, d).disk.files &&
      (!step(c, d).next.Crash? ==> BackupDir(c.stamp) in step(c, d).disk.dirs && ArchivePath(c.stamp) in step(c, d).disk.files)
  }

  /** The nested copy's do_backup removes nothing, and leaves its directory and archive unless it raises. */
  lemma NestedBackupKeepsArtifacts(prefix: string, c: Cycle, d: Disk)
    ensures var (b, after) := BackupSpec(Nested, prefix, c, d);
      d.dirs <= after.dirs && d.files <= after.files &&
      (!Raises(b) ==> BackupDir(c.stamp) in after.dirs && ArchivePath(c.stamp) in after.files)
  {
  }

  /** The nested copy's iteration backs up and never removes anything. */
  lemma NestedIterationKeepsArtifacts(cfg: Config)
    ensures KeepsArtifacts(Step(Nested, cfg))
  {
    forall c: Cycle, d: Disk
      ensures var it := Step(Nested, cfg)(c, d);
        d.dirs <= it.disk.dirs && d.files <= it.disk.files &&
        (!it.next.Crash? ==> BackupDir(c.stamp) in it.disk.dirs && ArchivePath(c.stamp) in it.disk.files)
    {
      NestedBackupKeepsArtifacts(cfg.prefix, c, d);
      var it := IterationSpec(Nested, cfg, c, d);
      assert Step(Nested, cfg)(c, d) == it;
    }
  }

  /**
   * A loop whose body keeps its artifacts loses no path, and after a run
   * that does not die, every iteration's directory and archive are there.
   */
  lemma {:induction false} RunKeepsArtifacts(step: (Cycle, Disk) -> Iteration, cycles: seq<Cycle>, disk: Disk)
    requires KeepsArtifacts(step)
    ensures var r := RunOf(step, cycles, disk);
      disk.dirs <= r.disk.dirs && disk.files <= r.disk.files && |r.iterations| <= |cycles| &&
      (!r.stop.Died? ==> forall k :: 0 <= k < |r.iterations| ==>
         BackupDir(cycles[k].stamp) in r.disk.dirs && ArchivePath(cycles[k].stamp) in r.disk.files)
    decreases |cycles|
  {
    if cycles != [] {
      var it := step(cycles[0], disk);
      if it.next.Sleep? {
        RunKeepsArtifacts(step, cycles[1..], it.disk);
        var rest := RunOf(step, cycles[1..], it.disk);
        var r := RunOf(step, cycles, disk);
        assert r.iterations == [it] + rest.iterations;
        if !r.stop.Died? {
          forall k | 0 < k < |r.iterations|
            ensures BackupDir(cycles[k].stamp) in r.disk.dirs && ArchivePath(cycles[k].stamp) in r.disk.files
          {
            assert cycles[k] == cycles[1..][k - 1];
          }
        }
      }
    }
  }

  /**
   * The nested copy deletes nothing: every path that existed stays, and
   * after a run that does not die, the directory and archive of every
   * iteration are still there.
   */
  lemma NestedRunKeepsArtifacts(cfg: Config, cycles: seq<Cycle>, disk: Disk)
    ensures var r := RunSpec(Nested, cfg, cycles, disk);
      disk.dirs <= r.disk.dirs && disk.files <= r.disk.files && |r.iterations| <= |cycles| &&
      (!r.stop.Died? ==> forall k :: 0 <= k < |r.iterations| ==>
         BackupDir(cycles[k].stamp) in r.disk.dirs && ArchivePath(cycles[k].stamp) in r.disk.files)
  {
    NestedIterationKeepsArtifacts(cfg);
    RunKeepsArtifacts(Step(Nested, cfg), cycles, disk);
  }
}
