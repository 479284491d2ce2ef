/**
 * etcd-backup/etcd-backup.py, the copy in the etcd-backup directory: main
 * backs up in every iteration with no leader check, and do_backup has no
 * `try`/`finally`, so nothing it creates is ever removed.
 */
module NestedAgent {
  import opened Common
  import opened Naming
  import opened UploadRetry
  import opened Schedule

  /**
   * The upload loop of do_backup: `while True`, break if should_shut_down,
   * try the upload and metrics, count down the retries on an exception,
   * sleep and double the delay.
   */
  method UploadLoop(flags: seq<bool>, outcomes: seq<Attempt>, size: nat) returns (run: RetryRun)
    requires MaxRetries <= |flags| && MaxRetries <= |outcomes|
    ensures run == Upload(flags, outcomes, size)
  {
    var retries := MaxRetries;
    var delay := InitialDelay;
    var uploads := 0;
    var slept: seq<nat> := [];
    UploadStartsFrom(flags, outcomes, size);
    ghost var spec := Upload(flags, outcomes, size);
    while true
      invariant 0 < retries && uploads + retries == MaxRetries
      invariant spec == UploadFrom(flags, outcomes, size, uploads, delay, slept)
      decreases retries
    {
      if flags[uploads] {
        return RetryRun(Cancelled, uploads, slept, []);
      }
      var attempt := outcomes[uploads];
      if attempt.Delivered? {
        // submit_metrics, then break
        return RetryRun(Uploaded, uploads + 1, slept, [size]);
      }
      retries := retries - 1;
      if retries == 0 {
        // raise e
        return RetryRun(GaveUp(attempt.error), uploads + 1, slept, []);
      }
      slept := slept + [delay];
      delay := 2 * delay;
      uploads := uploads + 1;
    }
  }

  /**
   * do_backup: name the artifacts, run etcdctl backup, compress the
   * directory, then run the upload loop. Nothing is removed on any path.
   */
  method DoBackup(prefix: string, c: Cycle, disk: Disk) returns (b: BackupEnd, after: Disk)
    ensures (b, after) == BackupSpec(Nested, prefix, c, disk)
    ensures b.UploadPhase? ==>
      b.key == prefix + NamePrefix + Stamp(c.stamp) + ArchiveSuffix &&
      b.run == Upload(c.flags, c.outcomes, c.archiveSize)
    ensures disk.dirs <= after.dirs && disk.files <= after.files
    ensures b.UploadPhase? ==>
      after.dirs == disk.dirs + {BackupDir(c.stamp)} && after.files == disk.files + {ArchivePath(c.stamp)}
    ensures b.ArchiveRaised? ==> BackupDir(c.stamp) in after.dirs
  {
    var dir := BackupDir(c.stamp);
    var archive := dir + ArchiveSuffix;
    after := disk;

    // generate_backup
    if c.snapshot.Raised? {
      if c.snapshot.leftover {
        after := after.(dirs := after.dirs + {dir});
      }
      return SnapshotRaised(c.snapshot.error), after;
    }
    after := after.(dirs := after.dirs + {dir});

    // compress_files
    if c.archive.Raised? {
      if c.archive.leftover {
        after := after.(files := after.files + {archive});
      }
      return ArchiveRaised(c.archive.error), after;
    }
    after := after.(files := after.files + {archive});

    var key := prefix + BaseName(archive);

    var run := UploadLoop(c.flags, c.outcomes, c.archiveSize);
    b := UploadPhase(key, run);
  }

  /**
   * One pass through the body of main's `while True`: back up, then exit
   * on run_once, exit on the flag, or sleep. Exceptions from do_backup are
   * not caught; they end the pass as Crash.
   */
  method Iterate(cfg: Config, c: Cycle, disk: Disk) returns (it: Iteration)
    ensures it == IterationSpec(Nested, cfg, c, disk)
  {
    var b, current := DoBackup(cfg.prefix, c, disk);
    if Raises(b) {
      return Iteration(Some(b), Crash(RaisedError(b)), current);
    }
    if cfg.runOnce {
      return Iteration(Some(b), ExitRunOnce, current);
    }
    if c.flagBeforeSleep {
      return Iteration(Some(b), ExitShutdown, current);
    }
    // time.sleep(backup_interval), which raises for a negative interval
    if cfg.interval < 0 {
      return Iteration(Some(b), Crash(NegativeSleepError), current);
    }
    it := Iteration(Some(b), Sleep(cfg.interval), current);
  }

  /**
   * main's `while True` over the cycles the inputs describe; it stops at
   * the first pass that does not sleep, or when the inputs run out.
   */
  method MainLoop(cfg: Config, cycles: seq<Cycle>, disk: Disk) returns (r: RunResult)
    ensures r == RunSpec(Nested, cfg, cycles, disk)
  {
    var current := disk;
    var done: seq<Iteration> := [];
    var i := 0;
    assert cycles[0..] == cycles;
    while i < |cycles|
      invariant i <= |cycles|
      invariant RunSpec(Nested, cfg, cycles, disk) == Continued(done, RunOf(Step(Nested, cfg), cycles[i..], current))
    {
      var it := Iterate(cfg, cycles[i], current);
      RunStep(Step(Nested, cfg), cycles, i, done, current);
      assert Step(Nested, cfg)(cycles[i], current) == it;
      current := it.disk;
      if !it.next.Sleep? {
        return RunResult(StopFor(it.next), done + [it], current);
      }
      done := done + [it];
      i := i + 1;
    }
    assert cycles[i..] == [] && done + [] == done;
    r := RunResult(Running, done, current);
  }
}
