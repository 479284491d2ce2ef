/**
 * etcd-backup.py, the copy at the top of the repository: main gates every
 * backup on is_leader, and do_backup removes its directory and archive in a
 * `finally` around the upload loop.
 */
module RootAgent {
  import opened Common
  import opened Naming
  import opened UploadRetry
  import opened Schedule
  import Leader

  /**
   * The upload loop of do_backup: `while not should_shut_down`, try the
   * upload and metrics, count down the retries on an exception, sleep and
   * double the delay.
   */
  method UploadLoop(flags: seq<bool>, outcomes: seq<Attempt>, size: nat) returns (run: RetryRun)
    requires MaxRetries <= |flags| && MaxRetries <= |outcomes|
    ensures run == Upload(flags, outcomes, size)
  {
    var retries := MaxRetries;
    var delay := InitialDelay;
    var uploads := 0;
    var slept: seq<nat> := [];
    UploadStartsFrom(flags, outcomes, size);
    ghost var spec := Upload(flags, outcomes, size);
    while !flags[uploads]
      invariant 0 < retries && uploads + retries == MaxRetries
      invariant spec == UploadFrom(flags, outcomes, size, uploads, delay, slept)
      decreases retries
    {
      var attempt := outcomes[uploads];
      if attempt.Delivered? {
        // submit_metrics, then break
        return RetryRun(Uploaded, uploads + 1, slept, [size]);
      }
      retries := retries - 1;
      if retries == 0 {
        // raise e
        return RetryRun(GaveUp(attempt.error), uploads + 1, slept, []);
      }
      slept := slept + [delay];
      delay := 2 * delay;
      uploads := uploads + 1;
    }
    run := RetryRun(Cancelled, uploads, slept, []);
  }

  /**
   * do_backup: name the artifacts, run etcdctl backup and compress the
   * directory (an exception from either propagates before the `try`), then
   * run the upload loop and, however it ends, remove the directory and the
   * archive. An exception from the removals replaces the loop's ending, and
   * one from rmtree skips the archive.
   */
  method DoBackup(prefix: string, c: Cycle, disk: Disk) returns (b: BackupEnd, after: Disk)
    ensures (b, after) == BackupSpec(Root, prefix, c, disk)
    ensures b.UploadPhase? || b.CleanupRaised? ==>
      b.key == prefix + NamePrefix + Stamp(c.stamp) + ArchiveSuffix &&
      b.run == Upload(c.flags, c.outcomes, c.archiveSize)
    ensures b.UploadPhase? ==>
      after.dirs == disk.dirs - {BackupDir(c.stamp)} && after.files == disk.files - {ArchivePath(c.stamp)}
    ensures b.CleanupRaised? ==>
      after.dirs <= disk.dirs + {BackupDir(c.stamp)} && after.files <= disk.files + {ArchivePath(c.stamp)} &&
      (c.removeDir.Raised? ==> b.error == c.removeDir.error && ArchivePath(c.stamp) in after.files)
    ensures b.SnapshotRaised? ==> after.files == disk.files && after.dirs - {BackupDir(c.stamp)} == disk.dirs - {BackupDir(c.stamp)}
    ensures b.ArchiveRaised? ==> BackupDir(c.stamp) in after.dirs && after.files - {ArchivePath(c.stamp)} == disk.files - {ArchivePath(c.stamp)}
  {
    var dir := BackupDir(c.stamp);
    var archive := dir + ArchiveSuffix;
    after := disk;

    // generate_backup
    if c.snapshot.Raised? {
      if c.snapshot.leftover {
        after := after.(dirs := after.dirs + {dir});
      }
      return SnapshotRaised(c.snapshot.error), after;
    }
    after := after.(dirs := after.dirs + {dir});

    // compress_files
    if c.archive.Raised? {
      if c.archive.leftover {
        after := after.(files := after.files + {archive});
      }
      return ArchiveRaised(c.archive.error), after;
    }
    after := after.(files := after.files + {archive});

    var key := prefix + BaseName(archive);

    // try: the upload loop
    var run := UploadLoop(c.flags, c.outcomes, c.archiveSize);

    // finally: shutil.rmtree(backup_dir)
    if dir in after.dirs {
      if c.removeDir.Raised? {
        if !c.removeDir.leftover {
          after := after.(dirs := after.dirs - {dir});
        }
        return CleanupRaised(key, run, c.removeDir.error), after;
      }
      after := after.(dirs := after.dirs - {dir});
    }
    // os.remove(backup_file)
    if archive in after.files {
      if c.removeArchive.Raised? {
        if !c.removeArchive.leftover {
          after := after.(files := after.files - {archive});
        }
        return CleanupRaised(key, run, c.removeArchive.error), after;
      }
      after := after.(files := after.files - {archive});
    }
    b := UploadPhase(key, run);
  }

  /**
   * One pass through the body of main's `while True`: ask is_leader, back
   * up if leader, then exit on run_once, exit on the flag, or sleep.
   * Exceptions are not caught; they end the pass as Crash.
   */
  method Iterate(cfg: Config, c: Cycle, disk: Disk) returns (it: Iteration)
    ensures it == IterationSpec(Root, cfg, c, disk)
  {
    var leader := Leader.IsLeader(cfg.clientUrl, c.peer);
    if leader.Failure? {
      return Iteration(None, Crash(leader.error), disk);
    }
    var backup: Option<BackupEnd> := None;
    var current := disk;
    if leader.value {
      var b, after := DoBackup(cfg.prefix, c, disk);
      backup, current := Some(b), after;
      if Raises(b) {
        return Iteration(backup, Crash(RaisedError(b)), current);
      }
    }
    if cfg.runOnce {
      return Iteration(backup, ExitRunOnce, current);
    }
    if c.flagBeforeSleep {
      return Iteration(backup, ExitShutdown, current);
    }
    // time.sleep(backup_interval), which raises for a negative interval
    if cfg.interval < 0 {
      return Iteration(backup, Crash(NegativeSleepError), current);
    }
    it := Iteration(backup, Sleep(cfg.interval), current);
  }

  /**
   * main's `while True` over the cycles the inputs describe; it stops at
   * the first pass that does not sleep, or when the inputs run out.
   */
  method MainLoop(cfg: Config, cycles: seq<Cycle>, disk: Disk) returns (r: RunResult)
    ensures r == RunSpec(Root, cfg, cycles, disk)
  {
    var current := disk;
    var done: seq<Iteration> := [];
    var i := 0;
    assert cycles[0..] == cycles;
    while i < |cycles|
      invariant i <= |cycles|
      invariant RunSpec(Root, cfg, cycles, disk) == Continued(done, RunOf(Step(Root, cfg), cycles[i..], current))
    {
      var it := Iterate(cfg, cycles[i], current);
      RunStep(Step(Root, cfg), cycles, i, done, current);
      assert Step(Root, cfg)(cycles[i], current) == it;
      current := it.disk;
      if !it.next.Sleep? {
        return RunResult(StopFor(it.next), done + [it], current);
      }
      done := done + [it];
      i := i + 1;
    }
    assert cycles[i..] == [] && done + [] == done;
    r := RunResult(Running, done, current);
  }
}
