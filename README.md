# etcd-backup: a verified model of the backup agent's control flow

etcd-backup is a small Python daemon that runs next to an etcd member. In
each round it:

- takes a snapshot with `etcdctl backup` into `/tmp/etcd-backup-<stamp>`;
- packs that directory into `<dir>.tar.gz`;
- uploads the archive to S3 under `S3_PREFIX + basename(archive)`, making at most 10 attempts, with a delay between attempts that starts at 0.1 s and doubles;
- reports the archive size as a metric;
- then sleeps `BACKUP_INTERVAL_SEC`, or exits on `RUN_ONCE` or on SIGTERM/SIGINT.

The repository has two copies of the agent:

- **Root copy** (`etcd-backup.py`): asks the local member whether it is the Raft leader (`is_leader`) before each backup, and removes the snapshot directory and archive in a `finally` around the upload.
- **Nested copy** (`etcd-backup/etcd-backup.py`): backs up in every round and never removes anything.

This project models both copies in Dafny and proves what their control flow guarantees. The modules are:

- `Common`: bytes, `Option`, `Result`, and Python exceptions as `Error` values.
- `Naming`: the timestamp, directory, archive and object-key strings that `do_backup` builds. It also has a parser that inverts the timestamp format.
- `Digest`: `get_file_md5_sum`'s 512-byte read loop. MD5 is a function parameter.
- `Leader`: `is_leader`. The HTTP exchange is an input, and each way the Python call chain raises is a `Failure`.
- `UploadRetry`: the upload retry loop as specification functions (`Retry`, the accumulator form `UploadFrom`, and `Upload`), with lemmas about how the loop ends and how long it sleeps.
- `Schedule`: one pass of `main`'s loop body (`IterationSpec`, with a `Variant` of `Root` or `Nested`), `do_backup` as a function (`BackupSpec`), and the loop itself (`RunOf`) for any loop body. It also holds the run-level lemmas.
- `RootAgent` and `NestedAgent`: each copy's `do_backup` retry loop, `do_backup`, one pass of `main`'s loop body, and `main`'s loop, written as imperative methods. Each method is proved equal to the matching specification function.

How the outside world enters the model:

- **Shutdown flag.** The signal handler may set `should_shut_down` at any moment, so the flag's value at each check is an input. `flags[i]` is the check before upload attempt `i`; `flagBeforeSleep` is `main`'s check.
- **Upload attempts.** Each attempt ends as `Delivered`, `PutRaised` or `MetricsRaised`. `submit_metrics` sits inside the same `try`, so a metrics failure also leads to a retry.
- **Snapshot and archive steps.** `etcdctl` and `tarfile` end as `Finished`, or as `Raised` with or without leaving their output path behind.
- **Other inputs.** The leader query's reply, the clock reading and the archive size are inputs too.
- **Units.** Delays are whole tenths of a second.
- **The endless loop.** `main`'s `while True` runs over a finite sequence of per-round inputs; `Running` means the inputs ran out while the loop was still going.
- **Files on disk.** The file system is the set of directories and files that exist.

## Model

| member | source | states |
|---|---|---|
| Naming.PadRoundTrip | etcd-backup.py:83 | a timestamp field below 10^width prints (`%Y`, `%m`, `%d`, `%H`, `%M`, `%S`) as exactly `width` digits that read back as the field |
| Naming.ValueRoundTrip | etcd-backup.py:83 | every digit string is the zero-padded print of its own value at its own width |
| Naming.PadDigits | etcd-backup.py:83 | a zero-padded field consists of decimal digits only |
| Naming.Stamp | etcd-backup.py:83 | the strftime stamp contains no `/`, so it stays inside one path component |
| Naming.BaseName | etcd-backup.py:90 | `os.path.basename` returns the tail of the path after its last `/`: the result has no `/`, ends the path, and is the whole path or follows a `/` |
| Naming.BackupDir | etcd-backup.py:83-85 | the snapshot directory sits directly in `/tmp/`, and its last component is `etcd-backup-<stamp>` |
| Naming.ArchivePath | etcd-backup.py:86 | the archive path is the directory path followed by `.tar.gz`, so the archive sits beside the directory and its basename is `etcd-backup-<stamp>.tar.gz` |
| Naming.BaseNameOfLastComponent | etcd-backup.py:90 | `os.path.basename(dir + "/" + name)` is `name` whenever `name` has no `/` |
| Naming.S3Key | etcd-backup.py:90 | the object key is `s3_prefix + "etcd-backup-" + stamp + ".tar.gz"` |
| Naming.StampShape | etcd-backup.py:83 | the stamp of fields that fit their widths has dashes at offsets 4, 7 and 10, digits everywhere else, and slices that read back as the six fields |
| Naming.StampRoundTrip | etcd-backup.py:83 | the stamp of a valid timestamp is 17 characters long and parses back to that same timestamp |
| Naming.ParseStampInverts | etcd-backup.py:83 | every string the parser accepts is the stamp of the valid timestamp it returns, so the format and the parser are inverse bijections |
| Naming.DistinctTimestampsDistinctNames | etcd-backup/etcd-backup.py:72-79 | backups started in different seconds get different directories, archives and object keys |
| Digest.ChunksCoverFile | etcd-backup.py:150-155 | the chunks the read loop produces concatenate to exactly the file contents |
| Digest.Read | etcd-backup.py:152 | `f.read(512)` at an offset returns the file's next bytes: 512 of them unless fewer are left, so it comes back empty exactly at the end of the file |
| Digest.ChunkSizes | etcd-backup.py:152 | every chunk is non-empty and at most 512 bytes, and every chunk except the last is exactly 512 bytes |
| Digest.FileMd5Sum | etcd-backup.py:148-156 | the loop feeds the hasher exactly the chunks of the file, in order; it returns md5 of the whole file; it reads once more than it feeds, and that last read is the empty one that stops it (the nested copy at etcd-backup/etcd-backup.py:124-132 is the same code) |
| Leader.PeerState | etcd-backup.py:118-120 | the state is found exactly for a URL that requests sends (an http(s) scheme), a response whose status is not 4xx/5xx, and a JSON object body with a `state` field, and it is that field; at a sendable URL, no response raises the transport's own error |
| Leader.IsLeader | etcd-backup.py:116-122 | `is_leader` answers True exactly when the reported state is the string `StateLeader`, answers False for any other state, and raises exactly the error that fetching the state raises |
| Leader.UnsetUrlRaises | etcd-backup.py:118 | with `ETCD_CLIENT_URL` unset, the request goes to `None/v2/stats/self`, which has no `:` and so no scheme; `is_leader` raises requests' MissingSchema whatever etcd would have answered |
| Leader.AnswerNeedsStateField | etcd-backup.py:118-120 | `is_leader` returns only for a set URL whose scheme is http or https (after leading blanks, in any letter case), a response whose status is not 4xx/5xx, and a JSON object body that has a `state` field |
| UploadRetry.UploadFromIsRetry | etcd-backup.py:92-108 | the loop's running state (attempts made, sleeps so far, next delay) agrees with the recursive definition of the loop on the remaining inputs and retries |
| UploadRetry.Retry | etcd-backup.py:92-108 | the loop makes at most `retries` uploads, at least one unless the flag is set at the first check, and reports the archive size once, exactly when it ends by uploading |
| UploadRetry.UploadStartsFrom | etcd-backup.py:92-96 | the loop entered with retries = 10, delay = 0.1 s, no attempts and no sleeps is the whole upload phase |
| UploadRetry.RetryEnding | etcd-backup.py:96-105 | the flag is checked before every attempt and every attempt but a successful last one failed. Success is the first delivered attempt and the only case that records a metric. Cancellation happens at a check that saw the flag. Giving up follows exactly `retries` failures and re-raises the last error. |
| UploadRetry.RetryDelays | etcd-backup.py:93-108 | one sleep follows every failure that does not end the loop, and the k-th sleep lasts delay·2^k |
| UploadRetry.AllFailuresGiveUp | etcd-backup.py:92-105 | if every attempt fails with the flag clear: 10 uploads; 9 sleeps of 0.1·2^k s; no metric; the tenth error is re-raised |
| UploadRetry.FailuresThenSuccess | etcd-backup.py:98-100 | n failures then a delivered upload: n + 1 uploads, n doubling sleeps, one metric with the archive size, no upload after the success |
| UploadRetry.ShutdownStopsRetrying | etcd-backup.py:96 | the flag first seen before attempt n (n = 0 included): n uploads and n sleeps; no metric; the loop returns without raising |
| RootAgent.UploadLoop | etcd-backup.py:92-108 | the `while not should_shut_down` loop with its `retries` and `delay` locals computes exactly `Upload` |
| RootAgent.DoBackup | etcd-backup.py:82-113 | `do_backup` equals `BackupSpec(Root, …)`. The key is `prefix + "etcd-backup-" + stamp + ".tar.gz"`. Once the upload loop has run, the `finally` removes the directory and then the archive: if both removals finish, both are gone; if `rmtree` raises, its error is what `do_backup` raises and the archive stays. A failure in `generate_backup` or `compress_files` happens before the `try` and may leave them behind. |
| RootAgent.Iterate | etcd-backup.py:65-79 | one pass of the loop body: `is_leader`, then `do_backup` if leader; then `run_once`, the flag, or a sleep. It equals `IterationSpec(Root, …)`. |
| RootAgent.MainLoop | etcd-backup.py:64-79 | `main`'s `while True` equals `RunSpec(Root, …)` |
| NestedAgent.UploadLoop | etcd-backup/etcd-backup.py:81-99 | the `while True` loop with the flag test at its top computes exactly the same `Upload` as the root copy |
| NestedAgent.DoBackup | etcd-backup/etcd-backup.py:71-99 | `do_backup` equals `BackupSpec(Nested, …)` and has the same key. It removes nothing. After the upload phase, on every exit path, both the directory and the archive exist. After a compress failure the directory exists. |
| NestedAgent.Iterate | etcd-backup/etcd-backup.py:35-43 | one pass of the loop body: `do_backup` unconditionally, then `run_once`, the flag, or a sleep. It equals `IterationSpec(Nested, …)`. |
| NestedAgent.MainLoop | etcd-backup/etcd-backup.py:34-43 | `main`'s `while True` equals `RunSpec(Nested, …)` |
| Schedule.RunStep | etcd-backup.py:64-79 | unfolding the loop by one pass: after a sleep the loop goes round again on the next round's inputs, otherwise it stops with that pass |
| Schedule.BackupRunsWhen | etcd-backup.py:67-68 | the root copy backs up exactly when `is_leader` returns True; the nested copy backs up in every pass; a pass without a backup leaves the disk unchanged |
| Schedule.ErrorsEndTheProcess | etcd-backup.py:67-79 | nothing in `main` catches: a raising `is_leader` or `do_backup`, or `time.sleep` given a negative interval, ends the pass with that error, and nothing else does |
| Schedule.CleanupErrorReplaces | etcd-backup.py:109-113 | in the root copy, once the upload loop has run, `do_backup` ends as the upload loop decides exactly when both removals finish. An exception from `rmtree` or `os.remove` is what it raises, even when the loop gave up with its own error. A raising `rmtree` skips `os.remove`, so the archive stays. |
| Schedule.RootBackupCleansUp | etcd-backup.py:82-113 | a root `do_backup` that does not raise adds no directory or file |
| Schedule.CancelledBackupIsLast | etcd-backup.py:75-76 | a backup whose upload loop was cancelled by the flag is the last one: the pass exits on `run_once` or on the flag instead of sleeping |
| Schedule.IterationEnds | etcd-backup.py:70-79 | in both copies a pass sleeps for `backup_interval` only with `run_once` off and the flag clear (and so only for an interval that is not negative). It exits on `run_once` only with `run_once` on, and on the flag only with `run_once` off and the flag set. |
| Schedule.RunSleeps | etcd-backup.py:64-79 | every pass before the last slept for `backup_interval` with `run_once` off and the flag clear; the loop runs out of inputs only if every pass slept |
| Schedule.RunStops | etcd-backup.py:64-79 | a loop that stops does so for the reason its last pass gives: the error it raised, `run_once`, or the flag seen before sleeping |
| Schedule.RunOnceRunsOneIteration | etcd-backup.py:70-72 | with `RUN_ONCE` the loop makes exactly one pass and never sleeps; it exits normally or dies with an error |
| Schedule.FlagStopsBeforeSleeping | etcd-backup.py:74-76 | if the check before sleeping sees the flag in pass k, the loop has stopped by pass k, without sleeping |
| Schedule.NegativeIntervalStopsFirstIteration | etcd-backup.py:58-79 | with a negative `BACKUP_INTERVAL_SEC` the loop never sleeps: it stops in its first pass, and dies there unless `run_once` or the flag ends it first |
| Schedule.RootWithoutClientUrlDies | etcd-backup.py:62-68 | the root copy with `ETCD_CLIENT_URL` unset makes no backup: the first pass dies in `is_leader` with the disk untouched |
| Schedule.RootIterationCleansUp | etcd-backup.py:109-113 | a root pass that does not raise leaves no new directory or file |
| Schedule.RunCleansUp | etcd-backup.py:64-79 | a loop whose passes leave nothing new behind also leaves nothing new behind as a whole, unless it dies |
| Schedule.RootRunLeavesNoArtifacts | etcd-backup.py:64-113 | a root run that does not die ends with no directory or file that was not there before it started |
| Schedule.NestedBackupKeepsArtifacts | etcd-backup/etcd-backup.py:71-99 | the nested `do_backup` removes nothing, and unless it raises it leaves its directory and archive |
| Schedule.NestedIterationKeepsArtifacts | etcd-backup/etcd-backup.py:34-43 | a nested pass removes nothing, and unless it raises it leaves that round's directory and archive |
| Schedule.RunKeepsArtifacts | etcd-backup/etcd-backup.py:34-43 | a loop whose passes keep their artifacts loses no path; after a run that does not die, every pass's directory and archive exist |
| Schedule.NestedRunKeepsArtifacts | etcd-backup/etcd-backup.py:34-99 | a nested run removes nothing, and after a run that does not die, every round's directory and archive are still in `/tmp` |

## Left out

- `generate_backup` and `compress_files` (`etcdctl backup`, `tarfile`): each is an external step that either finishes or raises. When it raises, it may or may not have left its output path. The content of the snapshot and the archive is not modelled.
- `upload_file`: the boto3 `put`, the base64 `Content-MD5` header and the S3 endpoint are foreign calls, so each attempt's outcome is an input. The MD5 algorithm is a function parameter of `Digest.FileMd5Sum`. The per-attempt re-reading of the file is not tied to the upload outcome.
- `submit_metrics`: the metric name, tags, host and port, and whether the environment enables it. The model records only "returned after the upload, with this size" and "raised".
- `is_leader`: the `requests` transport and JSON decoding. The model keeps what decides the outcome: no http(s) scheme, no response, a 4xx/5xx status, a body that is not a JSON object, or no `state` field. It leaves out JSON values other than strings and objects, non-ASCII blanks before the scheme (ASCII blanks, including 0x1c-0x1f, are stripped as Python 2's `unicode.lstrip` does), and the exact wording of requests' exception messages. A URL with an http(s) scheme but no host makes requests raise before sending; the model leaves that case to the reply input (`NoResponse`).
- Signal handling: `sig_handler` and the asynchronous write to `should_shut_down` are not modelled as concurrency. The flag's value at each check is an input, and `FlagStaysSet` states, where it is needed, that the flag never goes back to clear.
- `time.sleep` and floating-point delays: delays are recorded in tenths of a second (0.1 s = 1), and nothing sleeps. A negative `BACKUP_INTERVAL_SEC` makes `time.sleep` raise; the model gives it Python 2's error (an `IOError` for EINVAL).
- The root copy's `finally`: `shutil.rmtree` and `os.remove` each finish or raise, and a raising one either leaves its path or not; a partly removed directory is not modelled. The `os.path.isdir` and `os.path.isfile` guards always pass in the model, because both paths exist once the upload loop starts and nothing else removes them.
- `datetime.utcnow`: the timestamp is an input. The model does not cover strftime's handling of years before 1900 under Python 2.
- Environment reading, `get_required_env_var`, `print_usage`, `sys.exit`, logging setup and log messages. `ETCD_DATA_DIR` and `S3_BUCKET` only pass through to the external steps, so they are not part of `Config`.
- `main`'s `while True` never ends on its own. The model runs it over a finite sequence of per-round inputs and reports `Running` when they run out.
- The digest loop's `b == ''` test is modelled with Python 2's `str` reads, the language the source is written in (it also uses `e.message`).

Where the code and its documentation disagree, the model follows the code:

- `ETCD_CLIENT_URL` is documented as optional. In the root copy, leaving it unset makes `is_leader` request `None/v2/stats/self`, which raises, and `main` does not catch it. So the process dies in its first round (`Schedule.RootWithoutClientUrlDies`).
- The root copy's `finally` covers only the upload loop. A raising `generate_backup` or `compress_files` can leave the snapshot directory or archive in `/tmp` (`RootAgent.DoBackup`).
- An exception from `submit_metrics` is caught by the upload `except`. The archive is then uploaded again and counts against the 10 retries (`Attempt.MetricsRaised`).
- Any exception from `do_backup`, including the re-raised last upload error, ends the process: `main` has no handler (`Schedule.ErrorsEndTheProcess`).
- In the root copy the cleanup in the `finally` can itself raise. Its exception then replaces the upload's, and a raising `rmtree` leaves the archive in `/tmp` (`Schedule.CleanupErrorReplaces`).
- `BACKUP_INTERVAL_SEC` is documented as a number of seconds to wait. `int()` also accepts a negative number, and then the first `time.sleep` raises and ends the process (`Schedule.NegativeIntervalStopsFirstIteration`).
