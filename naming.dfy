/**
 * Artifact naming in do_backup: the snapshot directory
 * /tmp/etcd-backup-<YYYY-MM-DD-HHMMSS>, the archive beside it with the
 * suffix .tar.gz, and the object-store key made of the configured prefix
 * and the archive's base name. Both copies of do_backup build these names
 * the same way, so they are defined once here.
 */
module Naming {
  import opened Common

  /** BACKUP_BASE_DIR */
  const BackupBaseDir: string := "/tmp"
  const NamePrefix: string := "etcd-backup-"
  const ArchiveSuffix: string := ".tar.gz"

  /** The fields of datetime.utcnow() that strftime('%Y-%m-%d-%H%M%S') prints. */
  datatype Timestamp = Timestamp(year: nat, month: nat, day: nat, hour: nat, minute: nat, second: nat)

  /** A leap year of the proleptic Gregorian calendar Python's datetime uses. */
  predicate IsLeapYear(year: nat)
  {
    year % 4 == 0 && (year % 100 != 0 || year % 400 == 0)
  }

  /** The number of days in a month of a year. */
  function DaysInMonth(year: nat, month: nat): nat
    requires 1 <= month <= 12
  {
    if month == 2 then (if IsLeapYear(year) then 29 else 28)
    else if month in {4, 6, 9, 11} then 30
    else 31
  }

  /** The dates and times a Python datetime can hold, to the second. */
  predicate ValidTimestamp(t: Timestamp)
  {
    1 <= t.year <= 9999 && 1 <= t.month <= 12 && 1 <= t.day <= DaysInMonth(t.year, t.month) &&
    t.hour < 24 && t.minute < 60 && t.second < 60
  }

  function Pow10(k: nat): nat
  {
    if k == 0 then 1 else 10 * Pow10(k - 1)
  }

  predicate IsDigit(c: char)
  {
    '0' <= c <= '9'
  }

  predicate AllDigits(s: string)
  {
    forall i :: 0 <= i < |s| ==> IsDigit(s[i])
  }

  function DigitChar(d: nat): (c: char)
    requires d < 10
    ensures IsDigit(c)
  {
    (d + '0' as int) as char
  }

  function DigitValue(c: char): (d: nat)
    requires IsDigit(c)
    ensures d < 10 && DigitChar(d) == c
  {
    c as int - '0' as int
  }

  /**
   * n in decimal, zero-padded on the left to at least `width` digits, as
   * strftime prints %Y (width 4) and %m, %d, %H, %M, %S (width 2).
   */
  function Pad(n: nat, width: nat): string
    decreases width, n
  {
    if width == 0 then
      if n == 0 then "" else Pad(n / 10, 0) + [DigitChar(n % 10)]
    else
      Pad(n / 10, width - 1) + [DigitChar(n % 10)]
  }

  /** The number a string of decimal digits denotes. */
  function Value(s: string): nat
  {
    if s == [] then 0
    else Value(s[..|s| - 1]) * 10 + (if IsDigit(s[|s| - 1]) then DigitValue(s[|s| - 1]) else 0)
  }

  /** strftime('%Y-%m-%d-%H%M%S'): digits and dashes only, so never a `/`. */
  function Stamp(t: Timestamp): (r: string)
    ensures '/' !in r
  {
    PadDigits(t.year, 4);
    PadDigits(t.month, 2);
    PadDigits(t.day, 2);
    PadDigits(t.hour, 2);
    PadDigits(t.minute, 2);
    PadDigits(t.second, 2);
    Pad(t.year, 4) + "-" + Pad(t.month, 2) + "-" + Pad(t.day, 2) + "-" +
    Pad(t.hour, 2) + Pad(t.minute, 2) + Pad(t.second, 2)
  }

  /** backup_dir, which is base_path: the entry etcd-backup-<stamp> directly under /tmp. */
  function BackupDir(t: Timestamp): (r: string)
    ensures |BackupBaseDir| + 1 < |r| && r[..|BackupBaseDir| + 1] == BackupBaseDir + "/"
    ensures |r| == |BackupBaseDir| + 1 + |NamePrefix| + |Stamp(t)|
    ensures BaseName(r) == NamePrefix + Stamp(t)
  {
    var name := NamePrefix + Stamp(t);
    assert '/' !in NamePrefix;
    BaseNameOfLastComponent(BackupBaseDir, name);
    BackupBaseDir + "/" + name
  }

  /**
   * backup_file: the directory's path followed by .tar.gz, so the archive
   * sits beside the directory and is named etcd-backup-<stamp>.tar.gz.
   */
  function ArchivePath(t: Timestamp): (r: string)
    ensures |r| == |BackupDir(t)| + |ArchiveSuffix|
    ensures r[..|BackupDir(t)|] == BackupDir(t) && r[|BackupDir(t)|..] == ArchiveSuffix
    ensures BaseName(r) == NamePrefix + Stamp(t) + ArchiveSuffix
  {
    var dir, stem := BackupDir(t), NamePrefix + Stamp(t);
    assert '/' !in NamePrefix && '/' !in ArchiveSuffix && '/' !in stem + ArchiveSuffix;
    assert dir == BackupBaseDir + "/" + stem;
    assert dir + ArchiveSuffix == BackupBaseDir + "/" + (stem + ArchiveSuffix);
    BaseNameOfLastComponent(BackupBaseDir, stem + ArchiveSuffix);
    dir + ArchiveSuffix
  }

  /**
   * os.path.basename: the longest tail of the path without a `/`; it is
   * the whole path or follows a `/`.
   */
  function BaseName(path: string): (r: string)
    ensures '/' !in r
    ensures |r| <= |path| && r == path[|path| - |r|..]
    ensures |r| < |path| ==> path[|path| - |r| - 1] == '/'
  {
    if path == [] then []
    else if path[|path| - 1] == '/' then []
    else
      var init := path[..|path| - 1];
      var r := BaseName(init);
      assert r + [path[|path| - 1]] == path[|path| - |r| - 1..];
      r + [path[|path| - 1]]
  }

  /** s3_key: the configured prefix followed by the archive's name. */
  function S3Key(prefix: string, t: Timestamp): (r: string)
    ensures r == prefix + NamePrefix + Stamp(t) + ArchiveSuffix
  {
    prefix + BaseName(ArchivePath(t))
  }

  /** Reads a name stamp back; the inverse of Stamp. */
  function ParseStamp(s: string): Option<Timestamp>
  {
    if |s| == 17 && s[4] == '-' && s[7] == '-' && s[10] == '-' &&
       AllDigits(s[..4]) && AllDigits(s[5..7]) && AllDigits(s[8..10]) && AllDigits(s[11..])
    then
      var t := Timestamp(Value(s[..4]), Value(s[5..7]), Value(s[8..10]),
                         Value(s[11..13]), Value(s[13..15]), Value(s[15..]));
      if ValidTimestamp(t) then Some(t) else None
    else None
  }

  lemma {:induction false} PadDigits(n: nat, width: nat)
    ensures AllDigits(Pad(n, width))
    decreases width, n
  {
    if width == 0 {
      if n != 0 {
        PadDigits(n / 10, 0);
      }
    } else {
      PadDigits(n / 10, width - 1);
    }
  }

  /** A field below 10^width prints as exactly `width` digits that read back as the field. */
  lemma {:induction false} PadRoundTrip(n: nat, width: nat)
    requires n < Pow10(width)
    ensures |Pad(n, width)| == width && Value(Pad(n, width)) == n
  {
    if width > 0 {
      assert n / 10 < Pow10(width - 1);
      PadRoundTrip(n / 10, width - 1);
      PadDigits(n / 10, width - 1);
      var p := Pad(n / 10, width - 1);
      var s := p + [DigitChar(n % 10)];
      assert s[..|s| - 1] == p;
      assert Value(s) == Value(p) * 10 + n % 10;
    }
  }

  /** Any string of digits is the padded print of its value, at its own width. */
  lemma {:induction false} ValueRoundTrip(s: string)
    requires AllDigits(s)
    ensures Value(s) < Pow10(|s|) && Pad(Value(s), |s|) == s
  {
    if s != [] {
      var p := s[..|s| - 1];
      var d := DigitValue(s[|s| - 1]);
      ValueRoundTrip(p);
      var v := Value(s);
      assert v == Value(p) * 10 + d;
      assert v / 10 == Value(p) && v % 10 == d;
      assert s == p + [s[|s| - 1]];
    }
  }

  /** os.path.basename keeps exactly the last component of a path. */
  lemma {:induction false} BaseNameOfLastComponent(dir: string, name: string)
    requires '/' !in name
    ensures BaseName(dir + "/" + name) == name
    decreases |name|
  {
    var path := dir + "/" + name;
    if name == [] {
      assert path[|path| - 1] == '/';
    } else {
      var init := name[..|name| - 1];
      assert path[..|path| - 1] == dir + "/" + init;
      BaseNameOfLastComponent(dir, init);
      assert name == init + [name[|name| - 1]];
    }
  }

  /** The slices ParseStamp reads out of a stamp are its six fields. */
  lemma StampFields(y: string, mo: string, d: string, h: string, mi: string, se: string)
    requires |y| == 4 && |mo| == 2 && |d| == 2 && |h| == 2 && |mi| == 2 && |se| == 2
    ensures var s := y + "-" + mo + "-" + d + "-" + h + mi + se;
      |s| == 17 && s[4] == '-' && s[7] == '-' && s[10] == '-' &&
      s[..4] == y && s[5..7] == mo && s[8..10] == d &&
      s[11..] == h + mi + se && s[11..13] == h && s[13..15] == mi && s[15..] == se
  {
  }

  /** The stamp of a timestamp whose fields fit their widths has the shape ParseStamp reads, and its fields. */
  lemma StampShape(t: Timestamp)
    requires t.year < 10000 && t.month < 100 && t.day < 100 && t.hour < 100 && t.minute < 100 && t.second < 100
    ensures var s := Stamp(t);
      |s| == 17 && s[4] == '-' && s[7] == '-' && s[10] == '-' &&
      AllDigits(s[..4]) && AllDigits(s[5..7]) && AllDigits(s[8..10]) && AllDigits(s[11..]) &&
      Timestamp(Value(s[..4]), Value(s[5..7]), Value(s[8..10]), Value(s[11..13]), Value(s[13..15]), Value(s[15..])) == t
  {
    PadRoundTrip(t.year, 4);
    PadRoundTrip(t.month, 2);
    PadRoundTrip(t.day, 2);
    PadRoundTrip(t.hour, 2);
    PadRoundTrip(t.minute, 2);
    PadRoundTrip(t.second, 2);
    PadDigits(t.year, 4);
    PadDigits(t.month, 2);
    PadDigits(t.day, 2);
    PadDigits(t.hour, 2);
    PadDigits(t.minute, 2);
    PadDigits(t.second, 2);
    var hms := Pad(t.hour, 2) + Pad(t.minute, 2) + Pad(t.second, 2);
    assert AllDigits(hms);
    StampFields(Pad(t.year, 4), Pad(t.month, 2), Pad(t.day, 2), Pad(t.hour, 2), Pad(t.minute, 2), Pad(t.second, 2));
  }

  /** The stamp in an artifact name determines the timestamp it was made from. */
  lemma StampRoundTrip(t: Timestamp)
    requires ValidTimestamp(t)
    ensures |Stamp(t)| == 17
    ensures ParseStamp(Stamp(t)) == Some(t)
  {
    StampShape(t);
  }

  /** A 17-character string with dashes at 4, 7 and 10 is its six fields joined the way Stamp joins them. */
  lemma StampSplit(s: string)
    requires |s| == 17 && s[4] == '-' && s[7] == '-' && s[10] == '-'
    ensures s == s[..4] + "-" + s[5..7] + "-" + s[8..10] + "-" + s[11..13] + s[13..15] + s[15..]
  {
  }

  /** The three two-digit fields inside the digits after the last dash. */
  lemma TimeFieldsDigits(s: string)
    requires |s| == 17 && AllDigits(s[11..])
    ensures AllDigits(s[11..13]) && AllDigits(s[13..15]) && AllDigits(s[15..])
  {
    forall i | 0 <= i < 2
      ensures IsDigit(s[11..13][i]) && IsDigit(s[13..15][i]) && IsDigit(s[15..][i])
    {
      assert s[11..13][i] == s[11..][i] && s[13..15][i] == s[11..][i + 2] && s[15..][i] == s[11..][i + 4];
    }
  }

  /** Every stamp ParseStamp accepts is the print of the timestamp it returns. */
  lemma ParseStampInverts(s: string, t: Timestamp)
    requires ParseStamp(s) == Some(t)
    ensures ValidTimestamp(t) && Stamp(t) == s
  {
    TimeFieldsDigits(s);
    ValueRoundTrip(s[..4]);
    ValueRoundTrip(s[5..7]);
    ValueRoundTrip(s[8..10]);
    ValueRoundTrip(s[11..13]);
    ValueRoundTrip(s[13..15]);
    ValueRoundTrip(s[15..]);
    StampSplit(s);
  }

  /**
   * Backups started in different seconds get different directories,
   * archives and object keys, so none overwrites another.
   */
  lemma DistinctTimestampsDistinctNames(prefix: string, a: Timestamp, b: Timestamp)
    requires ValidTimestamp(a) && ValidTimestamp(b) && a != b
    ensures BackupDir(a) != BackupDir(b)
    ensures ArchivePath(a) != ArchivePath(b)
    ensures S3Key(prefix, a) != S3Key(prefix, b)
  {
    StampRoundTrip(a);
    StampRoundTrip(b);
    if BackupDir(a) == BackupDir(b) {
      assert NamePrefix + Stamp(a) + [] == NamePrefix + Stamp(b) + [];
      InnerEqual(NamePrefix, Stamp(a), Stamp(b), []);
    }
    if ArchivePath(a) == ArchivePath(b) {
      InnerEqual(NamePrefix, Stamp(a), Stamp(b), ArchiveSuffix);
    }
    if S3Key(prefix, a) == S3Key(prefix, b) {
      InnerEqual(prefix + NamePrefix, Stamp(a), Stamp(b), ArchiveSuffix);
    }
  }

  /** Two names built the same way around parts of equal length have equal parts. */
  lemma InnerEqual(pre: string, s1: string, s2: string, suf: string)
    requires |s1| == |s2| && pre + s1 + suf == pre + s2 + suf
    ensures s1 == s2
  {
    assert s1 == (pre + s1 + suf)[|pre|..|pre| + |s1|];
    assert s2 == (pre + s2 + suf)[|pre|..|pre| + |s2|];
  }
}
