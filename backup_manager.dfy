/**
 * backup_manager.py: timestamped copies of a feed file under "backups/",
 * keeping the newest `keep_count` names that match the file's pattern, and
 * restoring a copy over the file. The file system is a map from path to
 * content; the clock's "%Y%m%d_%H%M%S" timestamp is a parameter, and
 * directories, file metadata and logging are not part of this model.
 */
module BackupManager {
  import opened Text
  import opened Wrappers

  const BackupDir: string := "backups/"
  const DefaultKeepCount: int := 30

  // ---------------------------------------------------------------------
  // Names
  // ---------------------------------------------------------------------

  /** The index just after the last `c` in `s`, 0 when there is none. */
  function AfterLast(s: string, c: char): (i: nat)
    ensures i <= |s|
    ensures c !in s[i..]
    ensures i > 0 ==> s[i - 1] == c
  {
    if s == [] then 0
    else if s[|s| - 1] == c then |s|
    else
      var i := AfterLast(s[..|s| - 1], c);
      assert s[i..] == s[..|s| - 1][i..] + [s[|s| - 1]];
      i
  }

  /** `os.path.basename`: the part after the last '/'. */
  function Basename(path: string): (b: string)
    ensures '/' !in b
    ensures EndsWith(path, b)
    ensures '/' !in path ==> b == path
  {
    var i := AfterLast(path, '/');
    assert '/' !in path ==> i == 0;
    path[i..]
  }

  predicate AllDots(s: string) {
    forall k :: 0 <= k < |s| ==> s[k] == '.'
  }

  /**
   * `os.path.splitext` on a base name (no '/'): the extension starts at the
   * last '.', unless that dot is preceded only by dots (a leading-dot name
   * has no extension).
   */
  function SplitExt(name: string): (r: (string, string))
    ensures r.0 + r.1 == name
    ensures r.1 != [] ==> r.1[0] == '.' && '.' !in r.1[1..] && !AllDots(r.0)
    ensures r.1 == [] ==> '.' !in name || AllDots(name[..AfterLast(name, '.') - 1])
  {
    var i := AfterLast(name, '.');
    if i == 0 || AllDots(name[..i - 1]) then (name, [])
    else
      assert name[i - 1..][1..] == name[i..];
      (name[..i - 1], name[i - 1..])
  }

  /** `f"{file_name}_{timestamp}{file_ext}"` for the file's base name. */
  function BackupName(filePath: string, timestamp: string): string {
    var parts := SplitExt(Basename(filePath));
    parts.0 + "_" + timestamp + parts.1
  }

  /** The glob `backups/{file_name}_*{file_ext}`: `*` stands for any text without '/'. */
  predicate Matches(path: string, filePattern: string) {
    var (stem, ext) := SplitExt(filePattern);
    var prefix := BackupDir + stem + "_";
    && |prefix| + |ext| <= |path|
    && StartsWith(path, prefix)
    && EndsWith(path, ext)
    && '/' !in path[|prefix|..|path| - |ext|]
  }

  /** A backups path whose `*` part holds no '/' matches the pattern. */
  lemma MatchesOf(pattern: string, stem: string, ext: string, mid: string, name: string)
    requires SplitExt(pattern) == (stem, ext)
    requires '/' !in mid
    requires name == stem + "_" + mid + ext
    ensures Matches(BackupDir + name, pattern)
  {
    var prefix := BackupDir + stem + "_";
    var path := BackupDir + name;
    assert path == prefix + mid + ext;
    assert path[..|prefix|] == prefix;
    assert path[|path| - |ext|..] == ext;
    assert path[|prefix|..|path| - |ext|] == mid;
  }

  /** A new backup always matches the pattern of the file it copies. */
  lemma BackupNameMatches(filePath: string, timestamp: string)
    requires '/' !in timestamp
    ensures Matches(BackupDir + BackupName(filePath, timestamp), Basename(filePath))
  {
    var parts := SplitExt(Basename(filePath));
    MatchesOf(Basename(filePath), parts.0, parts.1, timestamp, BackupName(filePath, timestamp));
  }

  /**
   * The pattern of a file also matches the backups of any file whose stem
   * extends the same stem by "_" and more ("rss_x.xml" for "rss.xml").
   */
  lemma ForeignBackupsMatch(filePath: string, otherPath: string, infix: string, timestamp: string)
    requires '/' !in timestamp
    requires SplitExt(Basename(otherPath)) == (SplitExt(Basename(filePath)).0 + "_" + infix, SplitExt(Basename(filePath)).1)
    ensures Matches(BackupDir + BackupName(otherPath, timestamp), Basename(filePath))
  {
    var parts := SplitExt(Basename(filePath));
    var stem, ext := parts.0, parts.1;
    InfixOf(Basename(otherPath), stem, infix, ext);
    Regroup(stem, infix, timestamp, ext);
    MatchesOf(Basename(filePath), stem, ext, infix + "_" + timestamp, BackupName(otherPath, timestamp));
  }

  lemma InfixOf(name: string, stem: string, infix: string, ext: string)
    requires name == stem + "_" + infix + ext
    requires '/' !in name
    ensures '/' !in infix
  {
    assert infix == name[|stem| + 1..|stem| + 1 + |infix|];
  }

  lemma Regroup(stem: string, infix: string, timestamp: string, ext: string)
    ensures (stem + "_" + infix) + "_" + timestamp + ext == stem + "_" + (infix + "_" + timestamp) + ext
  {
  }

  // ---------------------------------------------------------------------
  // Newest first
  // ---------------------------------------------------------------------

  lemma {:induction false} MaxExists(s: set<string>)
    requires s != {}
    ensures exists m :: IsGreatest(m, s)
    decreases |s|
  {
    var y :| y in s;
    if s != {y} {
      MaxExists(s - {y});
      var m :| IsGreatest(m, s - {y});
      StrLeTotal(y, m);
      if StrLe(y, m) {
        assert IsGreatest(m, s);
      } else {
        forall x | x in s ensures StrLe(x, y) {
          if x != y {
            StrLeTransitive(x, m, y);
          } else {
            StrLeReflexive(y);
          }
        }
        assert IsGreatest(y, s);
      }
    } else {
      StrLeReflexive(y);
      assert IsGreatest(y, s);
    }
  }

  predicate IsGreatest(m: string, s: set<string>) {
    m in s && forall x {:trigger StrLe(x, m)} :: x in s ==> StrLe(x, m)
  }

  lemma GreatestUnique(a: string, b: string, s: set<string>)
    requires IsGreatest(a, s) && IsGreatest(b, s)
    ensures a == b
  {
    StrLeAntisymmetric(a, b);
  }

  /** `sorted(names, reverse=True)`: each name once, greatest first. */
  ghost function Newest(s: set<string>): (r: seq<string>)
    ensures |r| == |s|
    decreases |s|
  {
    if s == {} then []
    else
      MaxExists(s);
      var m :| IsGreatest(m, s);
      [m] + Newest(s - {m})
  }

  /** `Newest` lists exactly the names of the set. */
  lemma {:induction false} NewestMembers(s: set<string>)
    ensures forall x :: x in Newest(s) <==> x in s
    decreases |s|
  {
    if s != {} {
      NewestUnfold(s);
      var m := Newest(s)[0];
      NewestMembers(s - {m});
      assert Newest(s) == [m] + Newest(s - {m});
    }
  }

  /** `Newest` lists its names strictly greatest first. */
  lemma {:induction false} NewestDescending(s: set<string>)
    ensures forall i, j :: 0 <= i < j < |Newest(s)| ==> StrLt(Newest(s)[j], Newest(s)[i])
    decreases |s|
  {
    if s != {} {
      MaxExists(s);
      var m :| IsGreatest(m, s);
      NewestHead(s, m);
      var rest := Newest(s - {m});
      NewestDescending(s - {m});
      NewestMembers(s - {m});
      var r := [m] + rest;
      forall i, j | 0 <= i < j < |r| ensures StrLt(r[j], r[i]) {
        assert r[j] == rest[j - 1];
        if i > 0 {
          assert r[i] == rest[i - 1];
        } else {
          BelowGreatest(m, s, rest[j - 1]);
        }
      }
    }
  }

  lemma BelowGreatest(m: string, s: set<string>, x: string)
    requires IsGreatest(m, s) && x in s - {m}
    ensures StrLt(x, m)
  {
    assert StrLe(x, m);
  }

  /** The first name of `Newest(s)` is its greatest one. */
  lemma NewestHead(s: set<string>, m: string)
    requires IsGreatest(m, s)
    ensures Newest(s) == [m] + Newest(s - {m})
  {
    var r := Newest(s);
    NewestUnfold(s);
    GreatestUnique(m, r[0], s);
    assert r == [r[0]] + r[1..];
  }

  lemma NewestUnfold(s: set<string>)
    requires s != {}
    ensures IsGreatest(Newest(s)[0], s) && Newest(s)[1..] == Newest(s - {Newest(s)[0]})
  {
  }

  /** The names sorted greatest first, by repeatedly taking the greatest one. */
  method SortNewestFirst(s: set<string>) returns (r: seq<string>)
    ensures r == Newest(s)
  {
    r := [];
    var rest := s;
    while rest != {}
      invariant rest <= s
      invariant r + Newest(rest) == Newest(s)
      decreases |rest|
    {
      MaxExists(rest);
      var m :| IsGreatest(m, rest);
      NewestStep(s, rest, r, m);
      r := r + [m];
      rest := rest - {m};
    }
  }

  lemma NewestStep(s: set<string>, rest: set<string>, r: seq<string>, m: string)
    requires r + Newest(rest) == Newest(s)
    requires IsGreatest(m, rest)
    ensures (r + [m]) + Newest(rest - {m}) == Newest(s)
  {
    NewestHead(rest, m);
    assert r + ([m] + Newest(rest - {m})) == (r + [m]) + Newest(rest - {m});
  }

  /** Python's `seq[k:]` start for a possibly negative `k`. */
  function SliceStart(k: int, n: nat): (start: nat)
    ensures start <= n
    ensures 0 <= k <= n ==> start == k
  {
    if k < 0 then (if n + k < 0 then 0 else n + k) else if k > n then n else k
  }

  ghost function MatchingIn(files: map<string, string>, filePattern: string): set<string> {
    set p | p in files && Matches(p, filePattern)
  }

  /** The matching names, newest first, as `list_backups` and the cleanup see them. */
  ghost function ListOf(files: map<string, string>, filePattern: string): seq<string> {
    Newest(MatchingIn(files, filePattern))
  }

  /** `list_backups` lists exactly the matching names, greatest (newest) first. */
  lemma ListOfFacts(files: map<string, string>, filePattern: string)
    ensures forall x :: x in ListOf(files, filePattern) <==> x in files && Matches(x, filePattern)
    ensures forall i, j :: 0 <= i < j < |ListOf(files, filePattern)| ==>
              StrLt(ListOf(files, filePattern)[j], ListOf(files, filePattern)[i])
  {
    NewestMembers(MatchingIn(files, filePattern));
    NewestDescending(MatchingIn(files, filePattern));
  }

  /** The files with the given names removed. */
  ghost function Without(files: map<string, string>, names: seq<string>): map<string, string> {
    files - (set p | p in names)
  }

  lemma WithoutStep(files: map<string, string>, names: seq<string>, lo: nat, i: nat)
    requires lo <= i < |names|
    ensures Without(files, names[lo..i + 1]) == Without(files, names[lo..i]) - {names[i]}
  {
    var a, b := names[lo..i], names[lo..i + 1];
    assert b == a + [names[i]];
    assert forall p :: p in b <==> p in a || p == names[i];
  }

  /** Deletes the names after the first `keep` (Python's `backups[keep:]`) unless there are at most `keep`. */
  ghost function Prune(files: map<string, string>, backups: seq<string>, keep: int): map<string, string> {
    if |backups| <= keep then files
    else Without(files, backups[SliceStart(keep, |backups|)..])
  }

  /** The files after `cleanup_old_backups`: the matches after the first `keep` of the newest-first list are gone. */
  ghost function Cleaned(files: map<string, string>, filePattern: string, keep: int): map<string, string> {
    Prune(files, ListOf(files, filePattern), keep)
  }

  /** The cleanup creates and changes nothing: it only deletes. */
  lemma CleanedOnlyDeletes(files: map<string, string>, filePattern: string, keep: int)
    ensures forall p :: p in Cleaned(files, filePattern, keep) ==> p in files && Cleaned(files, filePattern, keep)[p] == files[p]
  {
  }

  /** With at most `keep` matching names the cleanup deletes nothing. */
  lemma CleanedFew(files: map<string, string>, filePattern: string, keep: int)
    requires |MatchingIn(files, filePattern)| <= keep
    ensures Cleaned(files, filePattern, keep) == files
  {
  }

  /** Names outside the pattern survive the cleanup. */
  lemma CleanedSparesOthers(files: map<string, string>, filePattern: string, keep: int)
    ensures forall p :: p in files && !Matches(p, filePattern) ==> p in Cleaned(files, filePattern, keep)
  {
    var backups := ListOf(files, filePattern);
    ListOfFacts(files, filePattern);
    forall p | p in files && !Matches(p, filePattern) ensures p in Cleaned(files, filePattern, keep) {
      assert p !in backups;
      assert p !in backups[SliceStart(keep, |backups|)..];
    }
  }

  /** Pruning the newest-first listing of names that exist keeps exactly the first `keep`. */
  lemma PruneKeepsFirst(files: map<string, string>, s: set<string>, keep: nat)
    requires s <= files.Keys
    ensures forall i :: 0 <= i < |Newest(s)| ==> (Newest(s)[i] in Prune(files, Newest(s), keep) <==> i < keep)
  {
    var backups := Newest(s);
    if |backups| > keep {
      NewestMembers(s);
      NewestDescending(s);
      var doomed := backups[keep..];
      forall i | 0 <= i < |backups| ensures backups[i] in Prune(files, backups, keep) <==> i < keep {
        assert backups[i] in s;
        if i < keep {
          assert backups[i] !in doomed by {
            forall j | 0 <= j < |doomed| ensures doomed[j] != backups[i] {
              assert doomed[j] == backups[keep + j];
              assert StrLt(backups[keep + j], backups[i]);
            }
          }
        } else {
          assert backups[i] == doomed[i - keep];
        }
      }
    }
  }

  /** For `keep >= 0`, the `keep` greatest matching names survive and every other match goes. */
  lemma CleanedKeepsFirst(files: map<string, string>, filePattern: string, keep: nat)
    ensures forall i :: 0 <= i < |ListOf(files, filePattern)| ==>
              (ListOf(files, filePattern)[i] in Cleaned(files, filePattern, keep) <==> i < keep)
  {
    PruneKeepsFirst(files, MatchingIn(files, filePattern), keep);
  }

  /** The least name of a set comes last in its newest-first listing. */
  lemma LeastIsLast(s: set<string>, b: string)
    requires b in s
    requires forall x :: x in s ==> StrLe(b, x)
    ensures |Newest(s)| > 0 && Newest(s)[|Newest(s)| - 1] == b
  {
    var r := Newest(s);
    NewestMembers(s);
    NewestDescending(s);
    var i :| 0 <= i < |r| && r[i] == b;
    if i < |r| - 1 {
      var last := r[|r| - 1];
      assert StrLt(last, b);
      assert StrLe(b, last);
      StrLeAntisymmetric(b, last);
    }
  }

  /** Every matching name that survives is greater than every matching name deleted. */
  lemma CleanedKeepsNewest(files: map<string, string>, filePattern: string, keep: nat, kept: string, gone: string)
    requires kept in files && Matches(kept, filePattern)
    requires gone in files && Matches(gone, filePattern)
    requires kept in Cleaned(files, filePattern, keep) && gone !in Cleaned(files, filePattern, keep)
    ensures StrLt(gone, kept)
  {
    var backups := ListOf(files, filePattern);
    ListOfFacts(files, filePattern);
    CleanedKeepsFirst(files, filePattern, keep);
    assert kept in backups && gone in backups;
    var i :| 0 <= i < |backups| && backups[i] == kept;
    var j :| 0 <= j < |backups| && backups[j] == gone;
    assert i < keep <= j;
  }

  // ---------------------------------------------------------------------
  // The directory
  // ---------------------------------------------------------------------

  class Disk {
    var files: map<string, string>

    constructor(files: map<string, string>)
      ensures this.files == files
    {
      this.files := files;
    }

    /** `cleanup_old_backups` */
    method CleanupOldBackups(filePattern: string, keepCount: int)
      modifies this
      ensures files == Cleaned(old(files), filePattern, keepCount)
    {
      var matching := set p | p in files && Matches(p, filePattern);
      var backups := SortNewestFirst(matching);
      assert backups == ListOf(files, filePattern);
      if |backups| <= keepCount {
        return;
      }
      ghost var before := files;
      var start := SliceStart(keepCount, |backups|);
      for i := start to |backups|
        invariant files == Without(before, backups[start..i])
      {
        WithoutStep(before, backups, start, i);
        files := files - {backups[i]};
      }
      assert backups[start..|backups|] == backups[start..];
    }

    /** `list_backups`: the matching names, greatest (newest) first. */
    ghost function ListBackups(filePattern: string): (r: seq<string>)
      reads this
      ensures forall x :: x in r <==> x in files && Matches(x, filePattern)
      ensures forall i, j :: 0 <= i < j < |r| ==> StrLt(r[j], r[i])
    {
      ListOfFacts(files, filePattern);
      ListOf(files, filePattern)
    }

    /** `get_latest_backup`: the greatest matching name, if any. */
    ghost function GetLatestBackup(filePattern: string): (r: Option<string>)
      reads this
      ensures r.None? <==> forall x :: x in files ==> !Matches(x, filePattern)
      ensures r.Some? ==> r.value in files && Matches(r.value, filePattern)
      ensures r.Some? ==> forall x :: x in files && Matches(x, filePattern) ==> StrLe(x, r.value)
    {
      var backups := ListBackups(filePattern);
      if backups == [] then None
      else
        assert forall x :: x in files && Matches(x, filePattern) ==> StrLe(x, backups[0]) by {
          forall x | x in files && Matches(x, filePattern) ensures StrLe(x, backups[0]) {
            var i :| 0 <= i < |backups| && backups[i] == x;
            if i > 0 { assert StrLt(backups[i], backups[0]); } else { StrLeReflexive(x); }
          }
        }
        Some(backups[0])
    }

    /** `backup_file`: copy the file to its timestamped name, then clean up its pattern. */
    method BackupFile(filePath: string, keepCount: int, timestamp: string) returns (r: Option<string>)
      modifies this
      ensures filePath !in old(files) ==> r == None && files == old(files)
      ensures filePath in old(files) ==> r == Some(BackupDir + BackupName(filePath, timestamp))
      ensures filePath in old(files) ==>
                files == Cleaned(old(files)[BackupDir + BackupName(filePath, timestamp) := old(files)[filePath]], Basename(filePath), keepCount)
    {
      if filePath !in files {
        return None;
      }
      var backupPath := BackupDir + BackupName(filePath, timestamp);
      files := files[backupPath := files[filePath]];
      CleanupOldBackups(Basename(filePath), keepCount);
      return Some(backupPath);
    }

    /**
     * `restore_backup` as written: the safety backup of the target runs its
     * cleanup before the copy, so it can delete the very backup being restored.
     */
    method RestoreBackup(backupPath: string, targetPath: string, timestamp: string) returns (ok: bool)
      modifies this
      ensures (files, ok) == Restored(old(files), backupPath, targetPath, timestamp)
    {
      if backupPath !in files {
        return false;
      }
      if targetPath in files {
        var _ := BackupFile(targetPath, DefaultKeepCount, timestamp);
      }
      if backupPath !in files || backupPath == targetPath {
        return false;
      }
      files := files[targetPath := files[backupPath]];
      return true;
    }

    /** `restore_backup` with the backup's content read before the safety backup runs. */
    method RestoreBackupSafely(backupPath: string, targetPath: string, timestamp: string) returns (ok: bool)
      modifies this
      ensures (files, ok) == RestoredSafely(old(files), backupPath, targetPath, timestamp)
    {
      if backupPath !in files {
        return false;
      }
      var content := files[backupPath];
      if targetPath in files {
        var _ := BackupFile(targetPath, DefaultKeepCount, timestamp);
      }
      if backupPath == targetPath {
        return false;
      }
      files := files[targetPath := content];
      return true;
    }
  }

  /** The files after the safety backup `restore_backup` takes of an existing target. */
  ghost function SafetyBackup(files: map<string, string>, targetPath: string, timestamp: string): map<string, string> {
    if targetPath in files then
      Cleaned(files[BackupDir + BackupName(targetPath, timestamp) := files[targetPath]], Basename(targetPath), DefaultKeepCount)
    else files
  }

  /** The result and the files after `restore_backup` as written. */
  ghost function Restored(files: map<string, string>, backupPath: string, targetPath: string, timestamp: string): (map<string, string>, bool) {
    if backupPath !in files then (files, false)
    else
      var mid := SafetyBackup(files, targetPath, timestamp);
      if backupPath !in mid || backupPath == targetPath then (mid, false)
      else (mid[targetPath := mid[backupPath]], true)
  }

  /** The result and the files after the corrected restore. */
  ghost function RestoredSafely(files: map<string, string>, backupPath: string, targetPath: string, timestamp: string): (map<string, string>, bool) {
    if backupPath !in files then (files, false)
    else
      var mid := SafetyBackup(files, targetPath, timestamp);
      if backupPath == targetPath then (mid, false)
      else (mid[targetPath := files[backupPath]], true)
  }

  /**
   * With the backup directory already holding `DefaultKeepCount` backups of
   * the target and a fresh, newer timestamp, restoring the oldest of them
   * fails and deletes it: the safety backup's cleanup removes it before it
   * is copied.
   */
  lemma RestoreLosesOldest(files: map<string, string>, backupPath: string, targetPath: string, timestamp: string)
    requires '/' !in timestamp
    requires targetPath in files && backupPath != targetPath
    requires |MatchingIn(files, Basename(targetPath))| >= DefaultKeepCount
    requires backupPath in MatchingIn(files, Basename(targetPath))
    requires forall x :: x in MatchingIn(files, Basename(targetPath)) ==> StrLe(backupPath, x)
    requires BackupDir + BackupName(targetPath, timestamp) !in files
    requires StrLt(backupPath, BackupDir + BackupName(targetPath, timestamp))
    ensures !Restored(files, backupPath, targetPath, timestamp).1
    ensures backupPath !in Restored(files, backupPath, targetPath, timestamp).0
  {
    var pattern := Basename(targetPath);
    var n := BackupDir + BackupName(targetPath, timestamp);
    var grown := files[n := files[targetPath]];
    var after := MatchingIn(grown, pattern);
    BackupNameMatches(targetPath, timestamp);
    SafetyBackupGrows(files, backupPath, n, files[targetPath], pattern);
    LeastIsLast(after, backupPath);
    PruneKeepsFirst(grown, after, DefaultKeepCount);
    assert Newest(after)[|Newest(after)| - 1] !in SafetyBackup(files, targetPath, timestamp);
  }

  /** Adding a newer match to at least `DefaultKeepCount` matches leaves more than `DefaultKeepCount`, the least still being `backupPath`. */
  lemma SafetyBackupGrows(files: map<string, string>, backupPath: string, n: string, v: string, pattern: string)
    requires Matches(n, pattern) && n !in files
    requires |MatchingIn(files, pattern)| >= DefaultKeepCount
    requires backupPath in MatchingIn(files, pattern)
    requires forall x :: x in MatchingIn(files, pattern) ==> StrLe(backupPath, x)
    requires StrLt(backupPath, n)
    ensures |MatchingIn(files[n := v], pattern)| > DefaultKeepCount
    ensures backupPath in MatchingIn(files[n := v], pattern)
    ensures forall x :: x in MatchingIn(files[n := v], pattern) ==> StrLe(backupPath, x)
  {
    var before, after := MatchingIn(files, pattern), MatchingIn(files[n := v], pattern);
    MatchingInAdd(files, n, v, pattern);
    CardinalityMono(before + {n}, after);
    forall x | x in after ensures StrLe(backupPath, x) {
      if x != n { assert x in before; }
    }
  }

  /**
   * When the backup survives the safety backup (and is not overwritten by
   * it), the restore succeeds and the target ends up with the backup's content.
   */
  lemma RestoredWhenKept(files: map<string, string>, backupPath: string, targetPath: string, timestamp: string)
    requires backupPath in files && backupPath != targetPath
    requires targetPath in files ==> backupPath != BackupDir + BackupName(targetPath, timestamp)
    requires backupPath in SafetyBackup(files, targetPath, timestamp)
    ensures Restored(files, backupPath, targetPath, timestamp).1
    ensures targetPath in Restored(files, backupPath, targetPath, timestamp).0
    ensures Restored(files, backupPath, targetPath, timestamp).0[targetPath] == files[backupPath]
  {
    if targetPath in files {
      var grown := files[BackupDir + BackupName(targetPath, timestamp) := files[targetPath]];
      CleanedOnlyDeletes(grown, Basename(targetPath), DefaultKeepCount);
    }
  }

  /** Writing a matching path adds it to the matches and changes no other. */
  lemma MatchingInAdd(files: map<string, string>, n: string, v: string, pattern: string)
    requires Matches(n, pattern)
    ensures MatchingIn(files[n := v], pattern) == MatchingIn(files, pattern) + {n}
  {
  }

  lemma CardinalityMono<T>(a: set<T>, b: set<T>)
    requires a <= b
    ensures |a| <= |b|
  {
    assert b == a + (b - a);
  }

  /**
   * The corrected restore succeeds exactly when the backup exists and is not
   * the target itself, and then the target holds the backup's content.
   */
  lemma RestoredSafelyRestores(files: map<string, string>, backupPath: string, targetPath: string, timestamp: string)
    ensures RestoredSafely(files, backupPath, targetPath, timestamp).1 <==> backupPath in files && backupPath != targetPath
    ensures RestoredSafely(files, backupPath, targetPath, timestamp).1 ==>
              targetPath in RestoredSafely(files, backupPath, targetPath, timestamp).0 &&
              RestoredSafely(files, backupPath, targetPath, timestamp).0[targetPath] == files[backupPath]
    ensures backupPath !in files ==> RestoredSafely(files, backupPath, targetPath, timestamp).0 == files
  {
  }
}
