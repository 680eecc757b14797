/**
 * The journal's configuration: its shape, the defaults used when no
 * configuration file exists, the validation run before a configuration is
 * saved, and the file-selection and counting loop of a backup restore.
 */
module Config {
  import opened Wrappers
  import opened Text
  import opened Records

  datatype GitHubSettings = GitHubSettings(
    token: string, username: string, repositories: seq<string>, autoSync: bool, syncInterval: int)

  datatype WebSettings = WebSettings(enabled: bool, port: int)

  datatype BackupSettings = BackupSettings(
    autoBackup: bool, backupInterval: int, backupLocation: string, maxBackups: int)

  datatype GeneralSettings = GeneralSettings(defaultTaskType: string, timeZone: string, dateFormat: string)

  datatype Configuration = Configuration(
    github: GitHubSettings, web: WebSettings, backup: BackupSettings, general: GeneralSettings)

  /** The reasons validateConfiguration gives, in the order it checks them. */
  datatype ConfigError =
    | InvalidPort(port: int)
    | BackupIntervalTooShort
    | TooFewBackups
    | SyncIntervalTooShort
    | InvalidDefaultTaskType(kind: string)

  predicate PortOk(c: Configuration) { 1 <= c.web.port <= 65535 }
  predicate BackupIntervalOk(c: Configuration) { c.backup.backupInterval >= 1 }
  predicate MaxBackupsOk(c: Configuration) { c.backup.maxBackups >= 1 }
  predicate SyncIntervalOk(c: Configuration) { c.github.syncInterval >= 5 }
  predicate TaskTypeOk(c: Configuration) { c.general.defaultTaskType in TaskTypes }

  /** A configuration the journal accepts. */
  predicate ValidConfig(c: Configuration) {
    PortOk(c) && BackupIntervalOk(c) && MaxBackupsOk(c) && SyncIntervalOk(c) && TaskTypeOk(c)
  }

  /** The error of the first check a configuration fails, in validateConfiguration's order. */
  function FirstConfigError(c: Configuration): Option<ConfigError> {
    if !PortOk(c) then Some(InvalidPort(c.web.port))
    else if !BackupIntervalOk(c) then Some(BackupIntervalTooShort)
    else if !MaxBackupsOk(c) then Some(TooFewBackups)
    else if !SyncIntervalOk(c) then Some(SyncIntervalTooShort)
    else if !TaskTypeOk(c) then Some(InvalidDefaultTaskType(c.general.defaultTaskType))
    else None
  }

  /**
   * validateConfiguration: no error exactly for a valid configuration, and
   * otherwise the error of the first check that fails, in the order port,
   * backup interval, number of backups, sync interval, default task type.
   */
  method ValidateConfiguration(c: Configuration) returns (err: Option<ConfigError>)
    ensures err.None? <==> ValidConfig(c)
    ensures err == Some(InvalidPort(c.web.port)) <==> !PortOk(c)
    ensures err == Some(BackupIntervalTooShort) <==> PortOk(c) && !BackupIntervalOk(c)
    ensures err == Some(TooFewBackups) <==> PortOk(c) && BackupIntervalOk(c) && !MaxBackupsOk(c)
    ensures err == Some(SyncIntervalTooShort) <==>
      PortOk(c) && BackupIntervalOk(c) && MaxBackupsOk(c) && !SyncIntervalOk(c)
    ensures err == Some(InvalidDefaultTaskType(c.general.defaultTaskType)) <==>
      PortOk(c) && BackupIntervalOk(c) && MaxBackupsOk(c) && SyncIntervalOk(c) && !TaskTypeOk(c)
    ensures err == FirstConfigError(c)
  {
    if c.web.port < 1 || c.web.port > 65535 {
      return Some(InvalidPort(c.web.port));
    }
    if c.backup.backupInterval < 1 {
      return Some(BackupIntervalTooShort);
    }
    if c.backup.maxBackups < 1 {
      return Some(TooFewBackups);
    }
    if c.github.syncInterval < 5 {
      return Some(SyncIntervalTooShort);
    }
    var valid := false;
    var i := 0;
    while i < |TaskTypes|
      invariant 0 <= i <= |TaskTypes|
      invariant valid <==> c.general.defaultTaskType in TaskTypes[..i]
    {
      assert TaskTypes[..i + 1] == TaskTypes[..i] + [TaskTypes[i]];
      if c.general.defaultTaskType == TaskTypes[i] {
        valid := true;
        break;
      }
      i := i + 1;
    }
    assert valid <==> c.general.defaultTaskType in TaskTypes by {
      if !valid {
        assert TaskTypes[..i] == TaskTypes;
      }
    }
    if !valid {
      return Some(InvalidDefaultTaskType(c.general.defaultTaskType));
    }
    return None;
  }

  /** The configuration get_configuration reports when no configuration file can be read. */
  function DefaultConfiguration(): (c: Configuration)
    ensures ValidConfig(c)
    ensures c.web.port == 8080 && c.backup.backupInterval == 24 && c.backup.maxBackups == 7
    ensures c.general.defaultTaskType == "work" && c.github.syncInterval == 60
  {
    Configuration(
      GitHubSettings("", "", [], false, 60),
      WebSettings(false, 8080),
      BackupSettings(false, 24, "", 7),
      GeneralSettings("work", "UTC", "2006-01-02"))
  }

  /** One file of a backup archive and whether extracting it succeeds. */
  datatype ArchiveFile = ArchiveFile(name: string, extracts: bool)

  /** The counters and warnings restore_data_backup reports, and the names it wrote. */
  datatype Restore = Restore(files: nat, tasks: nat, entries: nat, warnings: nat, restored: seq<string>)

  /**
   * A file the restore tries to extract: never the backup metadata, and the
   * configuration only when it is asked for.
   */
  predicate Selected(name: string, restoreConfig: bool) {
    !(!restoreConfig && HasSuffix(name, "config.yaml")) && name != "backup_metadata.json"
  }

  /** The names written by a restore, in archive order. */
  function RestoredNames(files: seq<ArchiveFile>, restoreConfig: bool): seq<string> {
    if files == [] then []
    else
      var f := files[0];
      (if Selected(f.name, restoreConfig) && f.extracts then [f.name] else [])
      + RestoredNames(files[1..], restoreConfig)
  }

  /** The number of selected files whose extraction fails. */
  function FailedCount(files: seq<ArchiveFile>, restoreConfig: bool): nat {
    if files == [] then 0
    else
      var failed := if Selected(files[0].name, restoreConfig) && !files[0].extracts then 1 else 0;
      failed + FailedCount(files[1..], restoreConfig)
  }

  /** The number of names under "tasks/". */
  function TaskFileCount(names: seq<string>): nat {
    if names == [] then 0 else (if HasPrefix(names[0], "tasks/") then 1 else 0) + TaskFileCount(names[1..])
  }

  lemma {:induction false} TaskFileCountAppend(names: seq<string>, name: string)
    ensures TaskFileCount(names + [name]) == TaskFileCount(names) + (if HasPrefix(name, "tasks/") then 1 else 0)
  {
    if names != [] {
      TaskFileCountAppend(names[1..], name);
      assert (names + [name])[1..] == names[1..] + [name];
    }
  }

  /** One archive file's share of the restored names and of the warnings. */
  lemma RestoreStep(files: seq<ArchiveFile>, i: nat, restoreConfig: bool)
    requires i < |files|
    ensures var f := files[i];
      RestoredNames(files[i..], restoreConfig)
        == (if Selected(f.name, restoreConfig) && f.extracts then [f.name] else [])
           + RestoredNames(files[i + 1..], restoreConfig)
    ensures var f := files[i];
      FailedCount(files[i..], restoreConfig)
        == (if Selected(f.name, restoreConfig) && !f.extracts then 1 else 0)
           + FailedCount(files[i + 1..], restoreConfig)
  {
    assert files[i..][1..] == files[i + 1..];
  }

  /**
   * The extraction loop of restore_data_backup: each selected file that
   * extracts counts as a restored file, one under "tasks/" also as a task
   * with an estimated ten entries; a failed extraction becomes a warning.
   */
  method RestoreFiles(files: seq<ArchiveFile>, restoreConfig: bool) returns (r: Restore)
    ensures r.restored == RestoredNames(files, restoreConfig)
    ensures r.files == |r.restored|
    ensures r.tasks == TaskFileCount(r.restored) && r.entries == 10 * r.tasks
    ensures r.warnings == FailedCount(files, restoreConfig)
  {
    var restored: seq<string> := [];
    var filesRestored, tasksRestored, entriesRestored, warnings := 0, 0, 0, 0;
    var i := 0;
    while i < |files|
      invariant 0 <= i <= |files|
      invariant restored + RestoredNames(files[i..], restoreConfig) == RestoredNames(files, restoreConfig)
      invariant warnings + FailedCount(files[i..], restoreConfig) == FailedCount(files, restoreConfig)
      invariant filesRestored == |restored|
      invariant tasksRestored == TaskFileCount(restored) && entriesRestored == 10 * tasksRestored
    {
      var file := files[i];
      RestoreStep(files, i, restoreConfig);
      var piece: seq<string> := [];
      var failed := 0;
      if !restoreConfig && HasSuffix(file.name, "config.yaml") {
        // the configuration is kept unless it is asked for
      } else if file.name == "backup_metadata.json" {
        // the metadata describes the backup and is not restored
      } else if !file.extracts {
        failed := 1;
      } else {
        piece := [file.name];
        TaskFileCountAppend(restored, file.name);
        if HasPrefix(file.name, "tasks/") {
          tasksRestored := tasksRestored + 1;
          entriesRestored := entriesRestored + 10;
        }
      }
      AppendPiece(restored, piece, RestoredNames(files[i + 1..], restoreConfig),
                  RestoredNames(files[i..], restoreConfig), RestoredNames(files, restoreConfig));
      assert piece == [] ==> restored + piece == restored;
      restored := restored + piece;
      filesRestored := filesRestored + |piece|;
      warnings := warnings + failed;
      i := i + 1;
    }
    r := Restore(filesRestored, tasksRestored, entriesRestored, warnings, restored);
  }

  /**
   * A name is restored exactly when a selected archive file of that name
   * extracts: the metadata file never is, and a configuration file only
   * when asked for.
   */
  lemma {:induction false} RestoredNamesMembers(files: seq<ArchiveFile>, restoreConfig: bool, name: string)
    ensures name in RestoredNames(files, restoreConfig) <==>
      exists f | f in files :: f.name == name && Selected(name, restoreConfig) && f.extracts
  {
    if files != [] {
      RestoredNamesMembers(files[1..], restoreConfig, name);
      if exists f | f in files :: f.name == name && Selected(name, restoreConfig) && f.extracts {
        var f :| f in files && f.name == name && Selected(name, restoreConfig) && f.extracts;
        if f != files[0] {
          assert f in files[1..];
        }
      }
    }
  }

  /** Every selected file is either restored or warned about. */
  lemma {:induction false} RestoreAccountsForSelected(files: seq<ArchiveFile>, restoreConfig: bool)
    ensures |RestoredNames(files, restoreConfig)| + FailedCount(files, restoreConfig)
         == |SelectedFiles(files, restoreConfig)|
  {
    if files != [] {
      RestoreAccountsForSelected(files[1..], restoreConfig);
    }
  }

  function SelectedFiles(files: seq<ArchiveFile>, restoreConfig: bool): seq<ArchiveFile> {
    if files == [] then []
    else (if Selected(files[0].name, restoreConfig) then [files[0]] else []) + SelectedFiles(files[1..], restoreConfig)
  }
}
