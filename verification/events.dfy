/**
 The event classifier: the four kernel file-I/O handlers of the guard.

 Each handler tests the path its event concerns and, when that path is
 protected, runs the kill decision for the event's process. Directory
 enumeration concerns its directory name; read, write and query-info
 concern their file name.
 */
module Events {
  import opened Protection
  import opened Enforcement

  /** A kernel file-I/O event, one variant per subscribed event kind. */
  datatype IoEvent =
    | DirEnum(directoryName: string, processId: Int32, processName: string)
    | FileRead(fileName: string, processId: Int32, processName: string)
    | FileWrite(fileName: string, processId: Int32, processName: string)
    | FileQueryInfo(fileName: string, processId: Int32, processName: string)
  {
    /** The path the event concerns. */
    function Target(): string {
      if DirEnum? then directoryName else fileName
    }
  }

  /** The event leads to a successful kill: its path is protected, its process
      is neither allowlisted nor reserved, and the kill succeeds. */
  predicate KillsProcess(root: string, e: IoEvent, outcome: KillOutcome) {
    && IsUnderProtection(e.Target(), root)
    && !IsAllowlisted(e.processName)
    && !IsReservedId(e.processId)
    && outcome.Killed?
  }

  /** OnAppReadsDirectory, OnAppReadsFile, OnAppWritesFile, OnAppGetsFileNfo:
      the victims log after handling one event. */
  function OnEvent(log: seq<string>, root: string, e: IoEvent, outcome: KillOutcome): (log': seq<string>)
    ensures !IsUnderProtection(e.Target(), root) ==> log' == log
    ensures KillsProcess(root, e, outcome) ==> log' == log + [e.processName]
    ensures !KillsProcess(root, e, outcome) ==> log' == log
  {
    if IsUnderProtection(e.Target(), root) then
      KillIfUnknown(log, e.processName, e.processId, outcome)
    else
      log
  }

  /** The four handlers share one behaviour: the event kind matters only
      through the path it selects. */
  lemma KindIrrelevant(log: seq<string>, root: string, e1: IoEvent, e2: IoEvent, outcome: KillOutcome)
    requires e1.Target() == e2.Target()
    requires e1.processId == e2.processId && e1.processName == e2.processName
    ensures OnEvent(log, root, e1, outcome) == OnEvent(log, root, e2, outcome)
  {
  }

  /** The worked scenarios: a foreign process touching the vault is killed,
      including through the `vaultage` sibling; Notepad in lower case and the
      system process are spared; a path outside the root is ignored. */
  lemma Scenarios(log: seq<string>, error: KillError)
    ensures OnEvent(log, "/guard/vault", FileRead("/guard/vault/secrets.txt", 1234, "Chrome"), Killed)
            == log + ["Chrome"]
    ensures OnEvent(log, "/guard/vault", FileWrite("/guard/vaultage/file.txt", 1234, "Chrome"), Killed)
            == log + ["Chrome"]
    ensures OnEvent(log, "/guard/vault", FileRead("/guard/vault/secrets.txt", 1234, "notepad"), Killed)
            == log
    ensures OnEvent(log, "/guard/vault", DirEnum("/guard/vault", 4, "System"), Killed) == log
    ensures OnEvent(log, "/guard/vault", FileQueryInfo("/guard/other/vault", 1234, "Chrome"), Killed)
            == log
    ensures OnEvent(log, "/guard/vault", FileRead("/guard/vault/secrets.txt", 1234, "Chrome"), Failed(error))
            == log
  {
    BoundaryExamples();
    AllowlistExamples();
  }
}
