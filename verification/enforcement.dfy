/**
 The kill decision (KillIfUnknown) and the victims log it appends to.

 The operating system's "find the process by id and kill it" is not
 modelled; its answer is an oracle outcome supplied with each call. Every
 failure (no such process, access denied, process exited under us) is
 caught and ignored, so the decision is total and never raises.
 */
module Enforcement {
  import opened CaseFold

  /** A C# `int` process id. */
  newtype Int32 = x: int | -0x8000_0000 <= x < 0x8000_0000

  /** Why a kill attempt threw. */
  datatype KillError = NoSuchProcess | AccessDenied | ExitedDuringKill

  /** What the operating system answers to GetProcessById(pid).Kill(). */
  datatype KillOutcome = Killed | Failed(error: KillError)

  /** How the decision for one process went. */
  datatype Verdict =
    | Allowlisted
    | ReservedId
    | Attempted(outcome: KillOutcome)

  /** The single allowlisted process name. */
  const AllowedName: string := "Notepad"

  /** The process name is "Notepad" in some letter case. */
  predicate IsAllowlisted(processName: string) {
    EqualsIgnoreCase(processName, AllowedName)
  }

  /** Ids 0 (idle) and 4 (system) are never killed. */
  predicate IsReservedId(processId: Int32) {
    processId == 0 || processId == 4
  }

  /** The decision, checked in the source's order: allowlist first, then the
      reserved ids, then a kill attempt whose outcome is the oracle's. */
  function Decide(processName: string, processId: Int32, outcome: KillOutcome): (v: Verdict)
    ensures v.Allowlisted? <==> IsAllowlisted(processName)
    ensures v.ReservedId? <==> !IsAllowlisted(processName) && IsReservedId(processId)
    ensures v.Attempted? <==> !IsAllowlisted(processName) && !IsReservedId(processId)
    ensures v.Attempted? ==> v.outcome == outcome
  {
    if IsAllowlisted(processName) then
      Allowlisted
    else if IsReservedId(processId) then
      ReservedId
    else
      Attempted(outcome)
  }

  /** KillIfUnknown: the victims log after one decision. Only a successful
      kill appends the process name; everything else leaves the log alone. */
  function KillIfUnknown(log: seq<string>, processName: string, processId: Int32,
                         outcome: KillOutcome): (log': seq<string>)
    ensures log' == log || log' == log + [processName]
    ensures log' != log <==>
              !IsAllowlisted(processName) && !IsReservedId(processId) && outcome.Killed?
    ensures log' != log ==> log'[|log|] == processName
  {
    match Decide(processName, processId, outcome)
    case Attempted(Killed) => log + [processName]
    case _ => log
  }

  /** "Notepad" in any letter case is allowlisted, and nothing else is. */
  lemma AllowlistedIffUpperIsNotepad(processName: string)
    ensures IsAllowlisted(processName) <==> Upper(processName) == "NOTEPAD"
  {
    EqualsIgnoreCaseIffSameUpper(processName, AllowedName);
    assert Upper(AllowedName) == "NOTEPAD";
  }

  /** An allowlisted process is never killed and the log is unchanged. */
  lemma AllowlistedNeverKilled(log: seq<string>, processName: string, processId: Int32,
                               outcome: KillOutcome)
    requires IsAllowlisted(processName)
    ensures Decide(processName, processId, outcome) == Allowlisted
    ensures KillIfUnknown(log, processName, processId, outcome) == log
  {
  }

  /** Ids 0 and 4 are never killed, whatever the name, and the log is unchanged. */
  lemma ReservedIdNeverKilled(log: seq<string>, processName: string, processId: Int32,
                              outcome: KillOutcome)
    requires IsReservedId(processId)
    ensures !Decide(processName, processId, outcome).Attempted?
    ensures KillIfUnknown(log, processName, processId, outcome) == log
  {
  }

  /** A failed kill is swallowed: the log is unchanged. */
  lemma FailedKillSwallowed(log: seq<string>, processName: string, processId: Int32,
                            error: KillError)
    ensures KillIfUnknown(log, processName, processId, Failed(error)) == log
  {
  }

  /** Names of different length from "Notepad", the empty name included,
      are never allowlisted. */
  lemma AllowlistExamples()
    ensures IsAllowlisted("notepad") && IsAllowlisted("NOTEPAD") && IsAllowlisted("Notepad")
    ensures !IsAllowlisted("") && !IsAllowlisted("Notepad.exe") && !IsAllowlisted("Notepa")
    ensures !IsAllowlisted("Chrome")
  {
    assert FoldChar("Chrome"[0]) != FoldChar(AllowedName[0]);
  }

  /** Reference definition: one line break and name per victim, front first. */
  function Lines(log: seq<string>): (text: string)
    ensures |text| >= |log|
  {
    if log == [] then "" else "\n" + log[0] + Lines(log[1..])
  }

  /** Adding a victim at the end adds its line at the end. */
  lemma {:induction false} LinesAppend(log: seq<string>, processName: string)
    ensures Lines(log + [processName]) == Lines(log) + "\n" + processName
    decreases |log|
  {
    if log == [] {
      assert [processName][1..] == [];
    } else {
      assert (log + [processName])[0] == log[0];
      assert (log + [processName])[1..] == log[1..] + [processName];
      LinesAppend(log[1..], processName);
    }
  }

  /** The text of the victims list, built as the source builds it: each kill
      does `victimsList.Text += "\n" + processName` on the current text. */
  function VictimsText(initial: string, log: seq<string>): (text: string)
    ensures text == initial + Lines(log)
  {
    if log == [] then initial
    else
      LinesAppend(log[..|log| - 1], log[|log| - 1]);
      assert log[..|log| - 1] + [log[|log| - 1]] == log;
      VictimsText(initial, log[..|log| - 1]) + "\n" + log[|log| - 1]
  }

  /** A longer log only extends the victims text: nothing shown is ever
      rewritten or removed. */
  lemma {:induction false} VictimsTextGrows(initial: string, a: seq<string>, b: seq<string>)
    ensures VictimsText(initial, a) <= VictimsText(initial, a + b)
    decreases |b|
  {
    if b == [] {
      assert a + b == a;
    } else {
      var c := a + b[..|b| - 1];
      VictimsTextGrows(initial, a, b[..|b| - 1]);
      assert (a + b)[..|a + b| - 1] == c;
      assert VictimsText(initial, a + b) == VictimsText(initial, c) + "\n" + b[|b| - 1];
    }
  }
}
