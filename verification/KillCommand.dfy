/** The shell's `kill` from the typed text to the process table. */
module KillCommand {
  import opened Words
  import opened Tokens
  import opened Decimals
  import opened Processes
  import opened KernelSteps
  import opened KernelExact
  import opened KernelMachine

  datatype Outcome = InvalidPid | NotFound | Killed

  /** A number as the 32-bit system-call argument. */
  function Argument(n: int): Word
    requires INT32_MIN <= n <= INT32_MAX
  {
    if n < 0 then n + 0x1_0000_0000 else n
  }

  function PidOf(text: seq<Byte>): Word
    requires IsNumber(text)
  {
    Argument(NumberOf(text))
  }

  /** What `kill` answers to a text: only numbers are passed on, and only pids that some slot holds are found. */
  function KillOutcome(k: Kernel, text: seq<Byte>): Outcome {
    if !IsNumber(text) then InvalidPid
    else if KillCode(k, PidOf(text)) == 0 then Killed
    else NotFound
  }

  /** A text that is found is the unsigned number of a live process (or zero, while a slot is free). */
  lemma KilledNamesLive(k: Kernel, text: seq<Byte>)
    requires TableOk(k) && KillOutcome(k, text) == Killed
    ensures 0 <= NumberOf(text) <= PROCS
    ensures if NumberOf(text) == 0 then k.active < PROCS else k.live[NumberOf(text) - 1]
  {
    KillCodeExact(k, PidOf(text));
  }

  /** Conversely the printed pid of every live process is found, and names that process. */
  lemma PrintedPidIsFound(k: Kernel, i: nat)
    requires TableOk(k) && i < PROCS && k.live[i]
    ensures KillOutcome(k, Text(k.procs[i].pid)) == Killed && PidOf(Text(k.procs[i].pid)) == i + 1
  {
    var text := Text(i + 1);
    ParsePrinted(i + 1);
    assert PidOf(text) == i + 1;
    KillCodeExact(k, PidOf(text));
  }

  /** A number is found exactly when a live process has it, or it is 0 and a slot is free. */
  lemma NumberFound(k: Kernel, text: seq<Byte>)
    requires TableOk(k) && IsNumber(text)
    ensures KillCode(k, PidOf(text)) == if HasPid(k, NumberOf(text)) then 0 else 1
  {
    KillAnswers(k, PidOf(text));
  }

  /** A kill that finds a process takes exactly that one out of the table. */
  lemma KilledSlots(k: Kernel, n: Word)
    requires KernelOk(k) && HasPid(k, n)
    ensures forall i :: 0 <= i < 16 ==> (AfterKill(k, n).live[i] <==> k.live[i] && i + 1 != n)
  {
    KillAnswers(k, n);
    if n != 0 { FoundIsLive(k, n); }
  }

  /**
   Reads the number and makes the system call.  The kernel is consistent afterwards exactly when no
   process was killed or the kill is one that it supports.
   */
  method Kill(m: Machine, str: array<Byte>, ghost text: seq<Byte>) returns (r: Outcome)
    requires m.Valid() && KernelOk(m.State()) && IsText(str[..], 0, text)
    modifies m.Heap()
    ensures m.Valid() && r == KillOutcome(old(m.State()), text)
    ensures r == InvalidPid <==> !IsNumber(text)
    ensures r == Killed <==> IsNumber(text) && HasPid(old(m.State()), NumberOf(text))
    ensures r == NotFound <==> IsNumber(text) && !HasPid(old(m.State()), NumberOf(text))
    ensures m.State() == if r == Killed then AfterKill(old(m.State()), PidOf(text)) else old(m.State())
    ensures r == Killed ==>
      forall i :: 0 <= i < 16 ==> (m.State().live[i] <==> old(m.State()).live[i] && i + 1 != NumberOf(text))
    ensures KernelOk(m.State()) <==> r != Killed || PidOf(text) == 0 || Killable(old(m.State()), PidOf(text))
  {
    var ok, pid := ParsePid(str, text);
    if !ok {
      return InvalidPid;
    }
    assert PidOf(text) == Argument(pid);
    NumberFound(m.State(), text);
    NoteKilled(m.State(), text);
    var code := m.KillCall(Argument(pid));
    return if code == 1 then NotFound else Killed;
  }

  /** What a kill that finds a process will do, told beforehand. */
  lemma NoteKilled(k: Kernel, text: seq<Byte>)
    requires KernelOk(k) && IsNumber(text)
    ensures HasPid(k, NumberOf(text)) ==>
      PidOf(text) == NumberOf(text) &&
      forall i :: 0 <= i < 16 ==> (AfterKill(k, PidOf(text)).live[i] <==> k.live[i] && i + 1 != NumberOf(text))
  {
    if HasPid(k, NumberOf(text)) { KilledSlots(k, PidOf(text)); }
  }
}
