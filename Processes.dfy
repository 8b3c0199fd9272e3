/** What the engine reads from a System.Diagnostics.Process, and the two pure rules it
    applies to one: the trayability gate (Engine.IsTrayable) and the tooltip
    truncation inside Engine.CreateTrayIcon. */
module Processes {

  /** Identity of a Process object. The engine's Dictionary and List compare Process
      objects by reference, so two objects for the same OS process are two identities. */
  type ProcId = nat

  /** What reading Process.HasExited does: answer false, answer true, throw a
      Win32Exception (access denied), or throw an InvalidOperationException (no OS
      process is associated with the object). */
  datatype ExitProbe = Running | Exited | AccessDenied | NotAssociated

  /** A snapshot of a process, taken at the start of one engine call and assumed stable
      for that call. `mainWindowHandle` is 0 when the process has no main window, and
      also stands for a read of Process.MainWindowHandle that throws (as it does once the
      process has exited): every engine operation that reads it treats both alike. */
  datatype Process = Process(
    id: ProcId,
    mainWindowHandle: int,
    probe: ExitProbe,
    mainWindowTitle: string)

  /** Reading HasExited raises an exception. */
  predicate ProbeThrows(p: Process) {
    p.probe.AccessDenied? || p.probe.NotAssociated?
  }

  /** Engine.IsTrayable: a main window must exist, then HasExited is read only to see
      whether it throws. The access-denied exception is caught by the inner handler and
      any other exception by the outer one; both answer false. */
  function IsTrayable(p: Process): (r: bool)
    ensures r <==> p.mainWindowHandle != 0 && !ProbeThrows(p)
    ensures p.mainWindowHandle == 0 ==> !r
  {
    if p.mainWindowHandle != 0 then
      match p.probe
      case AccessDenied => false
      case NotAssociated => false
      case Running => true
      case Exited => true
    else
      false
  }

  /** NotifyIcon.Text holds at most 63 characters: a title of 64 or more characters is
      cut to its first 63, a shorter one is kept. */
  function Tooltip(title: string): (r: string)
    ensures r <= title
    ensures |r| <= 63
    ensures |title| < 64 ==> r == title
    ensures |title| >= 64 ==> |r| == 63
  {
    if |title| >= 64 then title[..63] else title
  }
}
