/** The Engine class: the registry of trayed processes and the hidden-window list,
    updated in place by its methods exactly as the functions of module Sessions and
    module AutoTray describe. */
module TrayEngine {
  import opened Processes
  import opened Icons
  import opened Sequences
  import opened Sessions
  import opened AutoTray

  class Engine {
    /** Engine.TrayedApplications: each trayed process and its NotifyIcon. */
    var trayedApplications: map<ProcId, TrayIcon>
    /** Engine._hiddenWindows. */
    var hiddenWindows: seq<ProcId>
    /** Icons shown by a tray attempt that then failed on a duplicate key. */
    var orphanIcons: seq<TrayIcon>

    function State(): EngineState
      reads this
    {
      EngineState(trayedApplications, hiddenWindows, orphanIcons)
    }

    ghost predicate Valid()
      reads this
    {
      Consistent(State())
    }

    constructor ()
      ensures Valid()
      ensures trayedApplications == map[] && hiddenWindows == [] && orphanIcons == []
    {
      trayedApplications := map[];
      hiddenWindows := [];
      orphanIcons := [];
    }

    /** Restore the window and make it the foreground window (foreign calls, not
        modelled), then take the process off the hidden list. */
    method ShowWindow(p: Process) returns (ok: bool)
      requires Valid()
      modifies this
      ensures Valid()
      ensures ok <==> p.mainWindowHandle != 0
      ensures State() == AfterShow(old(State()), p)
      ensures ok ==> p.id !in hiddenWindows
    {
      ShowRemovesEveryCopy(State(), p);
      if p.mainWindowHandle != 0 {
        if p.id in hiddenWindows {
          hiddenWindows := RemoveFirst(hiddenWindows, p.id);
        }
        ok := true;
      } else {
        ok := false;
      }
    }

    /** Hide the window (a foreign call, not modelled), then put the process on the
        hidden list unless it is there already. */
    method HideWindow(p: Process) returns (ok: bool)
      requires Valid()
      modifies this
      ensures Valid()
      ensures ok <==> p.mainWindowHandle != 0
      ensures State() == AfterHide(old(State()), p)
      ensures ok ==> p.id in hiddenWindows
    {
      HideLeavesOneCopy(State(), p);
      if p.mainWindowHandle != 0 {
        if p.id !in hiddenWindows {
          hiddenWindows := hiddenWindows + [p.id];
        }
        ok := true;
      } else {
        ok := false;
      }
    }

    method TrayApplication(p: Process, os: Win32) returns (ok: bool)
      requires Valid()
      modifies this
      ensures Valid()
      ensures ok <==> TraySucceeds(old(State()), p, os)
      ensures State() == AfterTray(old(State()), p, os)
      ensures ok ==> p.id in trayedApplications && p.id in hiddenWindows
      ensures !ok ==> trayedApplications == old(trayedApplications) && hiddenWindows == old(hiddenWindows)
    {
      TrayRegistersAndHides(State(), p, os);
      if IsTrayable(p) {
        var icon := CreateTrayIcon(p, os);
        if icon.Some? {
          if p.id in trayedApplications {
            // Dictionary.Add throws; the icon is already visible and is never disposed.
            orphanIcons := orphanIcons + [icon.value];
            ok := false;
          } else {
            trayedApplications := trayedApplications[p.id := icon.value];
            var _ := HideWindow(p);
            ok := true;
          }
        } else {
          ok := false;
        }
      } else {
        ok := false;
      }
    }

    method UntrayApplication(p: Process)
      requires Valid()
      modifies this
      ensures Valid()
      ensures State() == AfterUntray(old(State()), p)
      ensures p.id !in trayedApplications
      ensures p.id in old(trayedApplications) && p.mainWindowHandle != 0 ==> p.id !in hiddenWindows
    {
      UntrayRemovesSession(State(), p);
      if p.id in trayedApplications {
        // The icon is hidden and disposed: it leaves the notification area.
        var _ := ShowWindow(p);
        trayedApplications := trayedApplications - {p.id};
      }
    }

    /** Engine.icon_MouseDoubleClick on the icon whose Tag is p. */
    method IconDoubleClick(p: Process)
      requires Valid()
      modifies this
      ensures Valid()
      ensures State() == AfterDoubleClick(old(State()), p)
      ensures p.mainWindowHandle != 0 ==> (p.id in hiddenWindows <==> p.id !in old(hiddenWindows))
    {
      DoubleClickFlips(State(), p);
      if p.id in hiddenWindows {
        var _ := ShowWindow(p);
      } else {
        var _ := HideWindow(p);
      }
    }

    /** One pass of the AutoTrayProcess loop body, with `foreground` the handle
        GetForegroundWindow returned and `keys` the registry's keys in enumeration order. */
    method AutoTrayCycle(keys: seq<Process>, foreground: int) returns (outcome: CycleOutcome)
      requires Valid()
      requires EnumeratesKeys(keys, trayedApplications)
      modifies this
      ensures Valid()
      ensures CycleResult(State(), outcome) == Cycle(old(State()), keys, foreground)
    {
      var i := 0;
      outcome := Completed;
      while i < |keys|
        invariant 0 <= i <= |keys|
        invariant Valid()
        invariant Cycle(old(State()), keys, foreground) == Cycle(State(), keys[i..], foreground)
      {
        var p := keys[i];
        assert keys[i..][0] == p && keys[i..][1..] == keys[i + 1..];
        if ProbeThrows(p) {
          // HasExited throws: the catch block shows an alert and stops the monitor.
          outcome := Faulted;
          return;
        }
        if p.probe.Exited? {
          UntrayApplication(p);
          outcome := UntrayedExited(p.id);
          return;
        }
        if p.id !in hiddenWindows && p.mainWindowHandle != foreground {
          var _ := HideWindow(p);
        }
        i := i + 1;
      }
    }
  }
}
