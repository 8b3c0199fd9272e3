/** The engine's state as a value, and what each of its operations does to it: the
    registry of trayed processes (Engine.TrayedApplications), the hidden-window list
    (Engine._hiddenWindows) and the icons left visible but unregistered. The class in
    Engine.dfy changes its fields exactly as these functions say. */
module Sessions {
  import opened Processes
  import opened Icons
  import opened Sequences

  /** A NotifyIcon as the engine sets it up: the process it stands for (its Tag), its
      tooltip text and its icon handle. */
  datatype TrayIcon = TrayIcon(owner: ProcId, text: string, icon: int)

  /** trayed: the registry; hidden: the processes whose window was last told to hide;
      orphans: icons made visible by CreateTrayIcon that never entered the registry. */
  datatype EngineState = EngineState(
    trayed: map<ProcId, TrayIcon>,
    hidden: seq<ProcId>,
    orphans: seq<TrayIcon>)

  /** The invariant the engine keeps: the hidden-window list holds no duplicates. */
  predicate Consistent(s: EngineState) {
    NoDup(s.hidden)
  }

  /** Engine.CreateTrayIcon: the tooltip rule applied to the window title, then the icon
      lookup; no icon means no tray icon (null). */
  function CreateTrayIcon(p: Process, os: Win32): (r: Option<TrayIcon>)
    ensures r.Some? <==> GetIcon(p, os).Some?
    ensures r.Some? ==> r.value.owner == p.id && r.value.icon != 0
    ensures r.Some? ==> r.value.text <= p.mainWindowTitle && |r.value.text| <= 63
    ensures r.Some? ==> r.value == TrayIcon(p.id, Tooltip(p.mainWindowTitle), GetIcon(p, os).value)
  {
    var text := Tooltip(p.mainWindowTitle);
    match GetIcon(p, os)
    case None => None
    case Some(h) => Some(TrayIcon(p.id, text, h))
  }

  /** Engine.ShowWindow(Process): with a main window, restore it, bring it to the
      foreground and drop the process from the hidden list. */
  function AfterShow(s: EngineState, p: Process): (r: EngineState)
    ensures r.trayed == s.trayed && r.orphans == s.orphans
    ensures p.mainWindowHandle == 0 ==> r == s
    ensures p.id !in s.hidden ==> r == s
  {
    if p.mainWindowHandle != 0 && p.id in s.hidden then s.(hidden := RemoveFirst(s.hidden, p.id))
    else s
  }

  /** Engine.HideWindow(Process): with a main window, hide it and append the process to
      the hidden list unless it is already there. */
  function AfterHide(s: EngineState, p: Process): (r: EngineState)
    ensures r.trayed == s.trayed && r.orphans == s.orphans
    ensures p.mainWindowHandle == 0 ==> r == s
    ensures p.id in s.hidden ==> r == s
  {
    if p.mainWindowHandle != 0 && p.id !in s.hidden then s.(hidden := s.hidden + [p.id])
    else s
  }

  /** Engine.icon_MouseDoubleClick: show the window if the process is in the hidden list,
      hide it otherwise. */
  function AfterDoubleClick(s: EngineState, p: Process): (r: EngineState)
    ensures r.trayed == s.trayed && r.orphans == s.orphans
  {
    if p.id in s.hidden then AfterShow(s, p) else AfterHide(s, p)
  }

  /** Engine.TrayApplication returns true exactly in this case. */
  predicate TraySucceeds(s: EngineState, p: Process, os: Win32) {
    IsTrayable(p) && CreateTrayIcon(p, os).Some? && p.id !in s.trayed
  }

  /** Engine.TrayApplication: a trayable process whose icon is found is added to the
      registry and hidden. If it is already a key, Dictionary.Add throws after the icon
      was made visible: the catch returns false and the icon is orphaned. */
  function AfterTray(s: EngineState, p: Process, os: Win32): (r: EngineState)
    ensures !TraySucceeds(s, p, os) ==> r.trayed == s.trayed && r.hidden == s.hidden
    ensures TraySucceeds(s, p, os) ==> p.id in r.trayed && r.trayed[p.id].owner == p.id
    ensures TraySucceeds(s, p, os) ==> r.orphans == s.orphans
  {
    if IsTrayable(p) then
      match CreateTrayIcon(p, os)
      case None => s
      case Some(icon) =>
        if p.id in s.trayed then s.(orphans := s.orphans + [icon])
        else AfterHide(s.(trayed := s.trayed[p.id := icon]), p)
    else
      s
  }

  /** Engine.UntrayApplication: for a registered process, hide and dispose its icon,
      restore its window and drop it from the registry. For any other process the
      indexer throws and the catch swallows it: nothing changes. */
  function AfterUntray(s: EngineState, p: Process): (r: EngineState)
    ensures p.id !in s.trayed ==> r == s
    ensures p.id !in r.trayed && r.orphans == s.orphans
    ensures r.trayed == s.trayed - {p.id}
  {
    if p.id in s.trayed then
      var shown := AfterShow(s, p);
      shown.(trayed := shown.trayed - {p.id})
    else
      s
  }

  /** Hiding with a main window leaves the process in the hidden list exactly once;
      without one, hiding fails and changes nothing. */
  lemma HideLeavesOneCopy(s: EngineState, p: Process)
    requires Consistent(s)
    ensures Consistent(AfterHide(s, p))
    ensures p.mainWindowHandle != 0 ==> p.id in AfterHide(s, p).hidden
    ensures forall q :: q != p.id ==> (q in AfterHide(s, p).hidden <==> q in s.hidden)
  {
  }

  /** Showing with a main window leaves the process absent from the hidden list and
      every other process where it was. */
  lemma ShowRemovesEveryCopy(s: EngineState, p: Process)
    requires Consistent(s)
    ensures Consistent(AfterShow(s, p))
    ensures p.mainWindowHandle != 0 ==> p.id !in AfterShow(s, p).hidden
    ensures forall q :: q != p.id ==> (q in AfterShow(s, p).hidden <==> q in s.hidden)
  {
    if p.mainWindowHandle != 0 && p.id in s.hidden {
      RemoveFirstOfNoDup(s.hidden, p.id);
      forall q | q != p.id ensures q in AfterShow(s, p).hidden <==> q in s.hidden {
        RemoveFirstKeepsOthers(s.hidden, p.id, q);
      }
    }
  }

  /** The double-click toggle flips the process's membership of the hidden list when the
      process has a main window, and keeps the list duplicate-free. */
  lemma DoubleClickFlips(s: EngineState, p: Process)
    requires Consistent(s)
    ensures Consistent(AfterDoubleClick(s, p))
    ensures p.mainWindowHandle != 0 ==> (p.id in AfterDoubleClick(s, p).hidden <==> p.id !in s.hidden)
    ensures p.mainWindowHandle == 0 ==> AfterDoubleClick(s, p) == s
  {
    ShowRemovesEveryCopy(s, p);
    HideLeavesOneCopy(s, p);
  }

  /** A successful tray registers the process with its new icon, leaves every other entry
      alone and puts the process in the hidden list exactly once. */
  lemma TrayRegistersAndHides(s: EngineState, p: Process, os: Win32)
    requires Consistent(s)
    ensures Consistent(AfterTray(s, p, os))
    ensures TraySucceeds(s, p, os) ==>
      AfterTray(s, p, os).trayed == s.trayed[p.id := CreateTrayIcon(p, os).value]
      && p.id in AfterTray(s, p, os).hidden
    ensures forall q :: q != p.id ==> (q in AfterTray(s, p, os).hidden <==> q in s.hidden)
    ensures !TraySucceeds(s, p, os) ==>
      AfterTray(s, p, os).orphans ==
        if IsTrayable(p) && CreateTrayIcon(p, os).Some? then s.orphans + [CreateTrayIcon(p, os).value]
        else s.orphans
  {
  }

  /** Untraying a registered process removes it from the registry and, when it has a
      main window, from the hidden list; every other process keeps its membership. */
  lemma UntrayRemovesSession(s: EngineState, p: Process)
    requires Consistent(s)
    ensures Consistent(AfterUntray(s, p))
    ensures p.id in s.trayed && p.mainWindowHandle != 0 ==> p.id !in AfterUntray(s, p).hidden
    ensures forall q :: q != p.id ==> (q in AfterUntray(s, p).hidden <==> q in s.hidden)
  {
    ShowRemovesEveryCopy(s, p);
  }

  /** Untraying twice is the same as untraying once. */
  lemma UntrayIdempotent(s: EngineState, p: Process)
    ensures AfterUntray(AfterUntray(s, p), p) == AfterUntray(s, p)
  {
  }

  /** Traying a process that is neither registered nor hidden, then untraying it, gives
      back the state it started from. */
  lemma TrayThenUntrayRestores(s: EngineState, p: Process, os: Win32)
    requires TraySucceeds(s, p, os) && p.id !in s.hidden
    ensures AfterUntray(AfterTray(s, p, os), p) == s
  {
    var icon := CreateTrayIcon(p, os).value;
    var t := AfterTray(s, p, os);
    assert t.hidden == s.hidden + [p.id];
    RemoveFirstAfterAppend(s.hidden, p.id);
    assert t.trayed - {p.id} == s.trayed;
  }
}
