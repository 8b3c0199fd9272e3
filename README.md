# TrayIt engine, modelled in Dafny

TrayIt hides the main window of a running application and puts a notification-area
("tray") icon in its place. The icon restores the window on demand. An optional
auto-tray mode polls every 500 ms. It hides each trayed window that is not the
foreground window, and it untrays processes that have exited.

This project models the bookkeeping of the `Engine` class (`src/TrayIt/Engine.cs`):

- the registry of trayed processes (`TrayedApplications`, process → `NotifyIcon`);
- the hidden-window list (`_hiddenWindows`);
- the trayability gate, the tooltip rule and the icon fallback chain;
- one pass of the auto-tray loop.

Files and modules:

- `Sequences.dfy` (`Sequences`): `List.Contains` and `List.Remove` semantics. `Remove` drops only the first occurrence.
- `Processes.dfy` (`Processes`): a process snapshot, `IsTrayable` and the tooltip rule.
- `Icons.dfy` (`Icons`): `GetIcon` and its Win32 constants (`WM_GETICON` = 0x7f, `ICON_SMALL` = 0, `ICON_BIG` = 1, `GCL_HICONSM` = -34, `GCL_HICON` = -14).
- `Sessions.dfy` (`Sessions`): the engine state as a value, each operation as a function on it, and the lemmas about them.
- `AutoTray.dfy` (`AutoTray`): one pass of the auto-tray loop as a function on the state, and the lemmas about it.
- `Engine.dfy` (`TrayEngine`): the `Engine` class. Its fields are updated in place. Each method's `ensures` equates the new state with the matching `Sessions`/`AutoTray` function of the old state. The auto-tray pass is a `while` loop with an invariant.

Modelling choices:

- A `ProcId` is the identity of a `Process` object. The `Dictionary` and the `List` compare processes by reference, so two `Process` objects for one OS process are two keys.
- A `Process` value is a snapshot taken when a call starts. It is assumed stable for that call.
- `mainWindowHandle` is 0 when there is no main window. It is also 0 when reading the handle throws. Every operation that reads the handle treats both cases the same way.
- `probe` says what reading `HasExited` does. It answers false (`Running`) or true (`Exited`), or it throws. `AccessDenied` is a `Win32Exception`. `NotAssociated` is an `InvalidOperationException`.
- The Win32 calls `SendMessage` and `GetClassLong` are parameters: the two functions of a `Win32` value.
- `GetForegroundWindow` is a parameter of the auto-tray pass.
- The window commands (`ShowWindow`, `SetForegroundWindow`) have no modelled effect.
- `Dictionary.Keys` has no specified order. The pass therefore takes the keys as any sequence that lists each registry key exactly once (`EnumeratesKeys`).
- Exceptions that the engine swallows become ordinary results. If `Dictionary.Add` throws on a duplicate key, `TrayApplication` returns false. If the indexer throws on a missing key, `UntrayApplication` does nothing. If `HasExited` throws during a pass, the pass ends with outcome `Faulted`, which stops the monitor.
- On a duplicate tray, `CreateTrayIcon` has already made a visible icon before `Add` throws. The model keeps that icon in `orphans`, a list of icons that are shown but not registered.

Details of the code the model keeps:

- **Icon order.** The code asks for `ICON_SMALL` (0) before `ICON_BIG` (1), and `GCL_HICONSM` (-34) before `GCL_HICON` (-14).
- **Checked cast.** `GetIcon` passes `(int) p.MainWindowHandle` to `GetClassLong`. That conversion throws for a handle outside the 32-bit range. Such a handle therefore gets no class icon, and the model encodes this in `FitsInt32`.
- **Untraying an exited process.** When a pass untrays an exited process, `ShowWindow` reads the main window handle again. If that read gives 0 or throws, `ShowWindow` fails and the process stays in the hidden list. If it still gives the earlier non-zero handle, the process leaves the list. `CycleHidden` states both cases.

## Model

| member | source | states |
|---|---|---|
| `Processes.IsTrayable` | src/TrayIt/Engine.cs:177-201 | True exactly when the main window handle is non-zero and reading `HasExited` does not throw; no main window always gives false |
| `Processes.Tooltip` | src/TrayIt/Engine.cs:224-227 | The tooltip is a prefix of the title of at most 63 characters; a title shorter than 64 is kept unchanged and a longer one gives exactly 63 characters |
| `Icons.GetIcon` | src/TrayIt/Engine.cs:251-282 | No main window gives no icon; otherwise the result is the first non-zero handle among window-small, window-big, class-small (-34), class-big (-14), with the class queries skipped when the handle overflows the int cast; a found icon is never zero |
| `Icons.FirstNonZero` | src/TrayIt/Engine.cs:259-275 | The reference "first non-zero" rule GetIcon is proved against: no result exactly when all entries are zero, otherwise a non-zero entry preceded only by zeros |
| `Icons.ClassSmallIconIsFallback` | src/TrayIt/Engine.cs:259-269 | A window whose two window-icon queries answer zero but whose class has a small icon gets that class icon |
| `Sequences.RemoveFirst` | src/TrayIt/Engine.cs:136 | `List.Remove` leaves the list unchanged when the element is absent and makes it exactly one element shorter otherwise |
| `Sequences.RemoveFirstDropsOneCopy` | src/TrayIt/Engine.cs:136 | `List.Remove` takes exactly one copy of the element out of the list's multiset of elements, none when it is absent |
| `Sequences.RemoveFirstCutsFirstOccurrence` | src/TrayIt/Engine.cs:136 | `List.Remove` cuts out exactly the first position holding the element and keeps the order of the rest |
| `Sequences.RemoveFirstOfNoDup` | src/TrayIt/Engine.cs:136 | On a duplicate-free list, removing the element leaves no copy of it and keeps the list duplicate-free |
| `Sessions.CreateTrayIcon` | src/TrayIt/Engine.cs:210-244 | An icon is made exactly when GetIcon finds one; it is exactly the icon owned by the process, with `Tooltip` of the title as its text (a prefix of at most 63 characters) and GetIcon's non-zero handle |
| `Sessions.AfterShow` | src/TrayIt/Engine.cs:128-146 | Showing never touches the registry; with no main window, or a process not in the hidden list, nothing changes |
| `Sessions.AfterHide` | src/TrayIt/Engine.cs:153-170 | Hiding never touches the registry; with no main window, or a process already hidden, nothing changes |
| `Sessions.AfterDoubleClick` | src/TrayIt/Engine.cs:284-291 | The double-click toggle never touches the registry or the orphaned icons |
| `Sessions.AfterTray` | src/TrayIt/Engine.cs:75-99 | A failed tray leaves registry and hidden list unchanged; a successful one registers the process under an icon it owns and orphans nothing |
| `Sessions.AfterUntray` | src/TrayIt/Engine.cs:105-121 | Untraying a process that is not a key changes nothing; otherwise the registry loses exactly that key and the orphaned icons are untouched |
| `Sessions.HideLeavesOneCopy` | src/TrayIt/Engine.cs:153-170 | Hiding keeps the hidden list duplicate-free, puts a process with a main window on it (so exactly once), and leaves every other process's membership alone |
| `Sessions.ShowRemovesEveryCopy` | src/TrayIt/Engine.cs:128-146 | Showing keeps the hidden list duplicate-free, leaves a process with a main window absent from it, and leaves every other process's membership alone |
| `Sessions.DoubleClickFlips` | src/TrayIt/Engine.cs:284-291 | With a main window the toggle flips the process's membership of the hidden list; without one it changes nothing; the list stays duplicate-free |
| `Sessions.TrayRegistersAndHides` | src/TrayIt/Engine.cs:75-99 | A successful tray adds exactly the new entry to the registry and puts the process on the hidden list; every other process keeps its hidden-list membership; a tray that fails on a duplicate key after the icon was made orphans that icon, any other failure orphans nothing |
| `Sessions.UntrayRemovesSession` | src/TrayIt/Engine.cs:105-121 | Untraying keeps the hidden list duplicate-free, takes a registered process with a main window off it, and leaves every other process's membership alone |
| `Sessions.UntrayIdempotent` | src/TrayIt/Engine.cs:105-121 | Untraying twice gives the same state as untraying once |
| `Sessions.TrayThenUntrayRestores` | src/TrayIt/Engine.cs:75-121 | Traying a process that was neither registered nor hidden and then untraying it gives back the original state |
| `AutoTray.Cycle` | src/TrayIt/Engine.cs:347-358 | A pass changes the registry only by removing the exited process it untrays, and never touches the orphaned icons |
| `AutoTray.StopIndex` | src/TrayIt/Engine.cs:348-354 | The stopping position is the first key whose `HasExited` is not a plain false, or the end of the keys |
| `AutoTray.CycleOutcomeAtStop` | src/TrayIt/Engine.cs:348-363 | A pass completes when every key is running, untrays exactly the first exited key, and faults when the first non-running key's `HasExited` throws |
| `AutoTray.CycleIgnoresLaterKeys` | src/TrayIt/Engine.cs:350-354 | After the `break` no later key is examined: keys appended after the stopping key change nothing |
| `AutoTray.CycleHidden` | src/TrayIt/Engine.cs:347-358 | Each running key before the stop ends up hidden exactly when it was hidden or has a main window other than the foreground window (so the foreground process is untouched); an exited key with a main window leaves the hidden list; unreached processes keep their membership; the list stays duplicate-free |
| `AutoTray.ForegroundStaysBackgroundHides` | src/TrayIt/Engine.cs:347-358 | With two trayed, running, shown processes, one pass completes, leaves the foreground window's process shown and hides the other |
| `TrayEngine.Engine.constructor` | src/TrayIt/Engine.cs:12-14 | A new engine has an empty registry and an empty hidden list |
| `TrayEngine.Engine.ShowWindow` | src/TrayIt/Engine.cs:128-146 | Returns true exactly with a main window, and then the process is not in the hidden list; the new state is `AfterShow` of the old one |
| `TrayEngine.Engine.HideWindow` | src/TrayIt/Engine.cs:153-170 | Returns true exactly with a main window, and then the process is in the hidden list; the new state is `AfterHide` of the old one |
| `TrayEngine.Engine.TrayApplication` | src/TrayIt/Engine.cs:75-99 | Returns true exactly when the process is trayable, an icon is found and it is not yet a key; on success it is a key and hidden, on failure registry and hidden list are unchanged |
| `TrayEngine.Engine.UntrayApplication` | src/TrayIt/Engine.cs:105-121 | Afterwards the process is not a key, and a registered process with a main window is off the hidden list; the new state is `AfterUntray` of the old one |
| `TrayEngine.Engine.IconDoubleClick` | src/TrayIt/Engine.cs:284-291 | With a main window, the process's membership of the hidden list flips |
| `TrayEngine.Engine.AutoTrayCycle` | src/TrayIt/Engine.cs:347-358 | The loop over the keys leaves the engine in the state, and returns the outcome, that `Cycle` gives for the old state |

## Left out

- Win32 P/Invoke (`SendMessage`, `GetClassLong`, the native `ShowWindow`, `GetForegroundWindow`, `SetForegroundWindow`): foreign calls. Their results are parameters and their effects on the desktop are not modelled.
- `StartAutoTray`, `StopAutoTray`, the thread, `Thread.Abort`, `Sleep(500)` and the endless `while (true)` loop: concurrency and timing. Only one pass of the loop body is modelled. Its `Faulted` outcome stands for the catch block that stops the thread.
- Concurrent access to the registry from the UI thread and the monitor thread: each operation is modelled as atomic.
- Construction of the `NotifyIcon` and `ContextMenu`, the balloon tip, `Icon.FromHandle` and the `MessageBox` alerts: UI and library objects. An icon is modelled by its owner, tooltip text and icon handle. The menu items "Show", "Hide" and "Remove Tray" call `ShowWindow`, `HideWindow` and `UntrayApplication` on the icon's process, which are modelled.
- Exceptions other than those named above, for example from building the menu inside `CreateTrayIcon` or from `Icon.FromHandle`: not modelled.
- A read of `MainWindowHandle` that throws inside the auto-tray pass, after `HasExited` answered false: not modelled. The handle is a plain value there.
- `src/TrayIt/MainWindow.xaml.cs` (the process list, refresh, close confirmation, `Kill`) and `src/TrayIt/App.xaml.cs` (the application's own tray icon and resources): user interface, not part of this model.
- Sessions.AfterDoubleClick: its own contract only says the registry is untouched; the membership flip is stated in `DoubleClickFlips` and `Engine.IconDoubleClick`.
- Processes.Tooltip: lengths are counted in characters (Unicode scalar values), not in the UTF-16 code units that C#'s `Length` and `Substring(0, 63)` count. A title with characters outside the Basic Multilingual Plane can therefore be cut at a different place, or not at all, and the code can split a surrogate pair, which the model cannot express.
