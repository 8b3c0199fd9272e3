/** One pass of the body of Engine.AutoTrayProcess: read the foreground window, then walk
    the registry's keys. The first process that has exited is untrayed and the pass stops;
    every running process before it that is neither hidden nor the foreground window is
    hidden. An exception while reading HasExited ends the pass and stops the monitor. */
module AutoTray {
  import opened Processes
  import opened Sequences
  import opened Sessions

  /** How a pass ends: it walked every key, it untrayed an exited process and broke off,
      or an exception reached the catch block, which stops the auto-tray thread. */
  datatype CycleOutcome = Completed | UntrayedExited(id: ProcId) | Faulted

  datatype CycleResult = CycleResult(state: EngineState, outcome: CycleOutcome)

  predicate DistinctIds(keys: seq<Process>) {
    forall i, j :: 0 <= i < j < |keys| ==> keys[i].id != keys[j].id
  }

  /** `keys` lists the registry's keys once each, in the (unspecified) order in which
      Dictionary.Keys yields them, with each process's state during the pass. */
  predicate EnumeratesKeys(keys: seq<Process>, trayed: map<ProcId, TrayIcon>) {
    DistinctIds(keys)
    && (forall i :: 0 <= i < |keys| ==> keys[i].id in trayed)
    && (forall id :: id in trayed ==> exists i :: 0 <= i < |keys| && keys[i].id == id)
  }

  /** The pass over the keys, given the foreground window's handle. */
  function Cycle(s: EngineState, keys: seq<Process>, foreground: int): (r: CycleResult)
    ensures r.outcome.UntrayedExited? ==> r.state.trayed == s.trayed - {r.outcome.id}
    ensures !r.outcome.UntrayedExited? ==> r.state.trayed == s.trayed
    ensures r.state.orphans == s.orphans
    decreases |keys|
  {
    if keys == [] then CycleResult(s, Completed)
    else
      var p := keys[0];
      match p.probe
      case AccessDenied => CycleResult(s, Faulted)
      case NotAssociated => CycleResult(s, Faulted)
      case Exited => CycleResult(AfterUntray(s, p), UntrayedExited(p.id))
      case Running =>
        var next := if p.id !in s.hidden && p.mainWindowHandle != foreground then AfterHide(s, p) else s;
        Cycle(next, keys[1..], foreground)
  }

  /** The position at which a pass stops walking: the first key whose HasExited does
      not answer false, or the end of the keys. */
  function StopIndex(keys: seq<Process>): (k: nat)
    ensures k <= |keys|
    ensures forall j :: 0 <= j < k ==> keys[j].probe.Running?
    ensures k < |keys| ==> !keys[k].probe.Running?
  {
    if keys == [] || !keys[0].probe.Running? then 0 else 1 + StopIndex(keys[1..])
  }

  /** A pass completes when every process is running, untrays the first exited process,
      and faults when the first non-running process's HasExited throws. */
  lemma {:induction false} CycleOutcomeAtStop(s: EngineState, keys: seq<Process>, foreground: int)
    ensures var k := StopIndex(keys);
      Cycle(s, keys, foreground).outcome ==
        if k == |keys| then Completed
        else if keys[k].probe.Exited? then UntrayedExited(keys[k].id)
        else Faulted
    decreases |keys|
  {
    if keys != [] && keys[0].probe.Running? {
      var p := keys[0];
      var next := if p.id !in s.hidden && p.mainWindowHandle != foreground then AfterHide(s, p) else s;
      CycleOutcomeAtStop(next, keys[1..], foreground);
    }
  }

  /** Nothing after the stopping key is examined: keys appended after it change nothing. */
  lemma {:induction false} CycleIgnoresLaterKeys(s: EngineState, keys: seq<Process>, rest: seq<Process>, foreground: int)
    requires StopIndex(keys) < |keys|
    ensures Cycle(s, keys + rest, foreground) == Cycle(s, keys, foreground)
    decreases |keys|
  {
    assert (keys + rest)[0] == keys[0];
    if keys[0].probe.Running? {
      var p := keys[0];
      var next := if p.id !in s.hidden && p.mainWindowHandle != foreground then AfterHide(s, p) else s;
      assert (keys + rest)[1..] == keys[1..] + rest;
      CycleIgnoresLaterKeys(next, keys[1..], rest, foreground);
    }
  }

  /** What a pass does to the hidden list. A running key before the stopping point ends
      up hidden exactly when it was hidden already or has a main window that is not the
      foreground window; so the foreground window's process is left as it was. An exited
      key with a main window leaves the list; a key whose probe throws is untouched, and
      so is every process the pass never reached. */
  lemma {:induction false} CycleHidden(s: EngineState, keys: seq<Process>, foreground: int)
    requires Consistent(s) && DistinctIds(keys)
    requires forall i :: 0 <= i < |keys| ==> keys[i].id in s.trayed
    ensures Consistent(Cycle(s, keys, foreground).state)
    ensures forall j :: 0 <= j < StopIndex(keys) ==>
      (keys[j].id in Cycle(s, keys, foreground).state.hidden <==>
        keys[j].id in s.hidden || (keys[j].mainWindowHandle != 0 && keys[j].mainWindowHandle != foreground))
    ensures (StopIndex(keys) < |keys| && keys[StopIndex(keys)].probe.Exited?
             && keys[StopIndex(keys)].mainWindowHandle != 0) ==>
      keys[StopIndex(keys)].id !in Cycle(s, keys, foreground).state.hidden
    ensures StopIndex(keys) < |keys| && (ProbeThrows(keys[StopIndex(keys)]) || keys[StopIndex(keys)].mainWindowHandle == 0) ==>
      (keys[StopIndex(keys)].id in Cycle(s, keys, foreground).state.hidden <==> keys[StopIndex(keys)].id in s.hidden)
    ensures forall q :: (forall j :: 0 <= j < |keys| && j <= StopIndex(keys) ==> keys[j].id != q) ==>
      (q in Cycle(s, keys, foreground).state.hidden <==> q in s.hidden)
    decreases |keys|
  {
    if keys == [] {
    } else {
      var p := keys[0];
      if !p.probe.Running? {
        UntrayRemovesSession(s, p);
      } else {
        var next := if p.id !in s.hidden && p.mainWindowHandle != foreground then AfterHide(s, p) else s;
        HideLeavesOneCopy(s, p);
        var tail := keys[1..];
        assert DistinctIds(tail) by {
          forall i, j | 0 <= i < j < |tail| ensures tail[i].id != tail[j].id {
            assert tail[i] == keys[i + 1] && tail[j] == keys[j + 1];
          }
        }
        CycleHidden(next, tail, foreground);
        var r := Cycle(s, keys, foreground).state;
        assert r == Cycle(next, tail, foreground).state;
        var k := StopIndex(keys);
        assert k == StopIndex(tail) + 1;
        assert p.id in r.hidden <==> p.id in next.hidden by {
          forall j | 0 <= j < |tail| && j <= StopIndex(tail) ensures tail[j].id != p.id {
            assert tail[j] == keys[j + 1];
          }
        }
        forall j | 0 <= j < k
          ensures keys[j].id in r.hidden <==>
            keys[j].id in s.hidden || (keys[j].mainWindowHandle != 0 && keys[j].mainWindowHandle != foreground)
        {
          if j > 0 {
            assert keys[j] == tail[j - 1];
            assert keys[j].id != p.id;
          }
        }
        if k < |keys| {
          assert keys[k] == tail[k - 1];
          assert keys[k].id != p.id;
        }
        forall q | (forall j :: 0 <= j < |keys| && j <= k ==> keys[j].id != q)
          ensures q in r.hidden <==> q in s.hidden
        {
          assert keys[0].id != q;
          forall j | 0 <= j < |tail| && j <= StopIndex(tail) ensures tail[j].id != q {
            assert tail[j] == keys[j + 1];
          }
        }
      }
    }
  }

  /** Two trayed, running, shown processes: after one pass the one owning the foreground
      window is still shown and the other is hidden. */
  lemma ForegroundStaysBackgroundHides(s: EngineState, a: Process, b: Process)
    requires Consistent(s) && a.id != b.id && a.id in s.trayed && b.id in s.trayed
    requires a.probe.Running? && b.probe.Running?
    requires a.id !in s.hidden && b.id !in s.hidden
    requires a.mainWindowHandle != 0 && b.mainWindowHandle != 0 && b.mainWindowHandle != a.mainWindowHandle
    ensures var r := Cycle(s, [a, b], a.mainWindowHandle);
      r.outcome == Completed && a.id !in r.state.hidden && b.id in r.state.hidden
  {
    var keys := [a, b];
    CycleHidden(s, keys, a.mainWindowHandle);
    CycleOutcomeAtStop(s, keys, a.mainWindowHandle);
    assert StopIndex(keys) == 2 by {
      assert keys[1..] == [b] && keys[1..][1..] == [];
    }
    assert keys[0] == a && keys[1] == b;
  }
}
