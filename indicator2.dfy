/**
 * appindicator2.py: the second tray indicator.  Instead of polling every
 * second it waits for a file event on the watched executable (it is opened
 * when the program starts) or on a quit file, then re-checks the process
 * table.  The global `FOUND` flag connects the event handlers to the
 * notifier's callback, and the exit event stops the loop.
 *
 * Everything runs in one sequence here: `setup` is driven by a finite list
 * of cycles, each giving whether the watch could be set, the events that
 * arrive while watching, the process table seen afterwards and whether Exit
 * was clicked during the wait that ends the cycle.
 */
module Indicator2 {
  import opened PyText
  import opened Processes
  import opened Tray

  /**
   * `find_procs`: exact names only.  None when nothing matches, and also
   * when enumerating the table raised (an absent table here).
   */
  function ScanPids(table: Option<seq<Proc>>, process: string): (r: Option<seq<int>>)
    ensures r.None? <==> table.None? || forall p :: p in table.value ==> p.name != process
    ensures r.Some? ==> r.value == Pids(Matching(table.value, process, false)) && r.value != []
  {
    match table
    case None => None
    case Some(procs) =>
      match Find(procs, process, false)
      case None => None
      case Some(ps) => Some(Pids(ps))
  }

  /**
   * What `toggle_app_icon` decides: the status it returns, the image it
   * sets, if any, and the pids it reports as found (announced when the
   * icon supports notifications).
   */
  datatype Toggled = Toggled(status: Status, image: Option<Image>, found: seq<int>)

  /**
   * `toggle_app_icon`.  With the exit event set nothing is scanned.  A
   * match while the status is 'up' reaches the loop with `procs` never
   * bound: the error is swallowed and None ('unset' here) is returned.
   */
  function Toggle(exitSet: bool, status: Status, scan: Option<seq<int>>): (t: Toggled)
  {
    if exitSet then Toggled(status, None, [])
    else match scan
      case None => Toggled(Down, if status != Down then Some(RedArrowDown) else None, [])
      case Some(pids) =>
        if status == Up then
          if pids == [] then Toggled(Up, None, []) else Toggled(Unset, None, [])
        else Toggled(Up, Some(GreenArrowUp), Remember([], pids).1)
  }

  /** The icon and notification calls a toggle makes, in order. */
  function ToggleEffects(t: Toggled, hasNotification: bool): (r: seq<Effect>)
    ensures |r| == (if t.image.Some? then 1 else 0) + (if hasNotification then |t.found| else 0)
  {
    (if t.image.Some? then [ShowImage(t.image.value)] else []) + Notices(hasNotification, t.found)
  }

  /** The exit event set: the incoming status comes back and nothing is done. */
  lemma ToggleAfterExit(status: Status, scan: Option<seq<int>>, hasNotification: bool)
    ensures Toggle(true, status, scan).status == status
    ensures ToggleEffects(Toggle(true, status, scan), hasNotification) == []
  {
  }

  /**
   * From any status but 'up', finding the process gives 'up', sets the
   * green icon once and reports each distinct pid once.
   */
  lemma ToggleFound(status: Status, pids: seq<int>)
    requires status != Up && pids != []
    ensures var t := Toggle(false, status, Some(pids));
      && t.status == Up && t.image == Some(GreenArrowUp)
      && NoDuplicates(t.found)
      && (forall x :: x in t.found <==> x in pids)
  {
    RememberSpec([], pids);
  }

  /** Not finding the process gives 'down', redrawing the icon red only on a change. */
  lemma ToggleLost(status: Status)
    ensures var t := Toggle(false, status, None);
      && t.status == Down && t.found == []
      && (t.image.Some? <==> status != Down)
      && (t.image.Some? ==> t.image.value == RedArrowDown)
  {
  }

  /**
   * Finding the process again while 'up' fails and yields 'unset', so the
   * cycle after that goes 'up' afresh and reports every pid once more:
   * pids are announced on every other cycle while the process runs.
   */
  lemma ToggleUpAlternates(pids: seq<int>, again: seq<int>)
    requires pids != [] && again != []
    ensures Toggle(false, Up, Some(pids)) == Toggled(Unset, None, [])
    ensures var t := Toggle(false, Unset, Some(again));
      t.status == Up && t.image == Some(GreenArrowUp) && forall x :: x in again ==> x in t.found
  {
    RememberSpec([], again);
  }

  // ---------------------------------------------------------------------
  // The state the callbacks share
  // ---------------------------------------------------------------------

  /** The globals `FOUND` and `exit_event`, the icon's visibility and the effects so far. */
  datatype Shared = Shared(found: int, exitSet: bool, visible: bool, effects: seq<Effect>)

  /** One inotify event, or a click on Exit arriving while the watch blocks. */
  datatype WatchEvent = FileEvent(path: string) | ExitClick

  /**
   * One pass of `setup`'s loop.  `armed` is false when `watch` raises before
   * the notifier's loop starts; a path `add_watch` cannot watch does not
   * raise, so it only means that no event names that path.
   */
  datatype Cycle = Cycle(armed: bool, events: seq<WatchEvent>, table: Option<seq<Proc>>, exitDuringWait: bool)

  /** `set_image` */
  function SetImageSpec(s: Shared, image: Image): (r: Shared)
    ensures r.visible && r.found == s.found && r.exitSet == s.exitSet
  {
    s.(visible := true, effects := s.effects + [ShowImage(image)])
  }

  /**
   * `exit_main`: open and close the quit file, hide the icon, set the exit
   * event, stop the icon.  Opening the quit file is the first step: when it
   * does not exist the error is swallowed and nothing else happens.
   */
  function ExitMainSpec(s: Shared, quitFileExists: bool): (r: Shared)
    ensures quitFileExists ==> r.exitSet && !r.visible && r.effects == s.effects + [TouchQuitFile, HideIcon, SetExitEvent, StopIcon]
    ensures !quitFileExists ==> r == s
  {
    if !quitFileExists then s
    else s.(visible := false, exitSet := true, effects := s.effects + [TouchQuitFile, HideIcon, SetExitEvent, StopIcon])
  }

  /** The `finally` of `watch`: stop the notifier once the exit event is set. */
  function WatchFinally(s: Shared): (r: Shared)
  {
    if s.exitSet then s.(effects := s.effects + [StopNotifier]) else s
  }

  /**
   * An event ends the watch: a file event always does; an Exit click does
   * only when its opening of the quit file produces an event.
   */
  predicate Wakes(e: WatchEvent, quitFileExists: bool)
  {
    e.FileEvent? || quitFileExists
  }

  function FirstWake(events: seq<WatchEvent>, quitFileExists: bool): (r: Option<nat>)
    ensures r.None? <==> forall i :: 0 <= i < |events| ==> !Wakes(events[i], quitFileExists)
    ensures r.Some? ==> (r.value < |events| && Wakes(events[r.value], quitFileExists)
      && forall i :: 0 <= i < r.value ==> !Wakes(events[i], quitFileExists))
  {
    if events == [] then None
    else if Wakes(events[0], quitFileExists) then Some(0)
    else match FirstWake(events[1..], quitFileExists)
      case None => None
      case Some(k) => Some(k + 1)
  }

  /**
   * `watch`: when setting up the notifier raises, the error is swallowed
   * and the `finally` runs at once.  Otherwise the notifier's loop runs until the
   * callback sees `FOUND == 1`, which is after the first event; with no such
   * event it blocks for good (the second result).
   */
  function WatchSpec(s: Shared, armed: bool, events: seq<WatchEvent>, quitFileExists: bool): (r: (Shared, bool))
    ensures !r.1 ==> (r.0.exitSet == (s.exitSet || (armed && FirstWake(events, quitFileExists).Some?
      && events[FirstWake(events, quitFileExists).value].ExitClick?)))
  {
    if !armed then (WatchFinally(s), false)
    else match FirstWake(events, quitFileExists)
      case None => (s, true)
      case Some(k) =>
        var s1 := if events[k].ExitClick? then ExitMainSpec(s, quitFileExists) else s;
        (WatchFinally(s1.(found := 1)), false)
  }

  /** A toggle's result applied to the shared state. */
  function ToggleSpec(s: Shared, t: Toggled, hasNotification: bool): (r: Shared)
    ensures r.found == s.found && r.exitSet == s.exitSet
  {
    s.(visible := s.visible || t.image.Some?, effects := s.effects + ToggleEffects(t, hasNotification))
  }

  /**
   * One pass of `setup`'s loop: reset `FOUND`, watch, toggle, wait.  The
   * last result says the watch never returned.
   */
  function CycleSpec(s: Shared, status: Status, c: Cycle, process: string, hasNotification: bool, quitFileExists: bool)
    : (r: (Shared, Status, bool))
  {
    var (s1, blocked) := WatchSpec(s.(found := 0), c.armed, c.events, quitFileExists);
    if blocked then (s1, status, true)
    else
      var (s2, status2) := ToggleWaitSpec(s1, status, c, process, hasNotification, quitFileExists);
      (s2, status2, false)
  }

  /** The rest of a pass once the watch returned: toggle, then wait. */
  function ToggleWaitSpec(s: Shared, status: Status, c: Cycle, process: string, hasNotification: bool, quitFileExists: bool)
    : (r: (Shared, Status))
  {
    var t := Toggle(s.exitSet, status, ScanPids(c.table, process));
    var s2 := ToggleSpec(s, t, hasNotification);
    (if c.exitDuringWait then ExitMainSpec(s2, quitFileExists) else s2, t.status)
  }

  /** One cycle as a step function, for the run over all cycles. */
  function CycleStep(process: string, hasNotification: bool, quitFileExists: bool): Step
  {
    (s, status, c) => CycleSpec(s, status, c, process, hasNotification, quitFileExists)
  }

  type Step = (Shared, Status, Cycle) -> (Shared, Status, bool)

  lemma CycleStepIs(process: string, hasNotification: bool, quitFileExists: bool, s: Shared, status: Status, c: Cycle)
    ensures CycleStep(process, hasNotification, quitFileExists)(s, status, c)
      == CycleSpec(s, status, c, process, hasNotification, quitFileExists)
  {
  }

  /**
   * `setup`'s loop over the cycles while the exit event is clear: the state
   * at the end, how many cycles ran and whether the last one blocked.
   */
  function RunCycles(s: Shared, status: Status, cycles: seq<Cycle>, step: Step): (r: (Shared, nat, bool))
    ensures r.1 <= |cycles|
    ensures s.exitSet ==> r == (s, 0, false)
    decreases |cycles|
  {
    if s.exitSet || cycles == [] then (s, 0, false)
    else
      var (s1, status1, blocked) := step(s, status, cycles[0]);
      if blocked then (s1, 1, true)
      else
        var (s2, n, b) := RunCycles(s1, status1, cycles[1..], step);
        (s2, n + 1, b)
  }

  /** A run that has done `done` cycles and goes on with `rest` from state `s` ends as `total`. */
  ghost predicate Resumes(total: (Shared, nat, bool), s: Shared, status: Status, rest: seq<Cycle>, done: nat, step: Step)
  {
    var r := RunCycles(s, status, rest, step);
    total == (r.0, done + r.1, r.2)
  }

  /** One more cycle of a run that is resumed: it ends the run or the run resumes after it. */
  lemma ResumesStep(total: (Shared, nat, bool), s: Shared, status: Status, cycles: seq<Cycle>, k: nat, step: Step,
                    s1: Shared, status1: Status, blocked: bool)
    requires !s.exitSet && k < |cycles| && Resumes(total, s, status, cycles[k..], k, step)
    requires step(s, status, cycles[k]) == (s1, status1, blocked)
    ensures blocked ==> total == (s1, k + 1, true)
    ensures !blocked ==> Resumes(total, s1, status1, cycles[k + 1..], k + 1, step)
  {
    RunCyclesStep(s, status, cycles, k, step);
  }

  /** The run from cycle `k` on is cycle `k`, then, unless it blocked, the run from `k + 1`. */
  lemma RunCyclesStep(s: Shared, status: Status, cycles: seq<Cycle>, k: nat, step: Step)
    requires !s.exitSet && k < |cycles|
    ensures var (s1, status1, blocked) := step(s, status, cycles[k]);
      var rest := RunCycles(s1, status1, cycles[k + 1..], step);
      RunCycles(s, status, cycles[k..], step) == if blocked then (s1, 1, true) else (rest.0, rest.1 + 1, rest.2)
  {
    assert cycles[k..][0] == cycles[k];
    assert cycles[k..][1..] == cycles[k + 1..];
  }

  /**
   * Without the quit file the exit event can never be set: every cycle
   * runs unless a watch blocks, and the icon is never hidden by Exit.
   */
  lemma {:induction false} ExitNeedsQuitFile(s: Shared, status: Status, cycles: seq<Cycle>, process: string, hasNotification: bool)
    requires !s.exitSet
    ensures var (s', n, blocked) := RunCycles(s, status, cycles, CycleStep(process, hasNotification, false));
      !s'.exitSet && (blocked || n == |cycles|)
    decreases |cycles|
  {
    if cycles != [] {
      var (s1, status1, blocked) := CycleSpec(s, status, cycles[0], process, hasNotification, false);
      assert CycleStep(process, hasNotification, false)(s, status, cycles[0]) == (s1, status1, blocked);
      var w := WatchSpec(s.(found := 0), cycles[0].armed, cycles[0].events, false);
      assert !w.1 ==> !w.0.exitSet;
      if !blocked {
        assert !s1.exitSet;
        ExitNeedsQuitFile(s1, status1, cycles[1..], process, hasNotification);
      }
    }
  }

  /**
   * With the quit file present, an Exit click during the wait ends the loop
   * after that cycle.
   */
  lemma ExitClickStops(s: Shared, status: Status, cycles: seq<Cycle>, process: string, hasNotification: bool)
    requires !s.exitSet && cycles != [] && cycles[0].exitDuringWait
    ensures var (s', n, blocked) := RunCycles(s, status, cycles, CycleStep(process, hasNotification, true));
      n == 1 && (blocked || s'.exitSet)
  {
    var (s1, status1, blocked) := CycleSpec(s, status, cycles[0], process, hasNotification, true);
    assert CycleStep(process, hasNotification, true)(s, status, cycles[0]) == (s1, status1, blocked);
    if !blocked {
      assert s1.exitSet;
    }
  }

  /**
   * The `FOUND` protocol: a watch that returns after an event leaves
   * `FOUND` at 1, whatever it was before.
   */
  lemma WatchSetsFound(s: Shared, events: seq<WatchEvent>, quitFileExists: bool)
    ensures var (s', blocked) := WatchSpec(s, true, events, quitFileExists);
      !blocked ==> s'.found == 1
    ensures WatchSpec(s, true, events, quitFileExists).1 <==> FirstWake(events, quitFileExists).None?
  {
  }

  // ---------------------------------------------------------------------
  // The tray icon and its callbacks
  // ---------------------------------------------------------------------

  class App2 {
    const title: string
    const killLabel: string
    const hasNotification: bool
    /** `QUITFILE`, the path `<home>/.appindicator.quit` */
    const quitFile: string
    /** Whether the quit file exists: the program itself never creates it. */
    const quitFileExists: bool
    var found: int
    var exitSet: bool
    var visible: bool
    var effects: seq<Effect>

    function Snapshot(): Shared
      reads this
    {
      Shared(found, exitSet, visible, effects)
    }

    /** `start_main` builds the icon from the chosen process name. */
    constructor (processName: string, hasNotification: bool, home: string, quitFileExists: bool)
      ensures title == Title(processName) && killLabel == KillLabel(processName)
      ensures this.hasNotification == hasNotification && quitFile == home + "/.appindicator.quit"
      ensures this.quitFileExists == quitFileExists
      ensures found == 0 && !exitSet && !visible && effects == []
    {
      title := Title(processName);
      killLabel := KillLabel(processName);
      this.hasNotification := hasNotification;
      quitFile := home + "/.appindicator.quit";
      this.quitFileExists := quitFileExists;
      found := 0;
      exitSet := false;
      visible := false;
      effects := [];
    }

    /**
     * `EventHandler.process_IN_ACCESS` and `process_IN_CLOSE_NOWRITE`: set
     * `FOUND` for any path; the log line is skipped for paths in which the
     * quit file's name, read as a pattern, is found.
     */
    method HandleEvent(path: string) returns (logged: bool)
      modifies this
      ensures found == 1 && exitSet == old(exitSet) && visible == old(visible) && effects == old(effects)
      ensures logged == !DotSearch(quitFile, path)
    {
      logged := !DotSearchFrom(quitFile, path, 0);
      found := 1;
    }

    /** `handle_read_callback`: stop the notifier's loop once `FOUND` is 1. */
    method HandleReadCallback() returns (stop: bool)
      ensures stop <==> found == 1
    {
      stop := found == 1;
    }

    /** `set_image` */
    method SetImage(image: Image)
      modifies this
      ensures Snapshot() == SetImageSpec(old(Snapshot()), image)
    {
      effects := effects + [ShowImage(image)];
      visible := true;
    }

    /** `exit_main` */
    method ExitMain()
      modifies this
      ensures Snapshot() == ExitMainSpec(old(Snapshot()), quitFileExists)
    {
      if !quitFileExists {
        return;
      }
      effects := effects + [TouchQuitFile];
      visible := false;
      effects := effects + [HideIcon];
      exitSet := true;
      effects := effects + [SetExitEvent];
      effects := effects + [StopIcon];
    }

    /** The `finally` of `watch`, calling `exit_inotify`. */
    method StopWatching()
      modifies this
      ensures Snapshot() == WatchFinally(old(Snapshot()))
    {
      if exitSet {
        effects := effects + [StopNotifier];
      }
    }

    /** `watch`; returns true when the notifier blocks for good. */
    method Watch(armed: bool, events: seq<WatchEvent>) returns (blocked: bool)
      modifies this
      ensures (Snapshot(), blocked) == WatchSpec(old(Snapshot()), armed, events, quitFileExists)
    {
      if !armed {
        StopWatching();
        return false;
      }
      var i := 0;
      while i < |events|
        invariant i <= |events|
        invariant Snapshot() == old(Snapshot())
        invariant forall j :: 0 <= j < i ==> !Wakes(events[j], quitFileExists)
      {
        var event := events[i];
        if event.ExitClick? {
          ExitMain();
          if !quitFileExists {
            i := i + 1;
            continue;
          }
          var _ := HandleEvent(quitFile);
        } else {
          var _ := HandleEvent(event.path);
        }
        var stop := HandleReadCallback();
        assert stop;
        StopWatching();
        return false;
      }
      return true;
    }

    /** `toggle_app_icon` on the table seen after the watch (None when enumerating it raised). */
    method ToggleAppIcon(process: string, table: Option<seq<Proc>>, status: Status) returns (status': Status)
      modifies this
      ensures var t := Toggle(old(exitSet), status, ScanPids(table, process));
        && status' == t.status && found == old(found) && exitSet == old(exitSet)
        && visible == (old(visible) || t.image.Some?)
        && effects == old(effects) + ToggleEffects(t, hasNotification)
    {
      if exitSet {
        assert ToggleEffects(Toggled(status, None, []), hasNotification) == [];
        return status;
      }
      var scan := Scan(table, process);
      if scan.None? {
        if status != Down {
          SetImage(RedArrowDown);
          assert ToggleEffects(Toggled(Down, Some(RedArrowDown), []), hasNotification) == [ShowImage(RedArrowDown)];
        } else {
          assert ToggleEffects(Toggled(Down, None, []), hasNotification) == [];
        }
        return Down;
      }
      var myProcesses := scan.value;
      if status == Up {
        // `procs` is bound only when the status was not 'up': the loop's
        // first pass reads it unbound, the error is swallowed and None returned
        assert ToggleEffects(Toggled(if myProcesses == [] then Up else Unset, None, []), hasNotification) == [];
        return Unset;
      }
      ghost var before := effects;
      SetImage(GreenArrowUp);
      var pids := Pids(myProcesses);
      var _ := Announce(pids, []);
      AppendAssoc(before, [ShowImage(GreenArrowUp)], Notices(hasNotification, Remember([], pids).1));
      return Up;
    }

    /** `find_procs`, failing when enumerating the table raises. */
    method Scan(table: Option<seq<Proc>>, process: string) returns (r: Option<seq<Proc>>)
      ensures r.None? <==> ScanPids(table, process).None?
      ensures r.Some? ==> ScanPids(table, process) == Some(Pids(r.value))
    {
      if table.None? {
        return None;
      }
      r := FindProcs(table.value, process, false);
    }

    /** The loop over the matches: remember and announce each pid not seen yet. */
    method Announce(pids: seq<int>, known: seq<int>) returns (known': seq<int>)
      modifies this
      ensures known' == Remember(known, pids).0
      ensures effects == old(effects) + Notices(hasNotification, Remember(known, pids).1)
      ensures found == old(found) && exitSet == old(exitSet) && visible == old(visible)
    {
      known' := known;
      ghost var reported: seq<int> := [];
      for j := 0 to |pids|
        invariant (known', reported) == Remember(known, pids[..j])
        invariant effects == old(effects) + Notices(hasNotification, reported)
        invariant found == old(found) && exitSet == old(exitSet) && visible == old(visible)
      {
        assert pids[..j + 1][..j] == pids[..j];
        var pid := pids[j];
        if pid !in known' {
          known' := known' + [pid];
          reported := reported + [pid];
          if hasNotification {
            effects := effects + [NotifyDetected(pid)];
          }
        }
      }
      assert pids[..|pids|] == pids;
    }

    /**
     * `setup`: the name comes from the title outside the `try`, so a title
     * without it ends the thread before anything happens.  Otherwise the
     * icon turns red and the cycles run while the exit event is clear.  The
     * loop ends only once the exit event is set, and then the `finally`
     * calls `exit_main` (a second time after a menu Exit).  A watch that
     * blocks for good, or input cycles that run out first, leave the program
     * still running, so `exit_main` is not called.
     */
    method Setup(cycles: seq<Cycle>) returns (ran: nat, blocked: bool)
      modifies this
      ensures TitleName(title).None? ==> Snapshot() == old(Snapshot()) && ran == 0 && !blocked
      ensures TitleName(title).Some? ==>
        var (s, n, b) := RunCycles(SetImageSpec(old(Snapshot()), RedArrowDown), Initial, cycles,
                                   CycleStep(TitleName(title).value, hasNotification, quitFileExists));
        ran == n && blocked == b && Snapshot() == (if b || !s.exitSet then s else ExitMainSpec(s, quitFileExists))
    {
      var name := TitleName(title);
      if name.None? {
        return 0, false;
      }
      var process := name.value;
      var status := Initial;
      SetImage(RedArrowDown);
      ghost var step := CycleStep(process, hasNotification, quitFileExists);
      ghost var total := RunCycles(Snapshot(), Initial, cycles, step);
      ran, blocked := 0, false;
      while !exitSet && ran < |cycles|
        invariant ran <= |cycles|
        invariant Resumes(total, Snapshot(), status, cycles[ran..], ran, step)
        decreases |cycles| - ran
      {
        ghost var s0, status0 := Snapshot(), status;
        status, blocked := Cycle(process, cycles[ran], status);
        ResumesStep(total, s0, status0, cycles, ran, step, Snapshot(), status, blocked);
        ran := ran + 1;
        if blocked {
          return;
        }
      }
      if exitSet {
        ExitMain();
      }
    }

    /** One pass of `setup`'s loop body. */
    method Cycle(process: string, c: Cycle, status: Status) returns (status': Status, blocked: bool)
      modifies this
      ensures (Snapshot(), status', blocked) == CycleStep(process, hasNotification, quitFileExists)(old(Snapshot()), status, c)
    {
      CycleStepIs(process, hasNotification, quitFileExists, old(Snapshot()), status, c);
      found := 0;
      ghost var s0 := Snapshot();
      assert s0 == old(Snapshot()).(found := 0);
      blocked := Watch(c.armed, c.events);
      if blocked {
        return status, true;
      }
      status' := ToggleAndWait(process, c, status);
    }

    /** The pass after the watch returned: `toggle_app_icon`, then the wait, where Exit may be clicked. */
    method ToggleAndWait(process: string, c: Cycle, status: Status) returns (status': Status)
      modifies this
      ensures (Snapshot(), status') == ToggleWaitSpec(old(Snapshot()), status, c, process, hasNotification, quitFileExists)
    {
      ghost var s1 := Snapshot();
      ghost var t := Toggle(s1.exitSet, status, ScanPids(c.table, process));
      status' := ToggleAppIcon(process, c.table, status);
      ghost var s2 := Snapshot();
      assert s2 == ToggleSpec(s1, t, hasNotification);
      if c.exitDuringWait {
        ExitMain();
      }
    }

    /**
     * `kill_all` from the menu: as in the first indicator, with exact-name
     * matching, and with a `find_procs` that returns None when enumerating
     * the processes raises.  A first scan that raises is "not found"; a
     * rescan that raises ends the loop, and the pids killed so far are
     * notified.
     */
    method KillAll(pt: ProcessTable, firstRaises: bool, rescans: seq<Rescan>)
      modifies this, pt
      ensures found == old(found) && visible == old(visible) && exitSet == old(exitSet)
      ensures LabelName(killLabel).None? ==> pt.procs == old(pt.procs) && effects == old(effects)
      ensures LabelName(killLabel).Some? ==>
        var name := LabelName(killLabel).value;
        if firstRaises || forall p :: p in old(pt.procs) ==> !Accepts(p, name, false) then
          pt.procs == old(pt.procs) && effects == old(effects)
        else
          var (table, killed) := KillPassesUntil(old(pt.procs), name, false, rescans);
          pt.procs == table
          && effects == old(effects) + (if hasNotification then [NotifyKilled(name, killed)] else [])
    {
      var name := LabelName(killLabel);
      if name.None? {
        return;
      }
      var killed := KillAllUntil(pt, name.value, false, firstRaises, rescans);
      if killed.Some? && hasNotification {
        effects := effects + [NotifyKilled(name.value, killed.value)];
      }
    }
  }

  /** Events on the quit file itself are never logged (its path has no newline). */
  lemma QuitFileNotLogged(quitFile: string)
    requires '\n' !in quitFile
    ensures DotSearch(quitFile, quitFile)
  {
    DotSearchSelf(quitFile, quitFile, 0);
  }
}
