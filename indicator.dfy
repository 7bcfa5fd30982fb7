/**
 * appindicator.py: a tray icon that polls the process table once a second
 * and shows a green arrow while the watched process runs and a red arrow
 * while it does not, announcing each newly seen pid.  Its menu kills every
 * instance of the process or exits.
 *
 * The polling loop is driven by a finite list of ticks: the process table
 * seen at each poll and whether Exit was clicked during the wait after it.
 */
module Indicator {
  import opened PyText
  import opened Processes
  import opened Tray

  /** The pids of a poll (names and `name.exe` both count); None when nothing matches. */
  function ScanPids(table: seq<Proc>, process: string): (r: Option<seq<int>>)
    ensures r.None? <==> forall p :: p in table ==> !Accepts(p, process, true)
    ensures r.Some? ==> r.value == Pids(Matching(table, process, true)) && r.value != []
  {
    match Find(table, process, true)
    case None => None
    case Some(ps) => Some(Pids(ps))
  }

  /** The state `setup` carries from one poll to the next, and the effects so far. */
  datatype Detection = Detection(status: Status, known: seq<int>, effects: seq<Effect>)

  /**
   * One poll: no match turns the icon red unless it already was; a match
   * turns it green unless it already was, forgetting the pids seen before
   * the process went away, and announces the pids not seen yet.
   */
  function Detect(status: Status, known: seq<int>, scan: Option<seq<int>>, hasNotification: bool): (d: Detection)
    ensures scan.None? ==> d.status == Down && d.known == known
    ensures scan.Some? ==> d.status == Up
  {
    match scan
    case None =>
      Detection(Down, known, if status != Down then [ShowImage(RedArrowDown)] else [])
    case Some(pids) =>
      var base := if status != Up then [] else known;
      var (k, n) := Remember(base, pids);
      Detection(Up, k, (if status != Up then [ShowImage(GreenArrowUp)] else []) + Notices(hasNotification, n))
  }

  predicate ShowsImage(effects: seq<Effect>)
  {
    exists e :: e in effects && e.ShowImage?
  }

  /**
   * The icon is redrawn exactly when the status changes, red for down and
   * green for up, and always first.
   */
  lemma DetectImageOnChange(status: Status, known: seq<int>, scan: Option<seq<int>>, hasNotification: bool)
    ensures var d := Detect(status, known, scan, hasNotification);
      && (ShowsImage(d.effects) <==> d.status != status)
      && (ShowsImage(d.effects) ==> d.effects[0] == ShowImage(if d.status == Down then RedArrowDown else GreenArrowUp))
  {
    var d := Detect(status, known, scan, hasNotification);
    match scan
    case None =>
      if status != Down {
        assert d.effects[0] in d.effects;
      }
    case Some(pids) =>
      var base := if status != Up then [] else known;
      var (k, n) := Remember(base, pids);
      var notices := Notices(hasNotification, n);
      assert forall e :: e in notices ==> e.NotifyDetected? by {
        forall e | e in notices
          ensures e.NotifyDetected?
        {
          var i :| 0 <= i < |notices| && notices[i] == e;
        }
      }
      if status == Up {
        assert d.effects == notices;
      } else {
        assert d.effects[0] == ShowImage(GreenArrowUp);
        assert d.effects[0] in d.effects;
      }
  }

  /**
   * A poll that finds the process announces exactly the pids it has not
   * announced since the process was last seen up: each once, none already
   * remembered, and afterwards all of them remembered.
   */
  lemma DetectAnnounces(status: Status, known: seq<int>, pids: seq<int>)
    ensures var d := Detect(status, known, Some(pids), true);
      var base := if status != Up then [] else known;
      var notified := Remember(base, pids).1;
      && d.known == base + notified
      && NoDuplicates(notified)
      && (forall x :: x in notified <==> x in pids && x !in base)
      && (forall x :: x in pids ==> x in d.known)
      && d.effects == (if status != Up then [ShowImage(GreenArrowUp)] else []) + Notices(true, notified)
  {
    var base := if status != Up then [] else known;
    RememberSpec(base, pids);
  }

  /** Polling again while up, with the same pids, does nothing at all. */
  lemma DetectAgain(status: Status, known: seq<int>, pids: seq<int>, hasNotification: bool)
    ensures var d := Detect(status, known, Some(pids), hasNotification);
      Detect(d.status, d.known, Some(pids), hasNotification) == Detection(Up, d.known, [])
  {
    var base := if status != Up then [] else known;
    RememberSpec(base, pids);
    var d := Detect(status, known, Some(pids), hasNotification);
    RememberAgain(d.known, pids);
  }

  /**
   * `setup`'s polls over a run of ticks, from the initial 'none' status:
   * each tick is one poll and, when Exit was clicked while waiting after
   * it, what `exit_main` does.
   */
  function Run(ticks: seq<Tick>, process: string, hasNotification: bool): (d: Detection)
    decreases |ticks|
  {
    if ticks == [] then Detection(Initial, [], [])
    else
      var before := Run(ticks[..|ticks| - 1], process, hasNotification);
      var tick := ticks[|ticks| - 1];
      var step := Detect(before.status, before.known, ScanPids(tick.table, process), hasNotification);
      Detection(step.status, step.known, before.effects + (step.effects + ExitEffects(tick.exitClicked)))
  }

  lemma RunStep(ticks: seq<Tick>, i: nat, process: string, hasNotification: bool)
    requires i < |ticks|
    ensures var before := Run(ticks[..i], process, hasNotification);
      var step := Detect(before.status, before.known, ScanPids(ticks[i].table, process), hasNotification);
      Run(ticks[..i + 1], process, hasNotification)
        == Detection(step.status, step.known, before.effects + (step.effects + ExitEffects(ticks[i].exitClicked)))
  {
    assert ticks[..i + 1][..i] == ticks[..i];
  }

  /** What `exit_main` does once Exit is clicked. */
  function ExitEffects(clicked: bool): (r: seq<Effect>)
    ensures clicked ==> r == [HideIcon, SetExitEvent, StopIcon]
    ensures !clicked ==> r == []
  {
    if clicked then [HideIcon, SetExitEvent, StopIcon] else []
  }

  /** Exit was not clicked during the first `n` polls. */
  predicate NoneClicked(ticks: seq<Tick>, n: int)
  {
    forall j :: 0 <= j < n && j < |ticks| ==> !ticks[j].exitClicked
  }

  lemma NoneClickedStep(ticks: seq<Tick>, n: nat)
    requires NoneClicked(ticks, n - 1) && (0 < n <= |ticks| ==> !ticks[n - 1].exitClicked)
    ensures NoneClicked(ticks, n)
  {
  }

  /** One poll of `setup`: the process table seen, then whether Exit was clicked while waiting. */
  datatype Tick = Tick(table: seq<Proc>, exitClicked: bool)

  /**
   * Announcing pids over consecutive polls that all find the process is
   * the same as announcing them over the polls' pids taken together: so
   * while the process stays up, no pid is announced twice.
   */
  lemma {:induction false} RememberConcat(known: seq<int>, a: seq<int>, b: seq<int>)
    ensures var (k1, n1) := Remember(known, a);
      var (k2, n2) := Remember(k1, b);
      Remember(known, a + b) == (k2, n1 + n2)
    decreases |b|
  {
    if b == [] {
      assert a + b == a;
      var (k1, n1) := Remember(known, a);
      assert n1 + [] == n1;
    } else {
      var front := b[..|b| - 1];
      RememberConcat(known, a, front);
      assert (a + b)[..|a + b| - 1] == a + front;
      var (k1, n1) := Remember(known, a);
      var (k2, n2) := Remember(k1, front);
      assert n1 + n2 + [b[|b| - 1]] == n1 + (n2 + [b[|b| - 1]]);
    }
  }

  /**
   * While up, two polls together announce what one poll of both pid lists
   * would: each pid not remembered before exactly once, and nothing else.
   */
  lemma {:induction false} UpTwiceNoRepeat(known: seq<int>, a: seq<int>, b: seq<int>)
    ensures var first := Detect(Up, known, Some(a), true);
      var second := Detect(first.status, first.known, Some(b), true);
      var notified := Remember(known, a + b).1;
      && first.effects + second.effects == Notices(true, notified)
      && second.known == known + notified
      && NoDuplicates(notified)
      && forall x :: x in notified <==> x in a + b && x !in known
  {
    var (k1, n1) := Remember(known, a);
    var (k2, n2) := Remember(k1, b);
    var notified := Remember(known, a + b).1;
    assert Remember(known, a + b) == (k2, n1 + n2) by {
      RememberConcat(known, a, b);
    }
    var first := Detect(Up, known, Some(a), true);
    assert first == Detection(Up, k1, Notices(true, n1));
    var second := Detect(first.status, first.known, Some(b), true);
    assert second == Detection(Up, k2, Notices(true, n2));
    assert first.effects + second.effects == Notices(true, notified) by {
      NoticesConcat(n1, n2);
    }
    RememberSpec(known, a + b);
  }

  lemma NoticesConcat(a: seq<int>, b: seq<int>)
    ensures Notices(true, a + b) == Notices(true, a) + Notices(true, b)
  {
  }

  /** The tray icon and the state that its callbacks share. */
  class App {
    const title: string
    const killLabel: string
    const hasNotification: bool
    var visible: bool
    var exitSet: bool
    var effects: seq<Effect>

    /** `main` builds the icon from the chosen process name. */
    constructor (processName: string, hasNotification: bool)
      ensures title == Title(processName) && killLabel == KillLabel(processName)
      ensures this.hasNotification == hasNotification
      ensures !visible && !exitSet && effects == []
    {
      title := Title(processName);
      killLabel := KillLabel(processName);
      this.hasNotification := hasNotification;
      visible := false;
      exitSet := false;
      effects := [];
    }

    /** `set_image` */
    method SetImage(image: Image)
      modifies this
      ensures visible && exitSet == old(exitSet)
      ensures effects == old(effects) + [ShowImage(image)]
    {
      effects := effects + [ShowImage(image)];
      visible := true;
    }

    /** The body of `setup`'s loop, up to the wait. */
    method DetectOnce(process: string, table: seq<Proc>, status: Status, known: seq<int>) returns (status': Status, known': seq<int>)
      modifies this
      ensures var d := Detect(status, known, ScanPids(table, process), hasNotification);
        status' == d.status && known' == d.known && effects == old(effects) + d.effects
      ensures visible == (old(visible) || Detect(status, known, ScanPids(table, process), hasNotification).status != status)
      ensures exitSet == old(exitSet)
    {
      var scan := FindProcs(table, process, true);
      if scan.None? {
        if status != Down {
          SetImage(RedArrowDown);
        }
        return Down, known;
      }
      var pids := Pids(scan.value);
      assert ScanPids(table, process) == Some(pids);
      ghost var before := effects;
      ghost var image: seq<Effect> := if status != Up then [ShowImage(GreenArrowUp)] else [];
      var procs := known;
      if status != Up {
        procs := [];
        SetImage(GreenArrowUp);
      }
      assert effects == before + image;
      status' := Up;
      known' := Announce(pids, procs);
      AppendAssoc(before, image, Notices(hasNotification, Remember(procs, pids).1));
    }

    /** The inner loop of a poll that found the process: remember and announce each new pid. */
    method Announce(pids: seq<int>, known: seq<int>) returns (known': seq<int>)
      modifies this
      ensures known' == Remember(known, pids).0
      ensures effects == old(effects) + Notices(hasNotification, Remember(known, pids).1)
      ensures visible == old(visible) && exitSet == old(exitSet)
    {
      known' := known;
      ghost var notified: seq<int> := [];
      for j := 0 to |pids|
        invariant (known', notified) == Remember(known, pids[..j])
        invariant effects == old(effects) + Notices(hasNotification, notified)
        invariant visible == old(visible) && exitSet == old(exitSet)
      {
        assert pids[..j + 1][..j] == pids[..j];
        var pid := pids[j];
        if pid !in known' {
          known' := known' + [pid];
          notified := notified + [pid];
          if hasNotification {
            effects := effects + [NotifyDetected(pid)];
          }
        }
      }
      assert pids[..|pids|] == pids;
    }

    /**
     * `setup`: poll until Exit is clicked (the wait after a poll is where
     * the click lands).  Nothing happens if the exit event is already set,
     * or if the title does not carry a process name (the match fails and
     * the thread dies).
     */
    method Setup(ticks: seq<Tick>) returns (polls: nat)
      modifies this
      ensures old(exitSet) || TitleName(title).None? ==>
        polls == 0 && effects == old(effects) && visible == old(visible) && exitSet == old(exitSet)
      ensures !old(exitSet) && TitleName(title).Some? ==>
        && polls <= |ticks|
        && NoneClicked(ticks, polls - 1)
        && (polls == |ticks| || (polls > 0 && ticks[polls - 1].exitClicked))
        && exitSet == (polls > 0 && ticks[polls - 1].exitClicked)
        && effects == old(effects) + Run(ticks[..polls], TitleName(title).value, hasNotification).effects
    {
      if exitSet {
        return 0;
      }
      var name := TitleName(title);
      if name.None? {
        return 0;
      }
      polls := PollUntilExit(name.value, ticks);
    }

    /** `setup`'s loop for the name found in the title. */
    method PollUntilExit(process: string, ticks: seq<Tick>) returns (polls: nat)
      requires !exitSet
      modifies this
      ensures polls <= |ticks|
      ensures NoneClicked(ticks, polls - 1)
      ensures polls == |ticks| || (polls > 0 && ticks[polls - 1].exitClicked)
      ensures exitSet == (polls > 0 && ticks[polls - 1].exitClicked)
      ensures effects == old(effects) + Run(ticks[..polls], process, hasNotification).effects
    {
      ghost var start := effects;
      var status := Initial;
      var known: seq<int> := [];
      polls := 0;
      while !exitSet && polls < |ticks|
        invariant polls <= |ticks|
        invariant NoneClicked(ticks, polls - 1)
        invariant exitSet == (polls > 0 && ticks[polls - 1].exitClicked)
        invariant Matches(Run(ticks[..polls], process, hasNotification), status, known, start)
        decreases |ticks| - polls
      {
        NoneClickedStep(ticks, polls);
        status, known := PollAt(process, ticks, polls, status, known, start);
        polls := polls + 1;
      }
    }

    /** The loop's state is the reference run's, after the effects from before the loop. */
    ghost predicate Matches(run: Detection, status: Status, known: seq<int>, start: seq<Effect>)
      reads this
    {
      status == run.status && known == run.known && effects == start + run.effects
    }

    /** A pass of `setup`'s loop, followed against the reference run of the polls so far. */
    method PollAt(process: string, ticks: seq<Tick>, i: nat, status: Status, known: seq<int>, ghost start: seq<Effect>)
      returns (status': Status, known': seq<int>)
      requires !exitSet && i < |ticks|
      requires Matches(Run(ticks[..i], process, hasNotification), status, known, start)
      modifies this
      ensures Matches(Run(ticks[..i + 1], process, hasNotification), status', known', start)
      ensures exitSet == ticks[i].exitClicked
    {
      ghost var run := Run(ticks[..i], process, hasNotification);
      var tick := ticks[i];
      ghost var step := Detect(status, known, ScanPids(tick.table, process), hasNotification);
      RunStep(ticks, i, process, hasNotification);
      status', known' := Poll(process, tick, status, known);
      AppendAssoc(start, run.effects, step.effects + ExitEffects(tick.exitClicked));
    }

    /** One pass of `setup`'s loop, starting with the exit event clear. */
    method Poll(process: string, tick: Tick, status: Status, known: seq<int>) returns (status': Status, known': seq<int>)
      requires !exitSet
      modifies this
      ensures var d := Detect(status, known, ScanPids(tick.table, process), hasNotification);
        && status' == d.status && known' == d.known
        && effects == old(effects) + (d.effects + ExitEffects(tick.exitClicked))
      ensures exitSet == tick.exitClicked
    {
      status', known' := DetectOnce(process, tick.table, status, known);
      if tick.exitClicked {
        ExitMain();
      }
    }

    /** `exit_main`: hide the icon, set the exit event, stop the icon. */
    method ExitMain()
      modifies this
      ensures !visible && exitSet
      ensures effects == old(effects) + [HideIcon, SetExitEvent, StopIcon]
    {
      visible := false;
      effects := effects + [HideIcon];
      exitSet := true;
      effects := effects + [SetExitEvent];
      effects := effects + [StopIcon];
    }

    /**
     * `kill_all` from the menu: the name comes from the menu label; nothing
     * happens when no process matches; otherwise one notification lists
     * every pid killed.
     */
    method KillAll(pt: ProcessTable, respawns: seq<seq<Proc>>)
      modifies this, pt
      ensures visible == old(visible) && exitSet == old(exitSet)
      ensures LabelName(killLabel).None? ==> pt.procs == old(pt.procs) && effects == old(effects)
      ensures LabelName(killLabel).Some? ==>
        var name := LabelName(killLabel).value;
        if forall p :: p in old(pt.procs) ==> !Accepts(p, name, true) then
          pt.procs == old(pt.procs) && effects == old(effects)
        else
          var (table, killed) := KillPasses(old(pt.procs), name, true, respawns);
          pt.procs == table
          && effects == old(effects) + (if hasNotification then [NotifyKilled(name, killed)] else [])
    {
      var name := LabelName(killLabel);
      if name.None? {
        return;
      }
      var killed := Processes.KillAll(pt, name.value, true, respawns);
      if killed.Some? && hasNotification {
        effects := effects + [NotifyKilled(name.value, killed.value)];
      }
    }
  }
}
