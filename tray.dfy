/**
 * What the two tray indicators (appindicator.py and appindicator2.py) have
 * in common: the effects they have on the tray icon, the process name
 * they recover from the icon title and from the "Kill All" menu label,
 * the list of pids already announced, and the command line that picks the
 * process to watch out of the settings file.
 */
module Tray {
  import opened PyText
  import opened CommandLine

  datatype Image = RedArrowDown | GreenArrowUp

  /** The detection status: 'none' at start, 'up', 'down', and Python's None. */
  datatype Status = Initial | Up | Down | Unset

  /** Effects on the outside world, in the order they happen. */
  datatype Effect =
    | ShowImage(image: Image)               // set_image: new icon, icon made visible
    | NotifyDetected(pid: int)              // "<name> with PID: <pid> detected!"
    | NotifyKilled(name: string, pids: seq<int>)  // "Killed process: <name> with PID(s): [...]"
    | TouchQuitFile                         // open and close the quit file
    | HideIcon                              // icon.visible = False
    | SetExitEvent                          // exit_event.set()
    | StopIcon                              // icon.stop()
    | StopNotifier                          // exit_inotify: notifier.stop()

  const TITLE_PREFIX := "appindicator-"

  /** The icon title (and id) built from the process name. */
  function Title(name: string): string
  {
    TITLE_PREFIX + name
  }

  /** The label of the "Kill All" menu item. */
  function KillLabel(name: string): string
  {
    "Kill All '" + name + "' processes"
  }

  /**
   * `re.match('appindicator-(.*)', title)[1]`; None where Python subscripts
   * a failed match and raises.
   */
  function TitleName(title: string): (r: Option<string>)
    ensures r.Some? <==> StartsWith(title, TITLE_PREFIX)
    ensures r.Some? ==> '\n' !in r.value && StartsWith(title, TITLE_PREFIX + r.value)
  {
    if StartsWith(title, TITLE_PREFIX) then
      var name := UpToNewline(title[|TITLE_PREFIX|..]);
      assert (TITLE_PREFIX + name)[..|TITLE_PREFIX|] == TITLE_PREFIX;
      assert (TITLE_PREFIX + name)[|TITLE_PREFIX|..] == name;
      Some(name)
    else None
  }

  /** The title of an indicator gives back its process name, unless the name holds a newline. */
  lemma TitleNameRoundTrip(name: string)
    ensures TitleName(Title(name)) == Some(UpToNewline(name))
    ensures '\n' !in name ==> TitleName(Title(name)) == Some(name)
  {
    assert Title(name)[..|TITLE_PREFIX|] == TITLE_PREFIX;
    assert Title(name)[|TITLE_PREFIX|..] == name;
    if '\n' !in name {
      UpToNewlineOfLine(name);
    }
  }

  /** The position of the last `c` in `s`. */
  function LastIndexOf(s: string, c: char): (r: Option<nat>)
    ensures r.None? <==> c !in s
    ensures r.Some? ==> r.value < |s| && s[r.value] == c && forall i :: r.value < i < |s| ==> s[i] != c
    decreases |s|
  {
    if s == [] then None
    else if s[|s| - 1] == c then Some(|s| - 1)
    else
      assert forall x :: x in s ==> x in s[..|s| - 1] || x == s[|s| - 1];
      LastIndexOf(s[..|s| - 1], c)
  }

  lemma LastIndexOfAt(s: string, c: char, k: nat)
    requires k < |s| && s[k] == c && forall i :: k < i < |s| ==> s[i] != c
    ensures LastIndexOf(s, c) == Some(k)
  {
    assert s[k] in s;
  }

  /**
   * `re.match(".*'(.*)'", item)[1]`: on the first line of the label, the
   * text between its last two quotes (both `.*` are greedy and stop at a
   * newline); None when the line has fewer than two quotes.
   */
  function LabelName(item: string): (r: Option<string>)
    ensures r.Some? ==> '\'' !in r.value && '\n' !in r.value
  {
    var line := UpToNewline(item);
    match LastIndexOf(line, '\'')
    case None => None
    case Some(j) =>
      match LastIndexOf(line[..j], '\'')
      case None => None
      case Some(i) =>
        assert forall x :: x in line[i + 1..j] ==> x in line;
        assert forall k :: i + 1 <= k < j ==> line[k] == line[..j][k];
        Some(line[i + 1..j])
  }

  /** The menu label gives back the process name, if the name has no quote and no newline. */
  lemma LabelNameRoundTrip(name: string)
    requires '\'' !in name && '\n' !in name
    ensures LabelName(KillLabel(name)) == Some(name)
  {
    var head := "Kill All '";
    var tail := "' processes";
    var item := KillLabel(name);
    assert item == head + name + tail;
    assert '\n' !in head && '\n' !in tail && '\'' !in tail[1..];
    assert '\n' !in item;
    UpToNewlineOfLine(item);
    var j := |head| + |name|;
    assert item[j] == '\'';
    forall i | j < i < |item|
      ensures item[i] != '\''
    {
      assert item[i] == tail[1..][i - j - 1];
    }
    LastIndexOfAt(item, '\'', j);
    var front := item[..j];
    assert front == head + name;
    forall i | |head| - 1 < i < |front|
      ensures front[i] != '\''
    {
      assert front[i] == name[i - |head|];
    }
    LastIndexOfAt(front, '\'', |head| - 1);
    assert item[|head|..j] == name;
  }

  /**
   * A quote inside the name cuts the name short: only the part after its
   * last quote is recovered.
   */
  lemma LabelNameWithQuote(before: string, after: string)
    requires '\'' !in after && '\n' !in before && '\n' !in after
    ensures LabelName(KillLabel(before + "'" + after)) == Some(after)
  {
    var head := "Kill All '" + before + "'";
    var tail := "' processes";
    var item := KillLabel(before + "'" + after);
    assert item == head + after + tail;
    assert '\n' !in "Kill All '" && '\n' !in tail && '\'' !in tail[1..];
    assert '\n' !in head;
    assert '\n' !in item;
    UpToNewlineOfLine(item);
    var j := |head| + |after|;
    forall i | j < i < |item|
      ensures item[i] != '\''
    {
      assert item[i] == tail[1..][i - j - 1];
    }
    LastIndexOfAt(item, '\'', j);
    var front := item[..j];
    assert front == head + after;
    forall i | |head| - 1 < i < |front|
      ensures front[i] != '\''
    {
      assert front[i] == after[i - |head|];
    }
    LastIndexOfAt(front, '\'', |head| - 1);
    assert item[|head|..j] == after;
  }

  // ---------------------------------------------------------------------
  // Remembered pids
  // ---------------------------------------------------------------------

  /**
   * The loop over a scan: each pid not yet in `known` is appended to it and
   * announced.  Returns the new list and the pids announced, in order.
   */
  function Remember(known: seq<int>, pids: seq<int>): (r: (seq<int>, seq<int>))
    decreases |pids|
  {
    if pids == [] then (known, [])
    else
      var (k, n) := Remember(known, pids[..|pids| - 1]);
      var pid := pids[|pids| - 1];
      if pid in k then (k, n) else (k + [pid], n + [pid])
  }

  predicate NoDuplicates(s: seq<int>)
  {
    forall i, j :: 0 <= i < j < |s| ==> s[i] != s[j]
  }

  /**
   * The list grows by exactly the announced pids; those are new, announced
   * once each, and drawn from the scan; afterwards every scanned pid is
   * remembered.
   */
  lemma {:induction false} RememberSpec(known: seq<int>, pids: seq<int>)
    ensures var (k, n) := Remember(known, pids);
      && k == known + n
      && NoDuplicates(n)
      && (forall x :: x in n ==> x !in known && x in pids)
      && (forall x :: x in pids ==> x in k)
      && (forall x :: x in pids && x !in known ==> x in n)
    decreases |pids|
  {
    if pids != [] {
      var front := pids[..|pids| - 1];
      RememberSpec(known, front);
      var (k, n) := Remember(known, front);
      var pid := pids[|pids| - 1];
      assert pids == front + [pid];
      if pid !in k {
        assert (known + n) + [pid] == known + (n + [pid]);
      }
    }
  }

  /** Scanning the same pids again announces nothing and changes nothing. */
  lemma {:induction false} RememberAgain(known: seq<int>, pids: seq<int>)
    requires forall x :: x in pids ==> x in known
    ensures Remember(known, pids) == (known, [])
    decreases |pids|
  {
    if pids != [] {
      var front := pids[..|pids| - 1];
      assert forall x :: x in front ==> x in pids;
      RememberAgain(known, front);
      assert pids[|pids| - 1] in pids;
    }
  }

  /** The notifications for freshly found pids, if the platform supports them. */
  function Notices(hasNotification: bool, pids: seq<int>): (r: seq<Effect>)
    ensures |r| == if hasNotification then |pids| else 0
    ensures hasNotification ==> forall i :: 0 <= i < |pids| ==> r[i] == NotifyDetected(pids[i])
  {
    if !hasNotification || pids == [] then []
    else Notices(hasNotification, pids[..|pids| - 1]) + [NotifyDetected(pids[|pids| - 1])]
  }

  // ---------------------------------------------------------------------
  // Command line: `-i <index>` into the settings file's process list
  // ---------------------------------------------------------------------

  /** What `main` does: exit with a code, or start watching the named process. */
  datatype Launch = Exit(code: int) | Start(name: string)

  const SHORT_OPTS := "hi:"
  const LONG_OPTS := ["help", "in="]

  predicate IsItem(o: Opt)
  {
    o.name == "-i" || o.name == "--in"
  }

  /** An option that ends the option loop: `-h`, or an item that is not an integer. */
  predicate Stops(o: Opt)
  {
    o.name == "-h" || (IsItem(o) && ParseInt(o.arg).None?)
  }

  /** The first option that ends the loop, if any. */
  function FirstStop(opts: seq<Opt>): (r: Option<nat>)
    ensures r.None? <==> forall i :: 0 <= i < |opts| ==> !Stops(opts[i])
    ensures r.Some? ==> r.value < |opts| && Stops(opts[r.value]) && forall i :: 0 <= i < r.value ==> !Stops(opts[i])
    decreases |opts|
  {
    if opts == [] then None
    else
      var n := |opts| - 1;
      match FirstStop(opts[..n])
      case Some(k) => Some(k)
      case None => if Stops(opts[n]) then Some(n) else None
  }

  /** The position of the last `-i`/`--in`, if any. */
  function LastItemAt(opts: seq<Opt>): (r: Option<nat>)
    ensures r.None? <==> forall i :: 0 <= i < |opts| ==> !IsItem(opts[i])
    ensures r.Some? ==>
      (r.value < |opts| && IsItem(opts[r.value]) && forall k :: r.value < k < |opts| ==> !IsItem(opts[k]))
    decreases |opts|
  {
    if opts == [] then None
    else
      var n := |opts| - 1;
      if IsItem(opts[n]) then Some(n)
      else LastItemAt(opts[..n])
  }

  lemma FirstStopAt(opts: seq<Opt>, i: nat)
    requires i < |opts| && FirstStop(opts[..i]).None? && Stops(opts[i])
    ensures FirstStop(opts) == Some(i)
  {
    forall l | 0 <= l < i
      ensures !Stops(opts[l])
    {
      assert opts[l] == opts[..i][l];
    }
  }

  /**
   * `main`'s command-line handling and `Processes[int(input_item_number)]`,
   * given the names of the settings file's processes: a getopt error or no
   * option at all exits 2; the options are then read in order, `-h` exiting
   * 0 and an `-i` that is not an integer exiting 2; the last `-i` selects
   * the entry with Python's list indexing, and a missing `-i` or an index
   * outside `[-n, n)` exits 2.
   */
  method ChooseProcess(argv: seq<string>, names: seq<string>) returns (r: Launch)
    ensures GetOpt(argv, SHORT_OPTS, LONG_OPTS).GetoptError? ==> r == Exit(2)
    ensures var p := GetOpt(argv, SHORT_OPTS, LONG_OPTS); p.Parsed? && p.opts == [] ==> r == Exit(2)
    ensures var p := GetOpt(argv, SHORT_OPTS, LONG_OPTS);
      p.Parsed? && FirstStop(p.opts).Some? ==>
        r == Exit(if p.opts[FirstStop(p.opts).value].name == "-h" then 0 else 2)
    ensures var p := GetOpt(argv, SHORT_OPTS, LONG_OPTS);
      p.Parsed? && p.opts != [] && FirstStop(p.opts).None? && LastItemAt(p.opts).None? ==> r == Exit(2)
    ensures var p := GetOpt(argv, SHORT_OPTS, LONG_OPTS);
      p.Parsed? && p.opts != [] && FirstStop(p.opts).None? && LastItemAt(p.opts).Some? ==>
        var k := ParseInt(p.opts[LastItemAt(p.opts).value].arg);
        k.Some? &&
        r == match PyIndex(|names|, k.value)
             case None => Exit(2)
             case Some(index) => Start(names[index])
  {
    var parsed := GetOpt(argv, SHORT_OPTS, LONG_OPTS);
    if parsed.GetoptError? {
      return Exit(2);
    }
    var opts := parsed.opts;
    if opts == [] {
      return Exit(2);
    }
    var item: Option<string> := None;
    for i := 0 to |opts|
      invariant FirstStop(opts[..i]).None?
      invariant item.None? <==> LastItemAt(opts[..i]).None?
      invariant item.Some? ==> item.value == opts[LastItemAt(opts[..i]).value].arg
    {
      var o := opts[i];
      assert opts[..i + 1][..i] == opts[..i];
      if o.name == "-h" {
        FirstStopAt(opts, i);
        return Exit(0);
      } else if o.name == "-i" || o.name == "--in" {
        item := Some(o.arg);
        if ParseInt(o.arg).None? {
          FirstStopAt(opts, i);
          return Exit(2);
        }
      }
    }
    assert opts[..|opts|] == opts;
    // `int(None)` raises when no item was given
    if item.None? {
      return Exit(2);
    }
    assert !Stops(opts[LastItemAt(opts).value]);
    var k := ParseInt(item.value).value;
    match PyIndex(|names|, k)
    case None => return Exit(2);
    case Some(index) => return Start(names[index]);
  }
}
