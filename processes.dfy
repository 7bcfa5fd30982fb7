/**
 * The process table as both tray indicators see it: `find_procs` scans it
 * for a name, and `kill_all` kills what it finds and rescans until nothing
 * matches any more.
 *
 * The operating system's process list is a sequence of `(pid, name)`
 * records in enumeration order; killing a process removes its record.
 * Processes that appear between two scans (a supervisor restarting the
 * program, say) are an input of `KillAll`, one batch per kill pass.
 */
module Processes {
  import opened PyText

  datatype Proc = Proc(pid: int, name: string)

  /**
   * The names `find_procs` accepts for `process`: the name itself and, in
   * the first indicator (`withExe`), the name with a `.exe` suffix.
   */
  predicate Accepts(p: Proc, process: string, withExe: bool)
  {
    p.name == process || (withExe && p.name == process + ".exe")
  }

  /** The processes of `table` that a scan for `process` keeps, in enumeration order. */
  function Matching(table: seq<Proc>, process: string, withExe: bool): (r: seq<Proc>)
    ensures |r| <= |table|
    ensures forall p :: p in r <==> p in table && Accepts(p, process, withExe)
    decreases |table|
  {
    if table == [] then []
    else
      var last := table[|table| - 1];
      assert table == table[..|table| - 1] + [last];
      Matching(table[..|table| - 1], process, withExe) + (if Accepts(last, process, withExe) then [last] else [])
  }

  /** The positions of the accepted processes, in increasing order. */
  function MatchPositions(table: seq<Proc>, process: string, withExe: bool): (r: seq<nat>)
    ensures forall k :: 0 <= k < |r| ==> r[k] < |table|
    ensures forall k, l :: 0 <= k < l < |r| ==> r[k] < r[l]
    ensures forall i :: i in r <==> 0 <= i < |table| && Accepts(table[i], process, withExe)
    decreases |table|
  {
    if table == [] then []
    else
      var n := |table| - 1;
      var front := MatchPositions(table[..n], process, withExe);
      front + (if Accepts(table[n], process, withExe) then [n] else [])
  }

  /** One more table entry adds itself to both the scan and its positions exactly when it is accepted. */
  lemma MatchingSnoc(table: seq<Proc>, process: string, withExe: bool)
    requires table != []
    ensures var n := |table| - 1; var hit := Accepts(table[n], process, withExe);
      && Matching(table, process, withExe) == Matching(table[..n], process, withExe) + (if hit then [table[n]] else [])
      && MatchPositions(table, process, withExe) == MatchPositions(table[..n], process, withExe) + (if hit then [n] else [])
  {
  }

  /**
   * A scan returns exactly the accepted processes, each once, in the order
   * the table enumerates them.
   */
  lemma {:induction false} MatchingInOrder(table: seq<Proc>, process: string, withExe: bool)
    ensures var pos := MatchPositions(table, process, withExe);
      && |Matching(table, process, withExe)| == |pos|
      && forall k :: 0 <= k < |pos| ==> pos[k] < |table| && Matching(table, process, withExe)[k] == table[pos[k]]
    decreases |table|
  {
    if table != [] {
      var n := |table| - 1;
      MatchingInOrder(table[..n], process, withExe);
      MatchingSnoc(table, process, withExe);
      IndexedSnoc(table, Matching(table[..n], process, withExe), MatchPositions(table[..n], process, withExe),
                  Accepts(table[n], process, withExe));
    }
  }

  /** Entries picked at increasing positions of a table's front stay picked when the last entry may join. */
  lemma IndexedSnoc<T>(table: seq<T>, front: seq<T>, frontPos: seq<nat>, hit: bool)
    requires table != [] && |front| == |frontPos|
    requires forall k :: 0 <= k < |frontPos| ==> frontPos[k] < |table| - 1 && front[k] == table[frontPos[k]]
    ensures var n := |table| - 1;
      var m := front + (if hit then [table[n]] else []);
      var pos := frontPos + (if hit then [n] else []);
      |m| == |pos| && forall k :: 0 <= k < |pos| ==> pos[k] < |table| && m[k] == table[pos[k]]
  {
  }

  /** What `find_procs` returns: None when nothing matches, never an empty list. */
  function Find(table: seq<Proc>, process: string, withExe: bool): (r: Option<seq<Proc>>)
    ensures r.None? <==> forall p :: p in table ==> !Accepts(p, process, withExe)
    ensures r.Some? ==> r.value != [] && r.value == Matching(table, process, withExe)
  {
    var m := Matching(table, process, withExe);
    if m == [] then None
    else
      assert m[0] in m;
      Some(m)
  }

  /** `find_procs(process)`: one pass over the table behind a `found` flag. */
  method FindProcs(table: seq<Proc>, process: string, withExe: bool) returns (r: Option<seq<Proc>>)
    ensures r == Find(table, process, withExe)
    ensures r.Some? ==> forall p :: p in r.value ==> p in table && Accepts(p, process, withExe)
  {
    var found := false;
    var procs: seq<Proc> := [];
    for i := 0 to |table|
      invariant procs == Matching(table[..i], process, withExe)
      invariant found <==> procs != []
    {
      assert table[..i + 1][..i] == table[..i];
      if table[i].name == process {
        found := true;
        procs := procs + [table[i]];
      } else if withExe && table[i].name == process + ".exe" {
        found := true;
        procs := procs + [table[i]];
      }
    }
    assert table[..|table|] == table;
    if found {
      return Some(procs);
    } else {
      return None;
    }
  }

  function Pids(ps: seq<Proc>): (r: seq<int>)
    ensures |r| == |ps| && forall i :: 0 <= i < |ps| ==> r[i] == ps[i].pid
  {
    if ps == [] then [] else [ps[0].pid] + Pids(ps[1..])
  }

  lemma PidsSnoc(ps: seq<Proc>, k: nat)
    requires k < |ps|
    ensures Pids(ps[..k + 1]) == Pids(ps[..k]) + [ps[k].pid]
  {
    var a, b := Pids(ps[..k + 1]), Pids(ps[..k]) + [ps[k].pid];
    assert |a| == |b|;
    forall i | 0 <= i < |a|
      ensures a[i] == b[i]
    {
      assert ps[..k + 1][i] == ps[i];
    }
  }

  /** The table after the process `pid` is killed. */
  function Without(table: seq<Proc>, pid: int): (r: seq<Proc>)
    ensures forall p :: p in r <==> p in table && p.pid != pid
  {
    if table == [] then []
    else (if table[0].pid == pid then [] else [table[0]]) + Without(table[1..], pid)
  }

  /** The table after every process in `pids` is killed. */
  function WithoutAll(table: seq<Proc>, pids: seq<int>): (r: seq<Proc>)
    ensures forall p :: p in r <==> p in table && p.pid !in pids
  {
    if table == [] then []
    else (if table[0].pid in pids then [] else [table[0]]) + WithoutAll(table[1..], pids)
  }

  lemma {:induction false} WithoutAllStep(table: seq<Proc>, pids: seq<int>, pid: int)
    ensures Without(WithoutAll(table, pids), pid) == WithoutAll(table, pids + [pid])
    decreases |table|
  {
    if table != [] {
      WithoutAllStep(table[1..], pids, pid);
      var rest := WithoutAll(table[1..], pids);
      if table[0].pid in pids {
        assert WithoutAll(table, pids) == rest;
      } else {
        assert WithoutAll(table, pids) == [table[0]] + rest;
        assert ([table[0]] + rest)[1..] == rest;
      }
    }
  }

  /** After one pass has killed every match, a rescan of that table finds nothing. */
  lemma PassClearsMatches(table: seq<Proc>, process: string, withExe: bool)
    ensures Matching(WithoutAll(table, Pids(Matching(table, process, withExe))), process, withExe) == []
  {
    var m := Matching(table, process, withExe);
    var after := WithoutAll(table, Pids(m));
    forall p | p in after
      ensures !Accepts(p, process, withExe)
    {
      assert p.pid !in Pids(m);
      forall k | 0 <= k < |m|
        ensures m[k] != p
      {
        assert Pids(m)[k] == m[k].pid;
      }
    }
    NothingMatches(after, process, withExe);
  }

  lemma {:induction false} NothingMatches(table: seq<Proc>, process: string, withExe: bool)
    requires forall p :: p in table ==> !Accepts(p, process, withExe)
    ensures Matching(table, process, withExe) == []
    decreases |table|
  {
    if table != [] {
      var n := |table| - 1;
      assert table[n] in table;
      assert forall p :: p in table[..n] ==> p in table;
      NothingMatches(table[..n], process, withExe);
    }
  }

  /**
   * `kill_all` on `table`: the table it leaves behind and the pids it killed,
   * pass after pass, until a rescan finds nothing.  `respawns[i]` joins the
   * table after pass `i`.  Pids are appended as they are killed, so a pid
   * that comes back is listed again.
   */
  function KillPasses(table: seq<Proc>, process: string, withExe: bool, respawns: seq<seq<Proc>>): (r: (seq<Proc>, seq<int>))
    decreases |respawns|, |Matching(table, process, withExe)|
  {
    var m := Matching(table, process, withExe);
    if m == [] then (table, [])
    else
      var after := WithoutAll(table, Pids(m));
      PassClearsMatches(table, process, withExe);
      var next := if respawns == [] then after else after + respawns[0];
      var rest := KillPasses(next, process, withExe, if respawns == [] then [] else respawns[1..]);
      (rest.0, Pids(m) + rest.1)
  }

  /** A table with no match is left alone and nothing is killed. */
  lemma KillPassesNoMatch(table: seq<Proc>, process: string, withExe: bool, respawns: seq<seq<Proc>>)
    requires forall p :: p in table ==> !Accepts(p, process, withExe)
    ensures KillPasses(table, process, withExe, respawns) == (table, [])
  {
    NothingMatches(table, process, withExe);
  }

  /** The loop ends only when a rescan finds nothing. */
  lemma {:induction false} KillPassesClears(table: seq<Proc>, process: string, withExe: bool, respawns: seq<seq<Proc>>)
    ensures Matching(KillPasses(table, process, withExe, respawns).0, process, withExe) == []
    decreases |respawns|, |Matching(table, process, withExe)|
  {
    var m := Matching(table, process, withExe);
    if m != [] {
      var after := WithoutAll(table, Pids(m));
      PassClearsMatches(table, process, withExe);
      var next := if respawns == [] then after else after + respawns[0];
      KillPassesClears(next, process, withExe, if respawns == [] then [] else respawns[1..]);
    }
  }

  /** Every process matched by the first scan is killed, first and in scan order. */
  lemma KillPassesFirstPass(table: seq<Proc>, process: string, withExe: bool, respawns: seq<seq<Proc>>)
    ensures var killed := KillPasses(table, process, withExe, respawns).1;
      var first := Pids(Matching(table, process, withExe));
      |first| <= |killed| && killed[..|first|] == first
  {
  }

  /** With nothing respawning, one pass is enough. */
  lemma KillPassesNoRespawn(table: seq<Proc>, process: string, withExe: bool)
    ensures var first := Pids(Matching(table, process, withExe));
      KillPasses(table, process, withExe, []) == (WithoutAll(table, first), first)
  {
    var m := Matching(table, process, withExe);
    if m != [] {
      PassClearsMatches(table, process, withExe);
      var after := WithoutAll(table, Pids(m));
      assert KillPasses(after, process, withExe, []) == (after, []);
      assert Pids(m) + [] == Pids(m);
    } else {
      assert WithoutAll(table, []) == table by {
        WithoutNothing(table);
      }
    }
  }

  lemma {:induction false} WithoutNothing(table: seq<Proc>)
    ensures WithoutAll(table, []) == table
  {
    if table != [] {
      WithoutNothing(table[1..]);
      assert [table[0]] + table[1..] == table;
    }
  }

  /** A process of the original table whose pid was never killed is still there. */
  lemma {:induction false} KillPassesSpares(table: seq<Proc>, process: string, withExe: bool, respawns: seq<seq<Proc>>, p: Proc)
    requires p in table && p.pid !in KillPasses(table, process, withExe, respawns).1
    ensures p in KillPasses(table, process, withExe, respawns).0
    decreases |respawns|, |Matching(table, process, withExe)|
  {
    var m := Matching(table, process, withExe);
    if m != [] {
      var after := WithoutAll(table, Pids(m));
      PassClearsMatches(table, process, withExe);
      var next := if respawns == [] then after else after + respawns[0];
      var tail := if respawns == [] then [] else respawns[1..];
      var rest := KillPasses(next, process, withExe, tail);
      assert KillPasses(table, process, withExe, respawns).1 == Pids(m) + rest.1;
      assert p.pid !in Pids(m) && p.pid !in rest.1;
      assert p in after;
      assert p in next;
      KillPassesSpares(next, process, withExe, tail, p);
    }
  }

  /** The live process table; a kill removes the process. */
  class ProcessTable {
    var procs: seq<Proc>

    constructor (procs: seq<Proc>)
      ensures this.procs == procs
    {
      this.procs := procs;
    }

    /** `proc.kill()` */
    method Kill(pid: int)
      modifies this
      ensures procs == Without(old(procs), pid)
    {
      procs := Without(procs, pid);
    }

    /** Processes started by someone else between two scans. */
    method Spawn(more: seq<Proc>)
      modifies this
      ensures procs == old(procs) + more
    {
      procs := procs + more;
    }
  }

  /**
   * One pass of `kill_all`'s inner loop: each scanned process is recorded
   * and killed, in scan order.
   */
  method KillPass(pt: ProcessTable, scanned: seq<Proc>, procs: seq<int>) returns (procs': seq<int>)
    modifies pt
    ensures pt.procs == WithoutAll(old(pt.procs), Pids(scanned))
    ensures procs' == procs + Pids(scanned)
  {
    ghost var before := pt.procs;
    procs' := procs;
    WithoutNothing(before);
    for j := 0 to |scanned|
      invariant pt.procs == WithoutAll(before, Pids(scanned[..j]))
      invariant procs' == procs + Pids(scanned[..j])
    {
      PidsSnoc(scanned, j);
      WithoutAllStep(before, Pids(scanned[..j]), scanned[j].pid);
      procs' := procs' + [scanned[j].pid];
      pt.Kill(scanned[j].pid);
    }
    assert scanned[..|scanned|] == scanned;
  }

  /**
   * `kill_all`'s scan, kill and rescan loop.  None: the first scan found
   * nothing (no kill, no notification).  Some(pids): every pid killed, in
   * kill order, for the single notification that follows.
   */
  method KillAll(pt: ProcessTable, process: string, withExe: bool, respawns: seq<seq<Proc>>) returns (killed: Option<seq<int>>)
    modifies pt
    ensures killed.None? <==> forall p :: p in old(pt.procs) ==> !Accepts(p, process, withExe)
    ensures killed.None? ==> pt.procs == old(pt.procs)
    ensures killed.Some? ==> (pt.procs, killed.value) == KillPasses(old(pt.procs), process, withExe, respawns)
  {
    var scan := FindProcs(pt.procs, process, withExe);
    if scan.None? {
      return None;
    }
    ghost var start := pt.procs;
    var procs: seq<int> := [];
    var pending := respawns;
    assert procs + KillPasses(start, process, withExe, respawns).1 == KillPasses(start, process, withExe, respawns).1;
    while scan.Some?
      invariant scan == Find(pt.procs, process, withExe)
      invariant var kp := KillPasses(pt.procs, process, withExe, pending);
        KillPasses(start, process, withExe, respawns) == (kp.0, procs + kp.1)
      decreases |pending|, |Matching(pt.procs, process, withExe)|
    {
      ghost var before := pt.procs;
      ghost var beforeProcs := procs;
      ghost var beforePending := pending;
      procs := KillPass(pt, scan.value, procs);
      PassClearsMatches(before, process, withExe);
      if pending != [] {
        pt.Spawn(pending[0]);
        pending := pending[1..];
      }
      ghost var rest := KillPasses(pt.procs, process, withExe, pending);
      KillPassesUnfold(before, process, withExe, beforePending);
      AppendAssoc(beforeProcs, Pids(scan.value), rest.1);
      scan := FindProcs(pt.procs, process, withExe);
    }
    assert KillPasses(pt.procs, process, withExe, pending) == (pt.procs, []);
    assert procs + [] == procs;
    return Some(procs);
  }

  // ---------------------------------------------------------------------
  // The second indicator's `kill_all`, whose scans may raise
  // ---------------------------------------------------------------------

  /**
   * What happens between pass `i` and the rescan after it: the processes
   * that join the table, and whether the rescan's `process_iter` raises,
   * which `find_procs` turns into None.
   */
  datatype Rescan = Rescan(joined: seq<Proc>, raises: bool)

  /**
   * `kill_all` when a rescan may fail: as `KillPasses`, but a rescan that
   * raises ends the loop as a rescan that finds nothing would, whatever is
   * still running.  Past the end of `rescans` nothing joins and no scan
   * raises.
   */
  function KillPassesUntil(table: seq<Proc>, process: string, withExe: bool, rescans: seq<Rescan>): (r: (seq<Proc>, seq<int>))
    decreases |rescans|, |Matching(table, process, withExe)|
  {
    var m := Matching(table, process, withExe);
    if m == [] then (table, [])
    else
      var after := WithoutAll(table, Pids(m));
      PassClearsMatches(table, process, withExe);
      if rescans == [] then
        var rest := KillPassesUntil(after, process, withExe, []);
        (rest.0, Pids(m) + rest.1)
      else if rescans[0].raises then (after + rescans[0].joined, Pids(m))
      else
        var rest := KillPassesUntil(after + rescans[0].joined, process, withExe, rescans[1..]);
        (rest.0, Pids(m) + rest.1)
  }

  /** Rescans that never raise, with the given processes joining. */
  function Succeeding(respawns: seq<seq<Proc>>): (r: seq<Rescan>)
    ensures |r| == |respawns| && forall i :: 0 <= i < |r| ==> r[i] == Rescan(respawns[i], false)
  {
    seq(|respawns|, i requires 0 <= i < |respawns| => Rescan(respawns[i], false))
  }

  /** When no rescan raises, the loop is the first indicator's `KillPasses`. */
  lemma {:induction false} KillPassesUntilSucceeding(table: seq<Proc>, process: string, withExe: bool, respawns: seq<seq<Proc>>)
    ensures KillPassesUntil(table, process, withExe, Succeeding(respawns)) == KillPasses(table, process, withExe, respawns)
    decreases |respawns|, |Matching(table, process, withExe)|
  {
    var m := Matching(table, process, withExe);
    if m != [] {
      var after := WithoutAll(table, Pids(m));
      PassClearsMatches(table, process, withExe);
      if respawns == [] {
        KillPassesUntilSucceeding(after, process, withExe, []);
      } else {
        assert Succeeding(respawns)[1..] == Succeeding(respawns[1..]);
        KillPassesUntilSucceeding(after + respawns[0], process, withExe, respawns[1..]);
      }
    }
  }

  /**
   * A rescan that raises right after the first pass ends the loop: only the
   * first scan's pids are killed and reported, and the processes that
   * joined meanwhile keep running.
   */
  lemma KillPassesUntilRaises(table: seq<Proc>, process: string, withExe: bool, joined: seq<Proc>, rest: seq<Rescan>)
    requires Matching(table, process, withExe) != []
    ensures var first := Pids(Matching(table, process, withExe));
      KillPassesUntil(table, process, withExe, [Rescan(joined, true)] + rest) == (WithoutAll(table, first) + joined, first)
  {
    var rescans := [Rescan(joined, true)] + rest;
    assert rescans != [] && rescans[0] == Rescan(joined, true);
  }

  /** Every pid killed is reported, the first scan's first and in scan order. */
  lemma {:induction false} KillPassesUntilFirstPass(table: seq<Proc>, process: string, withExe: bool, rescans: seq<Rescan>)
    ensures var killed := KillPassesUntil(table, process, withExe, rescans).1;
      var first := Pids(Matching(table, process, withExe));
      |first| <= |killed| && killed[..|first|] == first
  {
    var m := Matching(table, process, withExe);
    if m != [] {
      var tail := UntilTail(table, process, withExe, rescans);
      assert KillPassesUntil(table, process, withExe, rescans).1 == Pids(m) + tail;
      assert (Pids(m) + tail)[..|Pids(m)|] == Pids(m);
    }
  }

  /** What `KillPassesUntil` kills after its first pass. */
  function UntilTail(table: seq<Proc>, process: string, withExe: bool, rescans: seq<Rescan>): (r: seq<int>)
    requires Matching(table, process, withExe) != []
    ensures KillPassesUntil(table, process, withExe, rescans).1 == Pids(Matching(table, process, withExe)) + r
  {
    var m := Matching(table, process, withExe);
    var after := WithoutAll(table, Pids(m));
    PassClearsMatches(table, process, withExe);
    if rescans == [] then KillPassesUntil(after, process, withExe, []).1
    else if rescans[0].raises then []
    else KillPassesUntil(after + rescans[0].joined, process, withExe, rescans[1..]).1
  }

  /**
   * The second indicator's `kill_all` loop.  None: the first scan found
   * nothing or raised (no kill, no notification).  Some(pids): every pid
   * killed, in kill order, until a rescan found nothing or raised.
   */
  method KillAllUntil(pt: ProcessTable, process: string, withExe: bool, firstRaises: bool, rescans: seq<Rescan>)
    returns (killed: Option<seq<int>>)
    modifies pt
    ensures killed.None? <==> firstRaises || forall p :: p in old(pt.procs) ==> !Accepts(p, process, withExe)
    ensures killed.None? ==> pt.procs == old(pt.procs)
    ensures killed.Some? ==> (pt.procs, killed.value) == KillPassesUntil(old(pt.procs), process, withExe, rescans)
  {
    var scan: Option<seq<Proc>> := None;
    if !firstRaises {
      scan := FindProcs(pt.procs, process, withExe);
    }
    if scan.None? {
      return None;
    }
    ghost var start := pt.procs;
    var procs: seq<int> := [];
    var pending := rescans;
    assert procs + KillPassesUntil(start, process, withExe, rescans).1 == KillPassesUntil(start, process, withExe, rescans).1;
    while scan.Some?
      invariant scan.Some? ==> scan == Find(pt.procs, process, withExe) && Until(start, pt.procs, procs, process, withExe, rescans, pending)
      invariant scan.None? ==> KillPassesUntil(start, process, withExe, rescans) == (pt.procs, procs)
      decreases |pending|, |Matching(pt.procs, process, withExe)|
    {
      scan, procs, pending := KillRescan(pt, process, withExe, scan.value, procs, pending, start, rescans);
    }
    return Some(procs);
  }

  /** The loop state of `KillAllUntil`: the run from here ends as the run from the start. */
  ghost predicate Until(start: seq<Proc>, table: seq<Proc>, procs: seq<int>, process: string, withExe: bool,
                        rescans: seq<Rescan>, pending: seq<Rescan>)
  {
    var kp := KillPassesUntil(table, process, withExe, pending);
    KillPassesUntil(start, process, withExe, rescans) == (kp.0, procs + kp.1)
  }

  /** One pass of `KillAllUntil`'s loop: kill what was scanned, let processes join, rescan. */
  method KillRescan(pt: ProcessTable, process: string, withExe: bool, scanned: seq<Proc>, procs: seq<int>,
                    pending: seq<Rescan>, ghost start: seq<Proc>, ghost rescans: seq<Rescan>)
    returns (scan: Option<seq<Proc>>, procs': seq<int>, pending': seq<Rescan>)
    modifies pt
    requires Some(scanned) == Find(pt.procs, process, withExe)
    requires Until(start, pt.procs, procs, process, withExe, rescans, pending)
    ensures scan.Some? ==> scan == Find(pt.procs, process, withExe) && Until(start, pt.procs, procs', process, withExe, rescans, pending')
    ensures scan.None? ==> KillPassesUntil(start, process, withExe, rescans) == (pt.procs, procs')
    ensures |pending'| < |pending| || (pending' == pending && |Matching(pt.procs, process, withExe)| < |Matching(old(pt.procs), process, withExe)|)
  {
    ghost var before := pt.procs;
    procs' := KillPass(pt, scanned, procs);
    UntilStep(start, before, procs, process, withExe, rescans, pending);
    if pending == [] {
      pending' := [];
      PassClearsMatches(before, process, withExe);
      scan := FindProcs(pt.procs, process, withExe);
      UntilEnds(start, pt.procs, procs', process, withExe, rescans, pending');
      return;
    }
    pt.Spawn(pending[0].joined);
    pending' := pending[1..];
    if pending[0].raises {
      return None, procs', pending';
    }
    scan := FindProcs(pt.procs, process, withExe);
    UntilEnds(start, pt.procs, procs', process, withExe, rescans, pending');
  }

  /** A resumed run whose table has no match ends there. */
  lemma UntilEnds(start: seq<Proc>, table: seq<Proc>, procs: seq<int>, process: string, withExe: bool,
                  rescans: seq<Rescan>, pending: seq<Rescan>)
    requires Until(start, table, procs, process, withExe, rescans, pending)
    ensures Matching(table, process, withExe) == [] ==> KillPassesUntil(start, process, withExe, rescans) == (table, procs)
  {
    if Matching(table, process, withExe) == [] {
      assert KillPassesUntil(table, process, withExe, pending) == (table, []);
      assert procs + [] == procs;
    }
  }

  /** The run resumed after one more pass. */
  lemma UntilStep(start: seq<Proc>, table: seq<Proc>, procs: seq<int>, process: string, withExe: bool,
                  rescans: seq<Rescan>, pending: seq<Rescan>)
    requires Matching(table, process, withExe) != []
    requires Until(start, table, procs, process, withExe, rescans, pending)
    ensures var m := Pids(Matching(table, process, withExe));
      var after := WithoutAll(table, m);
      && (pending == [] ==> Until(start, after, procs + m, process, withExe, rescans, []))
      && (pending != [] && pending[0].raises ==>
            KillPassesUntil(start, process, withExe, rescans) == (after + pending[0].joined, procs + m))
      && (pending != [] && !pending[0].raises ==>
            Until(start, after + pending[0].joined, procs + m, process, withExe, rescans, pending[1..]))
  {
    var m := Pids(Matching(table, process, withExe));
    var after := WithoutAll(table, m);
    var tail := UntilTail(table, process, withExe, pending);
    AppendAssoc(procs, m, tail);
    if pending == [] {
      assert tail == KillPassesUntil(after, process, withExe, []).1;
    } else if !pending[0].raises {
      assert tail == KillPassesUntil(after + pending[0].joined, process, withExe, pending[1..]).1;
    }
  }

  lemma AppendAssoc<T>(a: seq<T>, b: seq<T>, c: seq<T>)
    ensures a + (b + c) == (a + b) + c
  {
  }

  lemma KillPassesUnfold(table: seq<Proc>, process: string, withExe: bool, respawns: seq<seq<Proc>>)
    requires Matching(table, process, withExe) != []
    ensures var m := Matching(table, process, withExe);
      var after := WithoutAll(table, Pids(m));
      var next := if respawns == [] then after else after + respawns[0];
      var rest := KillPasses(next, process, withExe, if respawns == [] then [] else respawns[1..]);
      KillPasses(table, process, withExe, respawns) == (rest.0, Pids(m) + rest.1)
  {
  }
}
