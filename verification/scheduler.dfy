/**
  The per-command run bookkeeping of `RunBundler(string)` and the `Exited`
  handler of the processes it starts, as the package writes them, together
  with the Output-window line `RunBundler(string)` writes before it touches
  the dictionary.

  The package keeps a dictionary from a command's full name to a record of
  three fields, Running, Queued and Process.  A started process is named
  here by its index in the log of every process the package has started
  (`launches`, holding the command each one runs); `alive` holds the
  indices of the started processes that have not exited yet.
 */
module Scheduler {
  import opened Wrappers
  import opened Strings
  import opened CommandSelection

  /** `BundlerProcessInfo`; `process` is the index of the stored process, None for null. */
  datatype ProcessInfo = ProcessInfo(running: bool, queued: bool, process: Option<nat>)

  /** A freshly constructed `BundlerProcessInfo`: all fields at their defaults. */
  const Idle: ProcessInfo := ProcessInfo(false, false, None)

  /** The dictionary together with the processes the package has started. */
  datatype Sched = Sched(bundlers: map<string, ProcessInfo>, launches: seq<string>, alive: set<nat>)

  const Empty: Sched := Sched(map[], [], {})

  /**
    Every started process belongs to a command that has an entry, every
    live process and every stored process is one that was started.
   */
  ghost predicate WellFormed(st: Sched) {
    && (forall h :: 0 <= h < |st.launches| ==> st.launches[h] in st.bundlers)
    && (forall h :: h in st.alive ==> h < |st.launches|)
    && (forall k :: k in st.bundlers && st.bundlers[k].process.Some? ==> st.bundlers[k].process.value < |st.launches|)
  }

  /** The entry for `k` after the add-if-absent step. */
  function EntryOf(st: Sched, k: string): ProcessInfo {
    if k in st.bundlers then st.bundlers[k] else Idle
  }

  /**
    The line `RunBundler(string)` hands to the Output window's WriteLine,
    which appends a new line and uses the whole text as the format string
    of String.Format.
   */
  function RunningLine(k: string): string {
    "Running bundler \"" + k + "\"" + "\r\n"
  }

  /** The first WriteLine of `RunBundler(string)` for command `k` returns instead of throwing FormatException. */
  predicate Announces(k: string) {
    FormatsWithoutArguments(RunningLine(k))
  }

  /** The announcement throws exactly when the command's name has a brace that is not doubled. */
  lemma AnnouncesIff(k: string)
    ensures Announces(k) <==> FormatsWithoutArguments(k)
  {
    var head, tail := "Running bundler \"", "\"" + "\r\n";
    assert RunningLine(k) == head + (k + tail);
    assert BraceFree(head) && BraceFree(tail);
    FormatsAfterPlainText(head, k + tail);
    FormatsBeforePlainText(k, tail);
  }

  /**
    A name with a single '{' after brace-free text, such as a path through
    a directory named "{app}", reads as a format item and throws.
   */
  lemma OpenBraceThrows(a: string, b: string)
    requires BraceFree(a)
    requires b == [] || b[0] != '{'
    ensures !Announces(a + "{" + b)
  {
    AnnouncesIff(a + "{" + b);
    assert a + "{" + b == a + ("{" + b);
    FormatsAfterPlainText(a, "{" + b);
    assert ("{" + b)[0] == '{';
    if b != [] {
      assert ("{" + b)[1] == b[0];
    }
  }

  /**
    `RunBundler(bundleCommandFullName)`: when the announcement throws, nothing
    else happens (the exception leaves the method before the dictionary is
    touched).  Otherwise add an entry when there is none; when the entry says
    Running, set Queued and start nothing; otherwise store a new process in
    the entry and start it.  Running is left as it was: the source never sets
    it.
   */
  function Trigger(st: Sched, k: string): (r: Sched)
    ensures !Announces(k) ==> r == st
    ensures Announces(k) ==> r.bundlers.Keys == st.bundlers.Keys + {k}
    ensures forall j :: j in st.bundlers && j != k ==> r.bundlers[j] == st.bundlers[j]
    ensures Announces(k) && EntryOf(st, k).running ==>
      r.launches == st.launches && r.alive == st.alive && r.bundlers[k] == EntryOf(st, k).(queued := true)
    ensures Announces(k) && !EntryOf(st, k).running ==>
      && r.launches == st.launches + [k]
      && r.alive == st.alive + {|st.launches|}
      && r.bundlers[k] == EntryOf(st, k).(process := Some(|st.launches|))
    ensures WellFormed(st) ==> WellFormed(r)
  {
    if !Announces(k) then st
    else
      var info := EntryOf(st, k);
      if info.running then
        st.(bundlers := st.bundlers[k := info.(queued := true)])
      else
        var h := |st.launches|;
        Sched(st.bundlers[k := info.(process := Some(h))], st.launches + [k], st.alive + {h})
  }

  /**
    The `Exited` handler of process `h`: Running := false; when Queued,
    Queued := false and `RunBundler` again for the same command; and only
    then Process := null.  When that rerun throws, the exception leaves the
    handler and Process := null is skipped.
   */
  function Exit(st: Sched, h: nat): (r: Sched)
    requires WellFormed(st) && h in st.alive
    ensures WellFormed(r)
    ensures r.bundlers.Keys == st.bundlers.Keys
    ensures forall j :: j in st.bundlers && j != st.launches[h] ==> r.bundlers[j] == st.bundlers[j]
    ensures var k := st.launches[h]; var info := st.bundlers[k];
      r.bundlers[k] == info.(running := false, queued := false,
                             process := if info.queued && !Announces(k) then info.process else None)
    ensures var k := st.launches[h];
      st.bundlers[k].queued && Announces(k) ==>
        r.launches == st.launches + [k] && r.alive == st.alive - {h} + {|st.launches|}
    ensures var k := st.launches[h];
      !(st.bundlers[k].queued && Announces(k)) ==> r.launches == st.launches && r.alive == st.alive - {h}
  {
    var k := st.launches[h];
    var s1 := st.(bundlers := st.bundlers[k := st.bundlers[k].(running := false)], alive := st.alive - {h});
    if s1.bundlers[k].queued then
      var s2 := Trigger(s1.(bundlers := s1.bundlers[k := s1.bundlers[k].(queued := false)]), k);
      if Announces(k) then s2.(bundlers := s2.bundlers[k := s2.bundlers[k].(process := None)])
      else s2
    else s1.(bundlers := s1.bundlers[k := s1.bundlers[k].(process := None)])
  }

  /** No entry is running or queued: the state the package, as written, never leaves. */
  ghost predicate NeverRunning(st: Sched) {
    forall k :: k in st.bundlers ==> !st.bundlers[k].running && !st.bundlers[k].queued
  }

  lemma TriggerKeepsNeverRunning(st: Sched, k: string)
    requires NeverRunning(st)
    ensures NeverRunning(Trigger(st, k))
    ensures Trigger(st, k).launches == st.launches + (if Announces(k) then [k] else [])
    ensures Trigger(st, k).alive == st.alive + (if Announces(k) then {|st.launches|} else {})
  {
  }

  lemma ExitKeepsNeverRunning(st: Sched, h: nat)
    requires WellFormed(st) && NeverRunning(st) && h in st.alive
    ensures NeverRunning(Exit(st, h))
    ensures Exit(st, h).launches == st.launches
  {
  }

  /**
    `n` triggers of the same command in a row, the last one outermost, so that
    an induction adds the newest launch on top of the earlier ones.
   */
  function Triggers(st: Sched, k: string, n: nat): (r: Sched)
    ensures WellFormed(st) ==> WellFormed(r)
  {
    if n == 0 then st else Trigger(Triggers(st, k, n - 1), k)
  }

  /** The `n` handles from `lo` on. */
  function HandleRange(lo: nat, n: nat): (r: set<nat>)
    ensures forall h :: h in r <==> lo <= h < lo + n
  {
    if n == 0 then {} else HandleRange(lo, n - 1) + {lo + n - 1}
  }

  /**
    As written, every trigger starts a process even while the previous ones
    for the same command still run: `n` saves in a row leave `n` processes
    of that command running side by side.
   */
  lemma {:induction false} OverlappingRuns(st: Sched, k: string, n: nat)
    requires NeverRunning(st) && Announces(k)
    ensures NeverRunning(Triggers(st, k, n))
    ensures Triggers(st, k, n).launches == st.launches + seq(n, _ => k)
    ensures Triggers(st, k, n).alive == st.alive + HandleRange(|st.launches|, n)
  {
    if n > 0 {
      OverlappingRuns(st, k, n - 1);
      TriggerKeepsNeverRunning(Triggers(st, k, n - 1), k);
      assert seq(n, _ => k) == seq(n - 1, _ => k) + [k];
    }
  }

  /** A command whose announcement throws never runs, however often its files are saved. */
  lemma {:induction false} UnannouncedNeverRuns(st: Sched, k: string, n: nat)
    requires !Announces(k)
    ensures Triggers(st, k, n) == st
  {
    if n > 0 {
      UnannouncedNeverRuns(st, k, n - 1);
    }
  }

  /**
    Two saves, then the first process exits: the entry's Process is null
    although the second process of the same command is still running.
   */
  lemma ProcessClearedWhileRunning(k: string)
    requires Announces(k)
    ensures WellFormed(Trigger(Trigger(Empty, k), k))
    ensures 0 in Trigger(Trigger(Empty, k), k).alive
    ensures
      var s := Exit(Trigger(Trigger(Empty, k), k), 0);
      s.bundlers[k].process.None? && 1 in s.alive && s.launches[1] == k
  {
    var s1 := Trigger(Empty, k);
    var s2 := Trigger(s1, k);
    assert s2.launches == [k, k];
  }

  /**
    The package object: the `bundlers` dictionary, plus the processes it has
    started and which of them still run.
   */
  class BundlerScheduler {
    var bundlers: map<string, ProcessInfo>
    var launches: seq<string>
    var alive: set<nat>

    function State(): Sched
      reads this
    {
      Sched(bundlers, launches, alive)
    }

    ghost predicate Valid()
      reads this
    {
      WellFormed(State())
    }

    constructor()
      ensures Valid() && State() == Empty
    {
      bundlers := map[];
      launches := [];
      alive := {};
    }

    /** `RunBundler(string)`; `started` is the process it starts, if any. */
    method RunBundler(command: string) returns (started: Option<nat>)
      requires Valid()
      modifies this
      ensures Valid() && State() == Trigger(old(State()), command)
      ensures started.Some? <==> Announces(command) && !EntryOf(old(State()), command).running
      ensures started.Some? ==> started.value == |old(launches)| && launches[started.value] == command
    {
      if !Announces(command) {
        // WriteLine throws FormatException: the method ends here
        started := None;
        return;
      }
      if command !in bundlers {
        bundlers := bundlers[command := Idle];
      }
      var info := bundlers[command];
      if info.running {
        bundlers := bundlers[command := info.(queued := true)];
        started := None;
        return;
      }
      var h := |launches|;
      bundlers := bundlers[command := info.(process := Some(h))];
      launches := launches + [command];
      alive := alive + {h};
      started := Some(h);
    }

    /** The `Exited` handler of the started process `handle`. */
    method OnExited(handle: nat)
      requires Valid() && handle in alive
      modifies this
      ensures Valid() && State() == Exit(old(State()), handle)
    {
      var command := launches[handle];
      alive := alive - {handle};
      bundlers := bundlers[command := bundlers[command].(running := false)];
      if bundlers[command].queued {
        bundlers := bundlers[command := bundlers[command].(queued := false)];
        var rerun := RunBundler(command);
        if !Announces(command) {
          // the rerun's exception leaves the handler before Process := null
          return;
        }
      }
      bundlers := bundlers[command := bundlers[command].(process := None)];
    }

    /** `RunBundler(ProjectItem)`: choose the command for the item and run it, if there is one. */
    method RunBundlerForItem(item: Option<ProjectItem>) returns (started: Option<nat>)
      requires Valid()
      modifies this
      ensures Valid()
      ensures SelectCommand(item).None? ==> State() == old(State()) && started.None?
      ensures SelectCommand(item).Some? ==> State() == Trigger(old(State()), SelectCommand(item).value)
      ensures SelectCommand(item).Some? ==>
        (started.Some? <==> Announces(SelectCommand(item).value) && !EntryOf(old(State()), SelectCommand(item).value).running)
    {
      var command := SelectCommand(item);
      started := None;
      if command.Some? {
        started := RunBundler(command.value);
      }
    }
  }
}
