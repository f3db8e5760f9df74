/**
  The run bookkeeping as its fields evidently intend it: Running is set when
  a process is started, so that a save during a run only sets Queued; the
  exit handler clears Process before it starts the queued rerun, so that
  the rerun's process stays recorded; and the command's name reaches the
  Output window as an argument of the format string, not as part of it, so
  that no name makes the announcement throw.
 */
module CorrectedScheduler {
  import opened Wrappers
  import opened Scheduler

  /**
    `RunBundler(string)` with Running := true next to storing the new
    process, and with an announcement that cannot throw.  The corrected
    announcement, `WriteLine("Running bundler \"{0}\"", name)`, is not
    modelled as text: its format string holds the single item `{0}` and no
    other brace, so it formats with one argument whatever the name is, and
    the function simply has no failing branch.
   */
  function TriggerFixed(st: Sched, k: string): (r: Sched)
    ensures r.bundlers.Keys == st.bundlers.Keys + {k}
    ensures forall j :: j in st.bundlers && j != k ==> r.bundlers[j] == st.bundlers[j]
    ensures EntryOf(st, k).running ==>
      r.launches == st.launches && r.alive == st.alive && r.bundlers[k] == EntryOf(st, k).(queued := true)
    ensures !EntryOf(st, k).running ==>
      && r.launches == st.launches + [k]
      && r.alive == st.alive + {|st.launches|}
      && r.bundlers[k] == EntryOf(st, k).(running := true, process := Some(|st.launches|))
    ensures WellFormed(st) ==> WellFormed(r)
  {
    var info := EntryOf(st, k);
    if info.running then
      st.(bundlers := st.bundlers[k := info.(queued := true)])
    else
      var h := |st.launches|;
      Sched(st.bundlers[k := info.(running := true, process := Some(h))], st.launches + [k], st.alive + {h})
  }

  /** The `Exited` handler with Process := null moved before the queued rerun. */
  function ExitFixed(st: Sched, h: nat): (r: Sched)
    requires WellFormed(st) && h in st.alive
    ensures WellFormed(r)
    ensures r.bundlers.Keys == st.bundlers.Keys
    ensures forall j :: j in st.bundlers && j != st.launches[h] ==> r.bundlers[j] == st.bundlers[j]
    ensures st.bundlers[st.launches[h]].queued ==>
      && r.launches == st.launches + [st.launches[h]]
      && r.alive == st.alive - {h} + {|st.launches|}
      && r.bundlers[st.launches[h]] == ProcessInfo(true, false, Some(|st.launches|))
    ensures !st.bundlers[st.launches[h]].queued ==>
      r.launches == st.launches && r.alive == st.alive - {h} && r.bundlers[st.launches[h]] == Idle
  {
    var k := st.launches[h];
    var s1 := st.(bundlers := st.bundlers[k := Idle], alive := st.alive - {h});
    if st.bundlers[k].queued then TriggerFixed(s1, k) else s1
  }

  /** The record of command `k` agrees with the processes that run. */
  ghost predicate EntryCoherent(st: Sched, k: string)
    requires k in st.bundlers
  {
    var info := st.bundlers[k];
    && (info.queued ==> info.running)
    && (info.running <==> info.process.Some?)
    && (info.process.Some? ==>
          info.process.value in st.alive
          && info.process.value < |st.launches|
          && st.launches[info.process.value] == k)
  }

  /**
    Every record agrees with the processes that run, and every running
    process is the one recorded for its command.
   */
  ghost predicate Coherent(st: Sched) {
    && WellFormed(st)
    && (forall k :: k in st.bundlers ==> EntryCoherent(st, k))
    && (forall h :: h in st.alive ==>
          h < |st.launches| && st.launches[h] in st.bundlers
          && st.bundlers[st.launches[h]].process == Some(h))
  }

  lemma EmptyIsCoherent()
    ensures Coherent(Empty)
  {
  }

  lemma TriggerFixedKeepsCoherent(st: Sched, k: string)
    requires Coherent(st)
    ensures Coherent(TriggerFixed(st, k))
  {
    var r := TriggerFixed(st, k);
    if !EntryOf(st, k).running {
      // no process of `k` runs, since its record stores none
      forall h | h in st.alive
        ensures st.launches[h] != k
      {
      }
      forall j | j in r.bundlers
        ensures EntryCoherent(r, j)
      {
        if j != k {
          assert r.bundlers[j] == st.bundlers[j];
          assert EntryCoherent(st, j);
        }
      }
    }
  }

  lemma ExitFixedKeepsCoherent(st: Sched, h: nat)
    requires Coherent(st) && h in st.alive
    ensures Coherent(ExitFixed(st, h))
  {
    var k := st.launches[h];
    var s1 := st.(bundlers := st.bundlers[k := Idle], alive := st.alive - {h});
    // `h` was the only process of `k`, so none of `k` runs in s1
    forall g | g in s1.alive
      ensures st.launches[g] != k
    {
    }
    forall j | j in s1.bundlers
      ensures EntryCoherent(s1, j)
    {
      if j != k {
        assert EntryCoherent(st, j);
      }
    }
    assert Coherent(s1);
    if st.bundlers[k].queued {
      TriggerFixedKeepsCoherent(s1, k);
    }
  }

  /** At most one process runs per command. */
  lemma OneProcessPerCommand(st: Sched, h1: nat, h2: nat)
    requires Coherent(st) && h1 in st.alive && h2 in st.alive
    requires st.launches[h1] == st.launches[h2]
    ensures h1 == h2
  {
  }

  /**
    `n` triggers of the same command in a row, the first one innermost (unlike
    `Scheduler.Triggers`), so that an induction peels off the one trigger that
    starts a run and leaves the rest to arrive while it is Running.
   */
  function TriggersFixed(st: Sched, k: string, n: nat): (r: Sched)
    ensures WellFormed(st) ==> WellFormed(r)
    decreases n
  {
    if n == 0 then st else TriggersFixed(TriggerFixed(st, k), k, n - 1)
  }

  /**
    Saves during a run start nothing: however many arrive, they leave the
    single mark Queued on the record.
   */
  lemma {:induction false} SavesDuringRunCoalesce(st: Sched, k: string, n: nat)
    requires Coherent(st) && k in st.bundlers && st.bundlers[k].running
    ensures Coherent(TriggersFixed(st, k, n))
    ensures TriggersFixed(st, k, n).launches == st.launches
    ensures TriggersFixed(st, k, n).alive == st.alive
    ensures TriggersFixed(st, k, n).bundlers[k] == st.bundlers[k].(queued := st.bundlers[k].queued || n > 0)
    decreases n
  {
    if n > 0 {
      TriggerFixedKeepsCoherent(st, k);
      SavesDuringRunCoalesce(TriggerFixed(st, k), k, n - 1);
    }
  }

  /**
    Any save of a command that is not running starts its bundler, whatever
    the command's name, records the new process and marks the command
    running with nothing queued.
   */
  lemma FirstSaveStarts(st: Sched, k: string)
    requires Coherent(st) && !EntryOf(st, k).running
    ensures TriggerFixed(st, k).launches == st.launches + [k]
    ensures TriggerFixed(st, k).alive == st.alive + {|st.launches|}
    ensures TriggerFixed(st, k).bundlers[k] == ProcessInfo(true, false, Some(|st.launches|))
    ensures Coherent(TriggerFixed(st, k))
  {
    if k in st.bundlers {
      assert EntryCoherent(st, k);
    }
    TriggerFixedKeepsCoherent(st, k);
  }

  /**
    `n` saves in a row of a command that is not running: exactly one process
    starts, and a rerun is pending exactly when more than one save came.
   */
  lemma BurstStartsOnce(st: Sched, k: string, n: nat)
    requires Coherent(st) && !EntryOf(st, k).running && n >= 1
    ensures TriggersFixed(st, k, n).launches == st.launches + [k]
    ensures TriggersFixed(st, k, n).alive == st.alive + {|st.launches|}
    ensures k in TriggersFixed(st, k, n).bundlers
    ensures TriggersFixed(st, k, n).bundlers[k] == ProcessInfo(true, n > 1, Some(|st.launches|))
    ensures Coherent(TriggersFixed(st, k, n))
  {
    FirstSaveStarts(st, k);
    SavesDuringRunCoalesce(TriggerFixed(st, k), k, n - 1);
  }

  /**
    Two or more saves in a row of a command that is not running: one run
    starts at once, the saves that arrive during it give exactly one rerun
    when it exits, and after that rerun the command is idle again.  (As
    written, the same saves start a process each: `Scheduler.OverlappingRuns`.)
   */
  lemma BurstOfSaves(st: Sched, k: string, n: nat)
    requires Coherent(st) && !EntryOf(st, k).running && n >= 2
    ensures TriggersFixed(st, k, n).launches == st.launches + [k]
    ensures |st.launches| in TriggersFixed(st, k, n).alive
    ensures ExitFixed(TriggersFixed(st, k, n), |st.launches|).launches == st.launches + [k, k]
    ensures |st.launches| + 1 in ExitFixed(TriggersFixed(st, k, n), |st.launches|).alive
    ensures ExitFixed(ExitFixed(TriggersFixed(st, k, n), |st.launches|), |st.launches| + 1).bundlers[k] == Idle
    ensures ExitFixed(ExitFixed(TriggersFixed(st, k, n), |st.launches|), |st.launches| + 1).launches
         == st.launches + [k, k]
  {
    BurstStartsOnce(st, k, n);
    var s1 := TriggersFixed(st, k, n);
    assert s1.launches[|st.launches|] == k;
    RerunThenIdle(s1, |st.launches|);
    assert s1.launches + [k] == st.launches + [k, k];
  }

  /**
    A process exits with a rerun pending: the rerun is the one process that
    starts, and when it exits in turn the command is idle.
   */
  lemma RerunThenIdle(st: Sched, h: nat)
    requires Coherent(st) && h in st.alive && st.bundlers[st.launches[h]].queued
    ensures ExitFixed(st, h).launches == st.launches + [st.launches[h]]
    ensures |st.launches| in ExitFixed(st, h).alive
    ensures ExitFixed(ExitFixed(st, h), |st.launches|).bundlers[st.launches[h]] == Idle
    ensures ExitFixed(ExitFixed(st, h), |st.launches|).launches == st.launches + [st.launches[h]]
  {
    PendingRerunStarts(st, h);
    LastRunEnds(ExitFixed(st, h), |st.launches|);
  }

  /**
    A process exits while a rerun of its command is pending: the rerun
    starts, it is recorded, and it is the only process of that command.
   */
  lemma PendingRerunStarts(st: Sched, h: nat)
    requires Coherent(st) && h in st.alive && st.bundlers[st.launches[h]].queued
    ensures var r := ExitFixed(st, h);
      && Coherent(r)
      && r.bundlers[st.launches[h]] == ProcessInfo(true, false, Some(|st.launches|))
      && (forall g :: g in r.alive && r.launches[g] == st.launches[h] ==> g == |st.launches|)
  {
    var r := ExitFixed(st, h);
    ExitFixedKeepsCoherent(st, h);
    forall g | g in r.alive && r.launches[g] == st.launches[h]
      ensures g == |st.launches|
    {
      OneProcessPerCommand(r, g, |st.launches|);
    }
  }

  /**
    A process exits with nothing pending: its command is idle again and no
    process of it runs.
   */
  lemma LastRunEnds(st: Sched, h: nat)
    requires Coherent(st) && h in st.alive && !st.bundlers[st.launches[h]].queued
    ensures var r := ExitFixed(st, h);
      && Coherent(r)
      && r.bundlers[st.launches[h]] == Idle
      && (forall g :: g in r.alive ==> r.launches[g] != st.launches[h])
  {
    ExitFixedKeepsCoherent(st, h);
  }
}
