/**
 Watch mode: one child process, restarted when a watched file changes.  Each method is a
 callback of the event loop; what the system answers comes in as an Env.
 */
module WatchLoop {
  import opened Basics
  import opened WatchGraph

  const EXIT_SUCCESS := 0
  const EXIT_FAILURE := 1

  datatype Stat = Stat(size: nat, seconds: int, nanoseconds: int)

  datatype Item = Item(path: Path, stat: Option<Stat>)

  datatype Kill = Sent | NoSuchProcess | Refused

  /** Answers of the system during one callback. */
  datatype Env = Env(imports: Imports, unwatchable: set<Path>, disk: map<Path, Stat>,
                     spawn: bool, kill: Kill, debounce: bool, killTimer: bool)

  datatype Event =
    | FileEvent(id: nat, failed: bool, relevant: bool)
    | DebounceFired
    | KillFired
    | ChildExit(status: int, signal: nat)
    | Signal(number: nat)

  function StatOf(disk: map<Path, Stat>, p: Path): Option<Stat> {
    if p in disk then Some(disk[p]) else None
  }

  ghost predicate Below(ids: set<nat>, next: nat) {
    forall i :: i in ids ==> i < next
  }

  lemma BelowMore(ids: set<nat>, next: nat)
    requires Below(ids, next)
    ensures Below(ids, next + 1)
  {
  }

  class Watch {
    const entry: Path
    const debounceInited: bool
    const killInited: bool
    var watchers: map<nat, Item>
    var nextId: nat
    var child: Option<nat>
    var childRunning: bool
    var restartPending: bool
    var stopRequested: bool
    var debounceRunning: bool
    var killRunning: bool
    var exitCode: int
    var spawned: nat  // children started so far, which numbers them

    // The history the properties speak of.
    ghost var alive: set<nat>  // processes spawned that have not exited
    ghost var asked: set<nat>  // children that were sent SIGTERM, or were gone by then
    ghost var clock: nat  // callbacks so far
    ghost var lastChange: nat  // when a change was last accepted
    ghost var lastSpawn: nat
    ghost var spawnedAtStop: nat
    ghost var codeAtStop: int

    /** What holds even in the middle of a callback. */
    ghost predicate Basic()
      reads this
    {
      && (childRunning <==> child.Some?)
      && alive == (if child.Some? then {child.value} else {})
      && (child.Some? ==> child.value < spawned) && Below(asked, spawned)
      && (killRunning ==> killInited && child.Some? && (child.value in asked || stopRequested))
      && (debounceRunning ==> debounceInited && !stopRequested)
      && (stopRequested ==> watchers == map[] && spawned == spawnedAtStop && exitCode == codeAtStop && !restartPending)
      && lastChange <= clock && lastSpawn <= clock
      && Below(watchers.Keys, nextId)
    }

    /** What holds between callbacks. */
    ghost predicate Valid()
      reads this
    {
      && Basic()
      && (restartPending ==> child.Some? && child.value in asked)
      && (lastChange > lastSpawn ==> debounceRunning || restartPending || stopRequested)
    }

    /** Once stop is requested nothing is spawned and the exit code stands. */
    twostate predicate Stays()
      reads this
    {
      old(stopRequested) ==> stopRequested && spawned == old(spawned) && exitCode == old(exitCode)
    }

    ghost predicate OneChild()
      reads this
    {
      forall c, d :: c in alive && d in alive ==> c == d
    }

    /** watch_refresh_watchers: afterwards exactly the reachable files that can be watched are watched. */
    method RefreshWatchers(env: Env) returns (ok: bool)
      requires Basic()
      modifies this`watchers, this`nextId
      ensures Below(watchers.Keys, nextId)
      ensures ok <==> entry !in env.unwatchable
      ensures ok ==> forall p :: (exists i :: i in watchers && watchers[i].path == p) <==>
                Reached(env.imports, entry, p) && p !in env.unwatchable
      ensures ok ==> forall i :: i in watchers ==> watchers[i].stat == StatOf(env.disk, watchers[i].path)
    {
      var paths := BuildGraph(env.imports, entry);
      hide Reached;
      watchers := map[];
      var i := 0;
      while i < |paths|
        invariant i <= |paths| && (i > 0 ==> entry !in env.unwatchable)
        invariant forall j :: j in watchers ==> j < nextId && watchers[j].stat == StatOf(env.disk, watchers[j].path)
        invariant forall j :: j in watchers ==> watchers[j].path in paths && watchers[j].path !in env.unwatchable
        invariant forall k :: 0 <= k < i && paths[k] !in env.unwatchable ==>
                    exists j :: j in watchers && watchers[j].path == paths[k]
      {
        var p := paths[i];
        if p in env.unwatchable {
          if i == 0 { return false; }
        } else {
          ghost var before := watchers;
          watchers := watchers[nextId := Item(p, StatOf(env.disk, p))];
          assert forall j :: j in before ==> j in watchers && watchers[j] == before[j];
          assert nextId in watchers && watchers[nextId].path == paths[i];
          nextId := nextId + 1;
        }
        i := i + 1;
      }
      return true;
    }

    /** watch_request_shutdown */
    method RequestShutdown(code: int, env: Env)
      requires Basic()
      modifies this`stopRequested, this`restartPending, this`exitCode, this`watchers, this`debounceRunning,
               this`killRunning, this`asked, this`spawnedAtStop, this`codeAtStop
      ensures Basic() && stopRequested && !restartPending
      ensures exitCode == if old(stopRequested) then old(exitCode) else code
      ensures old(stopRequested) ==> watchers == old(watchers) && asked == old(asked)
      ensures !old(stopRequested) && child.Some? && env.kill != Refused ==> child.value in asked
    {
      if stopRequested { return; }
      stopRequested, restartPending, exitCode := true, false, code;
      spawnedAtStop, codeAtStop := spawned, code;
      watchers := map[];
      if debounceInited && debounceRunning { debounceRunning := false; }
      if childRunning && child.Some? { AskToExit(env); }
    }

    /** SIGTERM to the child, and the timer that follows it up with SIGKILL. */
    method AskToExit(env: Env)
      requires child.Some? && child.value < spawned && Below(asked, spawned)
      modifies this`asked, this`killRunning
      ensures Below(asked, spawned)
      ensures asked == if env.kill == Refused then old(asked) else old(asked) + {child.value}
      ensures killRunning == (old(killRunning) || (killInited && env.killTimer))
    {
      if env.kill != Refused { asked := asked + {child.value}; }
      if killInited && !killRunning && env.killTimer { killRunning := true; }
    }

    /** watch_spawn_child */
    method SpawnChild(env: Env) returns (ok: bool)
      requires Basic() && child.None? && !stopRequested
      modifies this`child, this`childRunning, this`restartPending, this`alive, this`spawned, this`lastSpawn
      ensures Basic() && ok == env.spawn
      ensures ok ==> child == Some(old(spawned)) && !restartPending && lastSpawn == clock && spawned == old(spawned) + 1
      ensures !ok ==> child.None? && restartPending == old(restartPending)
      ensures !ok ==> lastSpawn == old(lastSpawn) && spawned == old(spawned)
    {
      hide Below;
      if !env.spawn { return false; }
      BelowMore(asked, spawned);
      alive, lastSpawn := alive + {spawned}, clock;
      child, childRunning, restartPending := Some(spawned), true, false;
      spawned := spawned + 1;
      return true;
    }

    /** watch_try_spawn_child */
    method TrySpawn(env: Env)
      requires Basic() && child.None?
      modifies this
      ensures Valid() && Stays() && clock == old(clock) && lastChange == old(lastChange)
      ensures stopRequested || (lastSpawn == clock && child.Some?)
      ensures child.Some? ==> child.value == old(spawned)
    {
      if stopRequested { return; }
      var ok := RefreshWatchers(env);
      if !ok {
        RequestShutdown(EXIT_FAILURE, env);
        return;
      }
      ok := SpawnChild(env);
      if !ok { RequestShutdown(EXIT_FAILURE, env); }
    }

    /** watch_request_restart_now */
    method RestartNow(env: Env)
      requires Basic()
      modifies this
      ensures Valid() && Stays() && clock == old(clock) && lastChange == old(lastChange)
    {
      hide Below;
      if debounceInited { debounceRunning := false; }
      if stopRequested { return; }
      restartPending := true;
      if childRunning && child.Some? {
        if !killRunning {
          if env.kill == Refused {
            RequestShutdown(EXIT_FAILURE, env);
            return;
          }
          AskToExit(env);
        }
      } else {
        TrySpawn(env);
      }
    }

    /** watch_item_refresh_stat: whether what is on disk differs from what was last seen. */
    method RefreshStat(id: nat, env: Env) returns (changed: bool)
      requires id in watchers
      modifies this`watchers
      ensures changed <==> old(watchers)[id].stat != StatOf(env.disk, old(watchers)[id].path)
      ensures watchers == old(watchers)[id := old(watchers)[id].(stat := StatOf(env.disk, old(watchers)[id].path))]
      ensures watchers.Keys == old(watchers).Keys
    {
      var item := watchers[id];
      if item.path !in env.disk {
        changed := item.stat.Some?;
        watchers := watchers[id := item.(stat := None)];
        return;
      }
      var now := env.disk[item.path];
      changed := item.stat.None? || item.stat.value.size != now.size
                 || item.stat.value.seconds != now.seconds || item.stat.value.nanoseconds != now.nanoseconds;
      watchers := watchers[id := item.(stat := Some(now))];
    }

    /** watch_on_fs_event; an item that is being closed is no longer among the watchers. */
    method OnFileEvent(id: nat, failed: bool, relevant: bool, env: Env)
      requires Valid()
      modifies this
      ensures Valid() && Stays()
      ensures id in old(watchers) && !failed && relevant
              && old(watchers)[id].stat != StatOf(env.disk, old(watchers)[id].path)
              ==> lastChange == clock > old(clock)
    {
      hide Below;
      clock := clock + 1;
      if id !in watchers { return; }
      if failed { return; }
      if !relevant { return; }
      var changed := RefreshStat(id, env);
      if !changed { return; }
      lastChange := clock;
      if restartPending { return; }
      if !debounceInited {
        RestartNow(env);
        return;
      }
      if env.debounce {
        debounceRunning := true;
      } else {
        RestartNow(env);
      }
    }

    /** watch_on_debounce_timer, which the loop calls only while the timer runs. */
    method OnDebounce(env: Env)
      requires Valid() && debounceRunning
      modifies this
      ensures Valid() && Stays()
    {
      clock := clock + 1;
      debounceRunning := false;
      RestartNow(env);
    }

    /** watch_on_kill_timer */
    method OnKillTimer()
      requires Valid() && killRunning
      modifies this`killRunning, this`clock
      ensures Valid() && Stays()
    {
      clock := clock + 1;
      killRunning := false;
    }

    /** watch_on_child_exit */
    method OnChildExit(status: int, signal: nat, env: Env)
      requires Valid() && child.Some?
      modifies this
      ensures Valid() && Stays()
      ensures old(child).value !in alive
      ensures !old(restartPending) ==> child.None?
      ensures !old(stopRequested) && !old(restartPending) ==> exitCode == if signal > 0 then 128 + signal else status
    {
      hide Below;
      clock := clock + 1;
      alive := alive - {child.value};
      childRunning, child := false, None;
      if killInited && killRunning { killRunning := false; }
      if stopRequested {
      } else if restartPending {
        TrySpawn(env);
      } else if signal > 0 {
        exitCode := 128 + signal;
      } else {
        exitCode := status;
      }
    }

    /** watch_on_signal */
    method OnSignal(number: nat, env: Env)
      requires Valid()
      modifies this
      ensures Valid() && Stays() && stopRequested
      ensures !old(stopRequested) ==> exitCode == 128 + number
    {
      clock := clock + 1;
      RequestShutdown(128 + number, env);
    }

    /** ant_watch_run up to its loop; `handles` is whether timers and signals could be set up. */
    constructor (entry: Path, debounceInited: bool, killInited: bool, handles: bool, env: Env)
      ensures Valid() && this.entry == entry && spawned <= 1
      ensures !(debounceInited && killInited && handles) || entry in env.unwatchable ==> stopRequested && spawned == 0
    {
      this.entry, this.debounceInited, this.killInited := entry, debounceInited, killInited;
      watchers, nextId, child, childRunning := map[], 0, None, false;
      restartPending, stopRequested, debounceRunning, killRunning, exitCode := false, false, false, false, EXIT_SUCCESS;
      alive, asked, spawned, clock, lastChange, lastSpawn, spawnedAtStop, codeAtStop := {}, {}, 0, 0, 0, 0, 0, 0;
      new;
      var ok := debounceInited && killInited;
      if ok { ok := RefreshWatchers(env); }
      ok := ok && handles;
      if !ok { RequestShutdown(EXIT_FAILURE, env); }
      if !stopRequested { var started := SpawnChild(env); }
    }

    /** An event the loop may deliver now. */
    predicate Enabled(e: Event)
      reads this
    {
      match e
      case FileEvent(_, _, _) => true
      case DebounceFired => debounceRunning
      case KillFired => killRunning
      case ChildExit(_, _) => child.Some?
      case Signal(_) => !stopRequested
    }

    method Deliver(e: Event, env: Env)
      requires Valid() && Enabled(e)
      modifies this
      ensures Valid() && Stays()
    {
      match e
      case FileEvent(id, failed, relevant) => OnFileEvent(id, failed, relevant, env);
      case DebounceFired => OnDebounce(env);
      case KillFired => OnKillTimer();
      case ChildExit(status, signal) => OnChildExit(status, signal, env);
      case Signal(number) => OnSignal(number, env);
    }

    /** Every order of events, with every answer of the system, keeps the invariant at every point. */
    method Run(events: seq<(Event, Env)>)
      requires Valid()
      modifies this
      ensures Valid() && OneChild()
      ensures Stays()
    {
      var i := 0;
      while i < |events|
        invariant i <= |events| && Valid() && Stays()
      {
        if Enabled(events[i].0) { Deliver(events[i].0, events[i].1); }
        i := i + 1;
      }
    }
  }
}
