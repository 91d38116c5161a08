/**
 * The timer slice as the reducers run it: one object whose fields the
 * reducers update in place, one method per reducer. Each method is proved to
 * produce the slice that the matching function of TimerSpec describes, and
 * to keep the slice invariant.
 */
module HomeReducer {
  import opened TimerTypes
  import opened TimerSpec
  import opened Persistence

  /** A finished tick pass has produced the slice Tick describes. */
  lemma TickPassComplete(s: Slice, now: string, m': map<nat, TimerState>, h': seq<Record>)
    requires Inv(s)
    requires m'.Keys == s.timersState.Keys
    requires forall k :: k in s.timersState ==> m'[k] == TickEntry(s.timersState[k])
    requires h' == s.history + TickRecords(s.timers, s.timersState, now, |s.timers|)
    ensures Slice(s.timers, m', h') == Tick(s, now)
  {
    var r := Tick(s, now);
    assert m' == r.timersState;
  }

  /**
   * Partway through a category-wide pass over the timer list: the entries of
   * the first `i` timers are updated when their category is `c`, the others
   * are as they were.
   */
  ghost predicate AppliedUpTo(s: Slice, op: BulkOp, c: string, cur: map<nat, TimerState>, i: nat) {
    && cur.Keys == s.timersState.Keys
    && forall id :: id in s.timersState ==>
      cur[id] == if 1 <= id <= i && id <= |s.timers| && s.timers[id - 1].category == c
        then BulkEntry(op, s.timers[id - 1], s.timersState[id]) else s.timersState[id]
  }

  /** The next timer of the pass has id i + 1, and its entry is still the one the pass started from. */
  lemma BulkStepReady(s: Slice, op: BulkOp, c: string, cur: map<nat, TimerState>, i: nat)
    requires Inv(s) && i < |s.timers| && AppliedUpTo(s, op, c, cur, i)
    ensures s.timers[i].id == i + 1 && i + 1 in cur && cur[i + 1] == s.timersState[i + 1]
  {
  }

  /** Visiting timer `i` extends the pass by one timer. */
  lemma BulkStepDone(s: Slice, op: BulkOp, c: string, cur: map<nat, TimerState>, next: map<nat, TimerState>, i: nat)
    requires Inv(s) && i < |s.timers| && AppliedUpTo(s, op, c, cur, i)
    requires s.timers[i].id == i + 1 && i + 1 in cur
    requires next == if s.timers[i].category == c
      then cur[i + 1 := BulkEntry(op, s.timers[i], cur[i + 1])] else cur
    ensures AppliedUpTo(s, op, c, next, i + 1)
  {
  }

  /** A finished pass of a category-wide reducer has produced the slice Bulk describes. */
  lemma BulkPassComplete(s: Slice, op: BulkOp, c: string, m': map<nat, TimerState>)
    requires Inv(s) && AppliedUpTo(s, op, c, m', |s.timers|)
    ensures s.(timersState := m') == Bulk(s, op, c)
  {
    var r := Bulk(s, op, c);
    forall id | id in m' ensures m'[id] == r.timersState[id] {
    }
    assert m' == r.timersState;
  }

  /** Partway through a tick pass: the entries of ids below `id` are advanced, the others are as they were. */
  ghost predicate AdvancedBelow(m: map<nat, TimerState>, cur: map<nat, TimerState>, id: nat) {
    cur.Keys == m.Keys && forall k :: k in m ==> cur[k] == if k < id then TickEntry(m[k]) else m[k]
  }

  /** Before the tick visits `id`, its entry is still the one the pass started from. */
  lemma TickStepReady(m: map<nat, TimerState>, cur: map<nat, TimerState>, id: nat)
    requires id in m && AdvancedBelow(m, cur, id)
    ensures id in cur && cur[id] == m[id]
  {
  }

  /** Visiting `id` advances one more entry. */
  lemma TickStepAdvanced(m: map<nat, TimerState>, cur: map<nat, TimerState>, next: map<nat, TimerState>, id: nat)
    requires id in m && AdvancedBelow(m, cur, id)
    requires next == cur[id := TickEntry(m[id])]
    ensures AdvancedBelow(m, next, id + 1)
  {
  }

  /** Visiting `id` appends that entry's completion records, if any, to the ones logged so far. */
  lemma TickStepLogged(timers: seq<Timer>, m: map<nat, TimerState>, now: string,
                       h0: seq<Record>, h: seq<Record>, h': seq<Record>, id: nat)
    requires 1 <= id && id in m
    requires h == h0 + TickRecords(timers, m, now, id - 1)
    requires h' == h + (if CompletesOnTick(m[id]) then CompletionRecordFor(timers, id, now) else [])
    ensures h' == h0 + TickRecords(timers, m, now, id)
  {
    var a := TickRecords(timers, m, now, id - 1);
    var x := if CompletesOnTick(m[id]) then CompletionRecordFor(timers, id, now) else [];
    assert TickRecords(timers, m, now, id) == a + x;
    assert h0 + a + x == h0 + (a + x);
  }

  /** A pass that has advanced every id of the map has advanced every entry. */
  lemma TickStepsAll(m: map<nat, TimerState>, cur: map<nat, TimerState>, n: nat)
    requires forall k :: k in m ==> k <= n
    requires AdvancedBelow(m, cur, n + 1)
    ensures cur.Keys == m.Keys
    ensures forall k :: k in m ==> cur[k] == TickEntry(m[k])
  {
  }

  /** The two field writes and the push of completeTimer produce the slice Complete describes. */
  lemma CompletePassComplete(s: Slice, id: nat, now: string, m': map<nat, TimerState>, h': seq<Record>)
    requires Inv(s) && Find(s.timers, id).Some? && id in s.timersState
    requires m' == s.timersState[id := s.timersState[id].(status := Completed)][id := s.timersState[id].(status := Completed, isRunning := false)]
    requires var t := s.timers[Find(s.timers, id).value];
      h' == s.history + [FormatCompletedData(t.name, t.duration, t.category, now)]
    ensures Slice(s.timers, m', h') == Complete(s, id, now)
  {
    var t := s.timers[Find(s.timers, id).value];
    var st := s.timersState[id].(status := Completed, isRunning := false);
    WriteTwice(s.timersState, id, s.timersState[id].(status := Completed), st);
    assert Complete(s, id, now) == Slice(s.timers, s.timersState[id := st], s.history + [FormatCompletedData(t.name, t.duration, t.category, now)]);
  }

  /** Writing a key twice leaves the second value. */
  lemma WriteTwice(m: map<nat, TimerState>, k: nat, a: TimerState, b: TimerState)
    ensures m[k := a][k := b] == m[k := b]
  {
  }

  class TimerStore {
    var timers: seq<Timer>
    var timersState: map<nat, TimerState>
    var history: seq<Record>
    /** The payload last handed to the storage key; None once the key is removed. */
    var storage: Option<Stored>

    /** The slice held by the fields. */
    function Snapshot(): Slice
      reads this
    {
      Slice(timers, timersState, history)
    }

    ghost predicate Valid()
      reads this
    {
      Inv(Snapshot())
    }

    /** The store starts from the initial state; `stored` is whatever durable storage already holds. */
    constructor (stored: Option<Stored>)
      ensures Valid() && Snapshot() == Initial && storage == stored
    {
      timers := [];
      timersState := map[];
      history := [];
      storage := stored;
    }

    /** `persistTimers(state.timers, state.timersState)`: the write is issued and not awaited. */
    method Persist()
      modifies this`storage
      ensures storage == Some(Save(Snapshot()))
    {
      storage := Some(Stored(timers, timersState));
    }

    method AddTimer(name: string, duration: nat, category: string)
      requires Valid()
      modifies this
      ensures Valid()
      ensures Snapshot() == Add(old(Snapshot()), name, duration, category)
      ensures storage == Some(Save(Snapshot()))
    {
      var newId := |timers| + 1;
      var newTimer := Timer(newId, name, duration, category, false);
      timers := timers + [newTimer];
      timersState := timersState[newId := TimerState(false, newTimer.duration, Paused)];
      Persist();
    }

    method StartTimer(id: nat)
      requires Valid()
      modifies this
      ensures Valid()
      ensures Snapshot() == Start(old(Snapshot()), id)
      ensures storage == if id in old(timersState) then Some(Save(Snapshot())) else old(storage)
    {
      ghost var r := Start(Snapshot(), id);
      if id in timersState {
        ghost var st := timersState[id].(isRunning := true, status := Running);
        assert r.timersState == timersState[id := st];
        timersState := timersState[id := timersState[id].(isRunning := true)];
        timersState := timersState[id := timersState[id].(status := Running)];
        assert timersState == r.timersState;
        Persist();
      }
    }

    method PauseTimer(id: nat)
      requires Valid()
      modifies this
      ensures Valid()
      ensures Snapshot() == Pause(old(Snapshot()), id)
      ensures storage == if id in old(timersState) then Some(Save(Snapshot())) else old(storage)
    {
      ghost var r := Pause(Snapshot(), id);
      if id in timersState {
        ghost var st := timersState[id].(isRunning := false, status := Paused);
        assert r.timersState == timersState[id := st];
        timersState := timersState[id := timersState[id].(isRunning := false)];
        timersState := timersState[id := timersState[id].(status := Paused)];
        assert timersState == r.timersState;
        Persist();
      }
    }

    method ResetTimer(id: nat)
      requires Valid()
      modifies this
      ensures Valid()
      ensures Snapshot() == Reset(old(Snapshot()), id)
      ensures storage == if Find(old(timers), id).Some? then Some(Save(Snapshot())) else old(storage)
    {
      ghost var r := Reset(Snapshot(), id);
      var found := Find(timers, id);
      if found.Some? {
        var timer := timers[found.value];
        timersState := timersState[id := TimerState(false, timer.duration, Paused)];
        assert timersState == r.timersState;
        Persist();
      }
    }

    /**
     * The callback the tick runs for one state entry: `timer` is the entry
     * itself, so the completion test reads the value the decrement wrote.
     */
    method VisitEntry(id: nat, now: string)
      requires id in timersState
      modifies this`timersState, this`history
      ensures timersState == old(timersState)[id := TickEntry(old(timersState)[id])]
      ensures history == old(history) +
        (if CompletesOnTick(old(timersState)[id]) then CompletionRecordFor(timers, id, now) else [])
    {
      var timer := timersState[id];
      if timer.isRunning && timer.timeLeft > 0 {
        timersState := timersState[id := timer.(timeLeft := timer.timeLeft - 1)];
        timer := timersState[id];
      }
      if timer.isRunning && timer.timeLeft == 0 {
        timersState := timersState[id := timer.(status := Completed, isRunning := false)];
        var found := Find(timers, id);
        if found.Some? {
          var completedTimer := timers[found.value];
          var completedData := FormatCompletedData(completedTimer.name, completedTimer.duration, completedTimer.category, now);
          history := history + [completedData];
        }
      }
    }

    /**
     * One pass over the state entries. Object.entries visits integer-like keys
     * in ascending numeric order, and Valid() makes the keys exactly 1..n, so
     * the pass visits ids 1..n in turn. The entry read at the top of an
     * iteration is the one the decrement writes, so the completion test sees
     * the decremented value.
     */
    method TickTimers(now: string)
      requires Valid()
      modifies this
      ensures Valid()
      ensures Snapshot() == Tick(old(Snapshot()), now)
      ensures storage == Some(Save(Snapshot()))
    {
      ghost var s := Snapshot();
      VisitAllEntries(now);
      TickPassComplete(s, now, timersState, history);
      Persist();
    }

    /** The `forEach` over the state entries, visiting ids 1..n. */
    method VisitAllEntries(now: string)
      requires forall k :: k in timersState <==> 1 <= k <= |timers|
      modifies this`timersState, this`history
      ensures timersState.Keys == old(timersState).Keys
      ensures forall k :: k in old(timersState) ==> timersState[k] == TickEntry(old(timersState)[k])
      ensures history == old(history) + TickRecords(timers, old(timersState), now, |timers|)
    {
      ghost var m := timersState;
      var n := |timers|;
      var id := 1;
      while id <= n
        invariant 1 <= id <= n + 1
        invariant AdvancedBelow(m, timersState, id)
        invariant history == old(history) + TickRecords(timers, m, now, id - 1)
      {
        ghost var before := timersState;
        ghost var h := history;
        TickStepReady(m, before, id);
        VisitEntry(id, now);
        TickStepAdvanced(m, before, timersState, id);
        TickStepLogged(timers, m, now, old(history), h, history, id);
        id := id + 1;
      }
      TickStepsAll(m, timersState, n);
    }

    method CompleteTimer(id: nat, now: string)
      requires Valid()
      modifies this
      ensures Valid()
      ensures Snapshot() == Complete(old(Snapshot()), id, now)
      ensures storage == if Find(old(timers), id).Some? then Some(Save(Snapshot())) else old(storage)
    {
      ghost var s := Snapshot();
      var timerIndex := Find(timers, id);
      if timerIndex.Some? {
        FindUnderInv(s, id);
        var completedTimer := timers[timerIndex.value];
        var completedData := FormatCompletedData(completedTimer.name, completedTimer.duration, completedTimer.category, now);
        timersState := timersState[id := timersState[id].(status := Completed)];
        timersState := timersState[id := timersState[id].(isRunning := false)];
        history := history + [completedData];
        CompletePassComplete(s, id, now, timersState, history);
        Persist();
      }
    }

    /** clearTimers: the storage key is removed rather than overwritten. */
    method ClearTimers()
      requires Valid()
      modifies this
      ensures Valid()
      ensures Snapshot() == Clear(old(Snapshot()))
      ensures storage == None
    {
      timers := [];
      timersState := map[];
      storage := None;
    }

    /** The callback a category-wide reducer runs for one timer. */
    method VisitTimer(op: BulkOp, timer: Timer, category: string)
      requires timer.id in timersState
      modifies this`timersState
      ensures timersState == if timer.category == category
        then old(timersState)[timer.id := BulkEntry(op, timer, old(timersState)[timer.id])]
        else old(timersState)
    {
      if timer.category == category {
        timersState := timersState[timer.id := BulkEntry(op, timer, timersState[timer.id])];
      }
    }

    /** The loop shared by the four category-wide reducers: one pass over the timers in list order. */
    method ApplyToCategory(op: BulkOp, category: string)
      requires Valid()
      modifies this
      ensures Valid()
      ensures Snapshot() == Bulk(old(Snapshot()), op, category)
      ensures storage == Some(Save(Snapshot()))
    {
      ghost var s := Snapshot();
      var i := 0;
      while i < |timers|
        invariant 0 <= i <= |timers|
        invariant timers == s.timers && history == s.history
        invariant AppliedUpTo(s, op, category, timersState, i)
      {
        BulkStepReady(s, op, category, timersState, i);
        ghost var before := timersState;
        VisitTimer(op, timers[i], category);
        BulkStepDone(s, op, category, before, timersState, i);
        i := i + 1;
      }
      BulkPassComplete(s, op, category, timersState);
      Persist();
    }

    method StartAllCategoryTimers(category: string)
      requires Valid()
      modifies this
      ensures Valid()
      ensures Snapshot() == Bulk(old(Snapshot()), StartAll, category)
      ensures storage == Some(Save(Snapshot()))
    {
      ApplyToCategory(StartAll, category);
    }

    method PauseAllCategoryTimers(category: string)
      requires Valid()
      modifies this
      ensures Valid()
      ensures Snapshot() == Bulk(old(Snapshot()), PauseAll, category)
      ensures storage == Some(Save(Snapshot()))
    {
      ApplyToCategory(PauseAll, category);
    }

    method ResumeAllCategoryTimers(category: string)
      requires Valid()
      modifies this
      ensures Valid()
      ensures Snapshot() == Bulk(old(Snapshot()), ResumeAll, category)
      ensures storage == Some(Save(Snapshot()))
    {
      ApplyToCategory(ResumeAll, category);
    }

    method ResetAllCategoryTimers(category: string)
      requires Valid()
      modifies this
      ensures Valid()
      ensures Snapshot() == Bulk(old(Snapshot()), ResetAll, category)
      ensures storage == Some(Save(Snapshot()))
    {
      ApplyToCategory(ResetAll, category);
    }
  }
}
