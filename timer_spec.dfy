/**
 * The reducers of the timer slice as functions from the old slice to the new
 * one, with the invariant every reducer keeps. The class in module
 * HomeReducer performs the same updates in place and is proved equal to
 * these functions.
 */
module TimerSpec {
  import opened TimerTypes

  /** `isRunning` holds exactly when the status is Running. */
  predicate Consistent(st: TimerState) {
    st.isRunning == (st.status == Running)
  }

  /** A state fits its timer: its time left is within [0, duration] and it is consistent. */
  predicate Fits(st: TimerState, t: Timer) {
    0 <= st.timeLeft <= t.duration && Consistent(st)
  }

  /**
   * The slice invariant: timer i (0-based) has id i + 1 and is not marked
   * completed, the state map has exactly the ids 1..n, and every state fits
   * the timer with its id.
   */
  ghost predicate Inv(s: Slice) {
    && (forall i :: 0 <= i < |s.timers| ==> s.timers[i].id == i + 1 && !s.timers[i].isCompleted)
    && (forall id :: id in s.timersState <==> 1 <= id <= |s.timers|)
    && (forall id :: id in s.timersState ==> Fits(s.timersState[id], s.timers[id - 1]))
  }

  /** Under the invariant, the timer with id `id` sits at index id - 1. */
  lemma FindUnderInv(s: Slice, id: nat)
    requires Inv(s)
    ensures 1 <= id <= |s.timers| ==> Find(s.timers, id) == Some(id - 1)
    ensures !(1 <= id <= |s.timers|) ==> Find(s.timers, id) == None
  {
    if 1 <= id <= |s.timers| {
      assert s.timers[id - 1].id == id;
    }
  }

  /** Replacing the state map by one with the same ids, each state fitting its timer, keeps the invariant. */
  lemma InvWithStates(s: Slice, m': map<nat, TimerState>, h: seq<Record>)
    requires Inv(s) && m'.Keys == s.timersState.Keys
    requires forall id :: id in m' ==> Fits(m'[id], s.timers[id - 1])
    ensures Inv(Slice(s.timers, m', h))
  {
  }

  /** Replacing one entry by a state that fits its timer keeps the invariant, whatever the history. */
  lemma InvUpdate(s: Slice, id: nat, st: TimerState, h: seq<Record>)
    requires id in s.timersState
    ensures Inv(s) ==> Fits(st, s.timers[id - 1]) ==> Inv(Slice(s.timers, s.timersState[id := st], h))
  {
    if Inv(s) && Fits(st, s.timers[id - 1]) {
      var m' := s.timersState[id := st];
      forall k | k in m'
        ensures Fits(m'[k], s.timers[k - 1])
      {
        if k != id {
          assert Fits(s.timersState[k], s.timers[k - 1]);
        }
      }
      InvWithStates(s, m', h);
    }
  }

  /** Only the entry for `id` may differ between the two state maps. */
  ghost predicate OthersUnchanged(m: map<nat, TimerState>, m': map<nat, TimerState>, id: nat) {
    m'.Keys == m.Keys + {id} && forall k :: k in m && k != id ==> m'[k] == m[k]
  }

  /** addTimer: append a timer with the next id and give it a fresh paused state. */
  function Add(s: Slice, name: string, duration: nat, category: string): (r: Slice)
    ensures Inv(s) ==> Inv(r)
    ensures |r.timers| == |s.timers| + 1 && r.timers[..|s.timers|] == s.timers
    ensures r.timers[|s.timers|] == Timer(|s.timers| + 1, name, duration, category, false)
    ensures Inv(s) ==> forall i :: 0 <= i < |s.timers| ==> s.timers[i].id != |s.timers| + 1
    ensures OthersUnchanged(s.timersState, r.timersState, |s.timers| + 1)
    ensures r.timersState[|s.timers| + 1] == TimerState(false, duration, Paused)
    ensures r.history == s.history
  {
    var newId := |s.timers| + 1;
    var newTimer := Timer(newId, name, duration, category, false);
    Slice(s.timers + [newTimer], s.timersState[newId := TimerState(false, newTimer.duration, Paused)], s.history)
  }

  /** startTimer: mark a known entry running; an unknown id changes nothing. */
  function Start(s: Slice, id: nat): (r: Slice)
    ensures Inv(s) ==> Inv(r)
    ensures id !in s.timersState ==> r == s
    ensures id in s.timersState ==>
      && OthersUnchanged(s.timersState, r.timersState, id)
      && r.timersState[id] == TimerState(true, s.timersState[id].timeLeft, Running)
    ensures r.timers == s.timers && r.history == s.history
  {
    if id in s.timersState then
      var st := s.timersState[id].(isRunning := true, status := Running);
      InvUpdate(s, id, st, s.history);
      s.(timersState := s.timersState[id := st])
    else s
  }

  /** pauseTimer: mark a known entry paused; an unknown id changes nothing. */
  function Pause(s: Slice, id: nat): (r: Slice)
    ensures Inv(s) ==> Inv(r)
    ensures id !in s.timersState ==> r == s
    ensures id in s.timersState ==>
      && OthersUnchanged(s.timersState, r.timersState, id)
      && r.timersState[id] == TimerState(false, s.timersState[id].timeLeft, Paused)
    ensures r.timers == s.timers && r.history == s.history
  {
    if id in s.timersState then
      var st := s.timersState[id].(isRunning := false, status := Paused);
      InvUpdate(s, id, st, s.history);
      s.(timersState := s.timersState[id := st])
    else s
  }

  /** resetTimer: give a known timer a fresh paused state; an unknown id changes nothing. */
  function Reset(s: Slice, id: nat): (r: Slice)
    ensures Inv(s) ==> Inv(r)
    ensures Find(s.timers, id).None? ==> r == s
    ensures Find(s.timers, id).Some? ==>
      && OthersUnchanged(s.timersState, r.timersState, id)
      && r.timersState[id] == TimerState(false, s.timers[Find(s.timers, id).value].duration, Paused)
    ensures r.timers == s.timers && r.history == s.history
  {
    match Find(s.timers, id)
    case Some(i) =>
      var st := TimerState(false, s.timers[i].duration, Paused);
      if id in s.timersState then
        InvUpdate(s, id, st, s.history);
        s.(timersState := s.timersState[id := st])
      else
        s.(timersState := s.timersState[id := st])
    case None => s
  }

  /**
   * completeTimer: a known timer becomes completed and not running, its time
   * left is kept, and one record is appended on every call, also when the
   * timer was already completed.
   */
  function Complete(s: Slice, id: nat, now: string): (r: Slice)
    requires Inv(s)
    ensures Inv(r)
    ensures Find(s.timers, id).None? ==> r == s
    ensures Find(s.timers, id).Some? ==>
      var t := s.timers[Find(s.timers, id).value];
      && OthersUnchanged(s.timersState, r.timersState, id)
      && r.timersState[id] == TimerState(false, s.timersState[id].timeLeft, Completed)
      && r.history == s.history + [Record(t.duration, now, t.category, t.name)]
    ensures r.timers == s.timers
  {
    match Find(s.timers, id)
    case Some(i) =>
      var t := s.timers[i];
      FindUnderInv(s, id);
      var st := s.timersState[id].(status := Completed, isRunning := false);
      var h := s.history + [FormatCompletedData(t.name, t.duration, t.category, now)];
      InvUpdate(s, id, st, h);
      Slice(s.timers, s.timersState[id := st], h)
    case None => s
  }

  /** clearTimers: drop every timer and state; the history stays. */
  function Clear(s: Slice): (r: Slice)
    ensures Inv(r)
    ensures r.timers == [] && r.timersState == map[]
    ensures r.history == s.history
  {
    s.(timers := [], timersState := map[])
  }

  /**
   * The entry after the decrement step of a tick: a running entry with time
   * left loses exactly one second; any other entry is left as it was.
   */
  function Decrement(st: TimerState): (r: TimerState)
    ensures r.isRunning == st.isRunning && r.status == st.status
    ensures st.timeLeft - 1 <= r.timeLeft <= st.timeLeft
    ensures r.timeLeft < st.timeLeft <==> st.isRunning && st.timeLeft > 0
  {
    if st.isRunning && st.timeLeft > 0 then st.(timeLeft := st.timeLeft - 1) else st
  }

  /**
   * The completion test of a tick, which reads the value after the
   * decrement: a running entry completes exactly when it had one second or
   * none left.
   */
  predicate CompletesOnTick(st: TimerState): (r: bool)
    ensures r <==> st.isRunning && 0 <= st.timeLeft <= 1
  {
    st.isRunning && Decrement(st).timeLeft == 0
  }

  /** The effect of one tick on one entry. */
  function TickEntry(st: TimerState): (r: TimerState)
    ensures Consistent(st) ==> Consistent(r)
    ensures 0 <= st.timeLeft ==> 0 <= r.timeLeft <= st.timeLeft
    ensures !st.isRunning ==> r == st
    ensures st.isRunning && st.timeLeft > 1 ==> r == st.(timeLeft := st.timeLeft - 1)
    ensures CompletesOnTick(st) ==> r == TimerState(false, 0, Completed)
  {
    var d := Decrement(st);
    if CompletesOnTick(st) then d.(status := Completed, isRunning := false) else d
  }

  /** The states after a tick: every entry is advanced on its own. */
  function TickStates(m: map<nat, TimerState>): (m': map<nat, TimerState>)
    ensures m'.Keys == m.Keys
    ensures forall id :: id in m ==> m'[id] == TickEntry(m[id])
  {
    map id | id in m :: TickEntry(m[id])
  }

  /**
   * The record a completing entry adds: one for its timer when the timer is
   * found, carrying the timer's configured duration, and none otherwise.
   */
  function CompletionRecordFor(timers: seq<Timer>, id: nat, now: string): (r: seq<Record>)
    ensures |r| <= 1
    ensures r == [] <==> forall i :: 0 <= i < |timers| ==> timers[i].id != id
    ensures r != [] ==>
      exists i :: (0 <= i < |timers| && timers[i].id == id &&
                   r[0] == Record(timers[i].duration, now, timers[i].category, timers[i].name))
  {
    match Find(timers, id)
    case Some(i) => [FormatCompletedData(timers[i].name, timers[i].duration, timers[i].category, now)]
    case None => []
  }

  /** `rec` is the completion record, stamped `now`, of one of the timers. */
  ghost predicate RecordOf(timers: seq<Timer>, rec: Record, now: string) {
    rec.timeOfCompletion == now &&
    exists i :: 0 <= i < |timers| && rec == Record(timers[i].duration, now, timers[i].category, timers[i].name)
  }

  /**
   * The records a tick appends while visiting the ids 1..k in order: one for
   * each entry that completes, carrying its timer's configured duration.
   */
  function TickRecords(timers: seq<Timer>, m: map<nat, TimerState>, now: string, k: nat): (r: seq<Record>)
    ensures |r| <= k
    ensures forall j :: 0 <= j < |r| ==> RecordOf(timers, r[j], now)
    decreases k
  {
    if k == 0 then []
    else
      TickRecords(timers, m, now, k - 1) +
      (if k in m && CompletesOnTick(m[k]) then CompletionRecordFor(timers, k, now) else [])
  }

  /**
   * tickTimers: every entry advances by one tick and the completions are
   * logged in id order. The history only grows, by at most one record per timer.
   */
  function Tick(s: Slice, now: string): (r: Slice)
    requires Inv(s)
    ensures Inv(r)
    ensures r.timers == s.timers
    ensures r.timersState.Keys == s.timersState.Keys
    ensures forall id :: id in s.timersState ==> r.timersState[id] == TickEntry(s.timersState[id])
    ensures |s.history| <= |r.history| <= |s.history| + |s.timers| && r.history[..|s.history|] == s.history
  {
    var m' := TickStates(s.timersState);
    var h := s.history + TickRecords(s.timers, s.timersState, now, |s.timers|);
    forall id | id in m'
      ensures Fits(m'[id], s.timers[id - 1])
    {
      assert Fits(s.timersState[id], s.timers[id - 1]);
    }
    InvWithStates(s, m', h);
    Slice(s.timers, m', h)
  }

  /** The four category-wide reducers. */
  datatype BulkOp = StartAll | PauseAll | ResumeAll | ResetAll

  /** The effect of a category-wide reducer on one matching timer's entry. */
  function BulkEntry(op: BulkOp, t: Timer, st: TimerState): (r: TimerState)
    ensures Consistent(st) ==> Consistent(r)
    ensures 0 <= st.timeLeft <= t.duration ==> 0 <= r.timeLeft <= t.duration
    ensures op == StartAll ==> r == TimerState(true, st.timeLeft, Running)
    ensures op == PauseAll ==> r == TimerState(false, st.timeLeft, Paused)
    ensures op == ResumeAll && st.timeLeft > 0 ==> r == TimerState(true, st.timeLeft, Running)
    ensures op == ResumeAll && st.timeLeft <= 0 ==> r == st
    ensures op == ResetAll ==> r == TimerState(false, t.duration, Paused)
  {
    match op
    case StartAll => st.(isRunning := true, status := Running)
    case PauseAll => st.(isRunning := false, status := Paused)
    case ResumeAll => if st.timeLeft > 0 then st.(isRunning := true, status := Running) else st
    case ResetAll => TimerState(false, t.duration, Paused)
  }

  /** The entry for `id` after a category-wide reducer: changed only when timer `id` is in category `c`. */
  function CategoryEntry(s: Slice, op: BulkOp, c: string, id: nat): TimerState
    requires Inv(s) && id in s.timersState
  {
    var t := s.timers[id - 1];
    if t.category == c then BulkEntry(op, t, s.timersState[id]) else s.timersState[id]
  }

  /**
   * A category-wide reducer: every timer whose category equals `c` exactly
   * has its entry updated; every other entry is left as it was.
   */
  function Bulk(s: Slice, op: BulkOp, c: string): (r: Slice)
    requires Inv(s)
    ensures Inv(r)
    ensures r.timers == s.timers && r.history == s.history
    ensures r.timersState.Keys == s.timersState.Keys
    ensures forall id :: id in s.timersState ==>
      r.timersState[id] ==
        if s.timers[id - 1].category == c then BulkEntry(op, s.timers[id - 1], s.timersState[id])
        else s.timersState[id]
  {
    var m' := map id | id in s.timersState :: CategoryEntry(s, op, c, id);
    CategoryEntriesFit(s, op, c, m');
    s.(timersState := m')
  }

  /** The entries a category-wide reducer leaves still fit their timers. */
  lemma CategoryEntriesFit(s: Slice, op: BulkOp, c: string, m': map<nat, TimerState>)
    requires Inv(s)
    requires m' == map id | id in s.timersState :: CategoryEntry(s, op, c, id)
    ensures Inv(s.(timersState := m'))
  {
    forall id | id in m'
      ensures Fits(m'[id], s.timers[id - 1])
    {
      assert Fits(s.timersState[id], s.timers[id - 1]);
    }
    InvWithStates(s, m', s.history);
  }
}
