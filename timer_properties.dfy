/**
 * Properties that relate several reducer steps: how repeated ticks count a
 * timer down and complete it, how many records a tick logs, and how the
 * card's two trigger conditions meet the engine's states.
 */
module TimerProperties {
  import opened TimerTypes
  import opened TimerSpec
  import opened TimerCard

  /** One tick per timestamp, in order. */
  function Ticks(s: Slice, nows: seq<string>): (r: Slice)
    requires Inv(s)
    ensures Inv(r) && r.timers == s.timers && r.timersState.Keys == s.timersState.Keys
    ensures |s.history| <= |r.history| && r.history[..|s.history|] == s.history
    decreases |nows|
  {
    if nows == [] then s else Ticks(Tick(s, nows[0]), nows[1..])
  }

  /** Ticking through `a` and then through `b` is ticking through `a + b`. */
  lemma {:induction false} TicksAppend(s: Slice, a: seq<string>, b: seq<string>)
    requires Inv(s)
    ensures Ticks(s, a + b) == Ticks(Ticks(s, a), b)
    decreases |a|
  {
    if a == [] {
      assert a + b == b;
    } else {
      assert (a + b)[1..] == a[1..] + b;
      TicksAppend(Tick(s, a[0]), a[1..], b);
    }
  }

  /** A tick in which no entry completes logs nothing. */
  lemma {:induction false} TickRecordsNone(timers: seq<Timer>, m: map<nat, TimerState>, now: string, k: nat)
    requires forall id :: 1 <= id <= k && id in m ==> !CompletesOnTick(m[id])
    ensures TickRecords(timers, m, now, k) == []
  {
    if k > 0 {
      TickRecordsNone(timers, m, now, k - 1);
    }
  }

  /** The ids among 1..k whose entries complete on this tick. */
  ghost function CompletingIds(m: map<nat, TimerState>, k: nat): set<nat> {
    set id: nat | 1 <= id <= k && id in m && CompletesOnTick(m[id])
  }

  /** Visiting id k adds k to the completing ids exactly when its entry completes. */
  lemma CompletingIdsStep(m: map<nat, TimerState>, k: nat)
    requires k >= 1
    ensures k !in CompletingIds(m, k - 1)
    ensures CompletingIds(m, k) ==
      CompletingIds(m, k - 1) + (if k in m && CompletesOnTick(m[k]) then {k} else {})
  {
  }

  /** The records logged while visiting ids 1..k extend those of ids 1..k-1 by the records of id k. */
  lemma TickRecordsStep(timers: seq<Timer>, m: map<nat, TimerState>, now: string, k: nat)
    requires k >= 1
    ensures TickRecords(timers, m, now, k) == TickRecords(timers, m, now, k - 1) +
      (if k in m && CompletesOnTick(m[k]) then CompletionRecordFor(timers, k, now) else [])
  {
  }

  /** A found timer contributes exactly its own record. */
  lemma CompletionRecordFound(timers: seq<Timer>, id: nat, now: string)
    requires Find(timers, id).Some?
    ensures var t := timers[Find(timers, id).value];
      CompletionRecordFor(timers, id, now) == [FormatCompletedData(t.name, t.duration, t.category, now)]
  {
  }

  /** When every visited id has a timer, a tick logs exactly one record per completing entry. */
  lemma {:induction false} TickRecordsCount(timers: seq<Timer>, m: map<nat, TimerState>, now: string, k: nat)
    requires forall id :: 1 <= id <= k ==> Find(timers, id).Some?
    ensures |TickRecords(timers, m, now, k)| == |CompletingIds(m, k)|
  {
    if k > 0 {
      TickRecordsCount(timers, m, now, k - 1);
      TickRecordsStep(timers, m, now, k);
      CompletingIdsStep(m, k);
      CompletionRecordFound(timers, k, now);
    }
  }

  /** A prefix of `b` is a prefix of `b` extended. */
  lemma PrefixExtend(a: seq<Record>, b: seq<Record>, c: seq<Record>)
    requires a <= b
    ensures a <= b + c
  {
    assert forall i :: 0 <= i < |a| ==> (b + c)[i] == b[i];
  }

  /** The records logged while visiting ids 1..j come first among those of ids 1..k. */
  lemma {:induction false} TickRecordsPrefix(timers: seq<Timer>, m: map<nat, TimerState>, now: string, j: nat, k: nat)
    requires j <= k
    ensures TickRecords(timers, m, now, j) <= TickRecords(timers, m, now, k)
    decreases k
  {
    if j < k {
      TickRecordsPrefix(timers, m, now, j, k - 1);
      TickRecordsStep(timers, m, now, k);
      var a, b := TickRecords(timers, m, now, j), TickRecords(timers, m, now, k - 1);
      var step := if k in m && CompletesOnTick(m[k]) then CompletionRecordFor(timers, k, now) else [];
      PrefixExtend(a, b, step);
    }
  }

  /** Every completing entry whose timer is found has its record among those the tick logs. */
  lemma TickRecordsHas(timers: seq<Timer>, m: map<nat, TimerState>, now: string, k: nat, id: nat)
    requires 1 <= id <= k && id in m && CompletesOnTick(m[id]) && Find(timers, id).Some?
    ensures var t := timers[Find(timers, id).value];
      FormatCompletedData(t.name, t.duration, t.category, now) in TickRecords(timers, m, now, k)
  {
    var t := timers[Find(timers, id).value];
    var rec := FormatCompletedData(t.name, t.duration, t.category, now);
    TickRecordsStep(timers, m, now, id);
    CompletionRecordFound(timers, id, now);
    var upTo := TickRecords(timers, m, now, id);
    assert upTo[|upTo| - 1] == rec;
    TickRecordsPrefix(timers, m, now, id, k);
    var all := TickRecords(timers, m, now, k);
    assert all[|upTo| - 1] == rec;
  }

  /**
   * While every running entry has more time left than the ticks to come,
   * the ticks log nothing and take exactly one second per tick off each
   * running entry; entries not running stay as they are.
   */
  lemma {:induction false} QuietTicks(s: Slice, nows: seq<string>)
    requires Inv(s)
    requires forall id :: id in s.timersState && s.timersState[id].isRunning ==> |nows| < s.timersState[id].timeLeft
    ensures Ticks(s, nows).history == s.history
    ensures forall id :: id in s.timersState ==>
      Ticks(s, nows).timersState[id] ==
        (if s.timersState[id].isRunning then s.timersState[id].(timeLeft := s.timersState[id].timeLeft - |nows|)
         else s.timersState[id])
    decreases |nows|
  {
    if nows != [] {
      var s1 := Tick(s, nows[0]);
      TickRecordsNone(s.timers, s.timersState, nows[0], |s.timers|);
      QuietTicks(s1, nows[1..]);
    }
  }

  /** A running entry with more time left than the ticks to come loses exactly one second per tick. */
  lemma {:induction false} Countdown(s: Slice, nows: seq<string>, id: nat)
    requires Inv(s) && id in s.timersState && s.timersState[id].isRunning
    requires |nows| < s.timersState[id].timeLeft
    ensures Ticks(s, nows).timersState[id] == TimerState(true, s.timersState[id].timeLeft - |nows|, Running)
    decreases |nows|
  {
    if nows != [] {
      Countdown(Tick(s, nows[0]), nows[1..], id);
    }
  }

  /**
   * A running entry with t > 0 seconds left is completed by the t-th tick,
   * and that tick logs its timer's record with the configured duration.
   */
  lemma CountdownCompletes(s: Slice, nows: seq<string>, id: nat)
    requires Inv(s) && id in s.timersState && s.timersState[id].isRunning
    requires |nows| == s.timersState[id].timeLeft > 0
    ensures Ticks(s, nows).timersState[id] == TimerState(false, 0, Completed)
    ensures var t := s.timers[id - 1];
      Record(t.duration, nows[|nows| - 1], t.category, t.name) in Ticks(s, nows).history[|s.history|..]
  {
    var a, last := nows[..|nows| - 1], nows[|nows| - 1];
    assert nows == a + [last];
    CountdownThenLast(s, a, last, id);
  }

  /** The countdown of CountdownCompletes, with the last tick taken apart. */
  lemma CountdownThenLast(s: Slice, a: seq<string>, last: string, id: nat)
    requires Inv(s) && id in s.timersState && s.timersState[id].isRunning
    requires |a| + 1 == s.timersState[id].timeLeft
    ensures Ticks(s, a + [last]).timersState[id] == TimerState(false, 0, Completed)
    ensures var t := s.timers[id - 1];
      Record(t.duration, last, t.category, t.name) in Ticks(s, a + [last]).history[|s.history|..]
  {
    TicksAppend(s, a, [last]);
    Countdown(s, a, id);
    var before := Ticks(s, a);
    var r := Tick(before, last);
    assert Ticks(before, [last]) == r;
    LastTickCompletes(before, last, id);
    var t := s.timers[id - 1];
    InLaterSuffix(r.history, |s.history|, |before.history|, Record(t.duration, last, t.category, t.name));
  }

  /** What is in a suffix of a list is in every longer suffix. */
  lemma InLaterSuffix(h: seq<Record>, i: nat, j: nat, x: Record)
    requires i <= j <= |h| && x in h[j..]
    ensures x in h[i..]
  {
    var k :| j <= k < |h| && h[k] == x;
    assert h[i..][k - i] == x;
  }

  /** A tick that completes a running entry logs that entry's record. */
  lemma LastTickCompletes(s: Slice, now: string, id: nat)
    requires Inv(s) && id in s.timersState && CompletesOnTick(s.timersState[id])
    ensures Tick(s, now).timersState[id] == TimerState(false, 0, Completed)
    ensures var t := s.timers[id - 1];
      Record(t.duration, now, t.category, t.name) in Tick(s, now).history[|s.history|..]
  {
    FindUnderInv(s, id);
    TickRecordsHas(s.timers, s.timersState, now, |s.timers|, id);
    var r := Tick(s, now);
    assert r.history[|s.history|..] == TickRecords(s.timers, s.timersState, now, |s.timers|);
  }

  /**
   * The worked example: a fresh 5-second timer, started, reads 1 second left
   * and still running after four ticks; the fifth tick completes it and logs
   * one record holding its configured duration.
   */
  lemma FocusScenario(nows: seq<string>)
    requires |nows| == 5
    ensures var s0 := Start(Add(Initial, "Focus", 5, "Work"), 1);
      var s4 := Ticks(s0, nows[..4]);
      && s4.timersState[1] == TimerState(true, 1, Running) && s4.history == []
      && Tick(s4, nows[4]).timersState[1] == TimerState(false, 0, Completed)
      && Tick(s4, nows[4]).history == [Record(5, nows[4], "Work", "Focus")]
  {
    FocusStarted();
    var s0 := Start(Add(Initial, "Focus", 5, "Work"), 1);
    FocusFourTicks(s0, nows[..4]);
    LastTickLogsOne(Ticks(s0, nows[..4]), nows[4]);
  }

  /** Adding the timer and starting it gives one running entry with five seconds left. */
  lemma FocusStarted()
    ensures Start(Add(Initial, "Focus", 5, "Work"), 1) ==
      Slice([Timer(1, "Focus", 5, "Work", false)], map[1 := TimerState(true, 5, Running)], [])
  {
  }

  /** Four ticks take the started timer from five seconds left to one, logging nothing. */
  lemma FocusFourTicks(s0: Slice, nows: seq<string>)
    requires s0 == Slice([Timer(1, "Focus", 5, "Work", false)], map[1 := TimerState(true, 5, Running)], [])
    requires |nows| == 4
    ensures Inv(s0)
    ensures var s4 := Ticks(s0, nows);
      && s4.timers == s0.timers && 1 in s4.timersState
      && s4.timersState[1] == TimerState(true, 1, Running) && s4.history == []
  {
    assert Inv(s0);
    Countdown(s0, nows, 1);
    QuietTicks(s0, nows);
  }

  /** A tick over a single timer that reaches zero completes it and logs exactly its record. */
  lemma LastTickLogsOne(s: Slice, now: string)
    requires Inv(s) && s.timers == [Timer(1, "Focus", 5, "Work", false)]
    requires 1 in s.timersState && s.timersState[1] == TimerState(true, 1, Running) && s.history == []
    ensures Tick(s, now).timersState[1] == TimerState(false, 0, Completed)
    ensures Tick(s, now).history == [Record(5, now, "Work", "Focus")]
  {
    assert Find(s.timers, 1) == Some(0);
    assert TickRecords(s.timers, s.timersState, now, 0) == [];
    assert TickRecords(s.timers, s.timersState, now, 1) == [Record(5, now, "Work", "Focus")];
  }

  /** Ids are numbered from the list length, so after a clear the next timer gets id 1 again. */
  lemma IdsRestartAfterClear(s: Slice, name: string, duration: nat, category: string)
    ensures Add(Clear(s), name, duration, category).timers == [Timer(1, name, duration, category, false)]
  {
  }

  /** Pausing a second time changes nothing. */
  lemma PauseTwice(s: Slice, id: nat)
    ensures Pause(Pause(s, id), id) == Pause(s, id)
  {
  }

  /** The half-way alert fires for a fresh running timer of d >= 2 seconds after d - d/2 ticks. */
  lemma HalfwayReached(s: Slice, nows: seq<string>, id: nat)
    requires Inv(s) && id in s.timersState
    requires s.timersState[id].isRunning && s.timersState[id].timeLeft == s.timers[id - 1].duration >= 2
    requires |nows| == s.timers[id - 1].duration - s.timers[id - 1].duration / 2
    ensures Ticks(s, nows).timersState[id].isRunning
    ensures HalfwayAlert(false, Ticks(s, nows).timersState[id].timeLeft, s.timers[id - 1].duration)
  {
    Countdown(s, nows, id);
  }

  /**
   * Right after a tick no entry meets the card's completion trigger: the
   * tick itself completes every running entry that reaches zero.
   */
  lemma NoTriggerAfterTick(s: Slice, now: string)
    requires Inv(s)
    ensures forall id :: id in Tick(s, now).timersState ==>
      !CompletionTrigger(Tick(s, now).timersState[id].timeLeft, Tick(s, now).timersState[id].isRunning)
  {
  }

  /**
   * Starting an entry with no time left (a completed timer, say) meets the
   * completion trigger at once, and the completeTimer call the card then
   * makes logs one more record for that timer.
   */
  lemma StartExhaustedTriggers(s: Slice, id: nat, now: string)
    requires Inv(s) && id in s.timersState && s.timersState[id].timeLeft == 0
    ensures CompletionTrigger(Start(s, id).timersState[id].timeLeft, Start(s, id).timersState[id].isRunning)
    ensures |Complete(Start(s, id), id, now).history| == |s.history| + 1
  {
    FindUnderInv(Start(s, id), id);
  }
}
