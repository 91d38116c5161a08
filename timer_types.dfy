/**
 * The records held by the timer slice of the home screen's store
 * (src/module/Home/store/homeReducer.tsx): timer definitions, their
 * runtime states, completion records, and the slice that holds all three.
 */
module TimerTypes {

  datatype Option<T> = None | Some(value: T)

  /** Runtime status of a timer. There is no pending state: a new timer starts Paused. */
  datatype Status = Running | Paused | Completed

  /**
   * A timer definition. The source's id is the decimal string of a positive
   * integer; it is held here as that integer.
   */
  datatype Timer = Timer(id: nat, name: string, duration: nat, category: string, isCompleted: bool)

  /** The mutable execution state of one timer, keyed by the timer's id. */
  datatype TimerState = TimerState(isRunning: bool, timeLeft: int, status: Status)

  /** A completion record (`Completed` in the source). */
  datatype Record = Record(timetaken: nat, timeOfCompletion: string, category: string, name: string)

  /** The whole slice: ordered timers, states by id, and the completion history. */
  datatype Slice = Slice(timers: seq<Timer>, timersState: map<nat, TimerState>, history: seq<Record>)

  /** The slice's initial state: all three collections empty. */
  const Initial: Slice := Slice([], map[], [])

  /**
   * Builds a completion record. The recorded time is the timer's configured
   * duration, not the time that was left; `now` stands for the wall-clock
   * timestamp the source reads.
   */
  function FormatCompletedData(name: string, duration: nat, category: string, now: string): (r: Record)
    ensures r.timetaken == duration && r.timeOfCompletion == now
    ensures r.name == name && r.category == category
  {
    Record(duration, now, category, name)
  }

  /** `timers.findIndex(t => t.id === id)`: the first index holding `id`, if any. */
  function Find(timers: seq<Timer>, id: nat): (r: Option<nat>)
    ensures r.Some? ==> r.value < |timers| && timers[r.value].id == id
    ensures r.Some? ==> forall j :: 0 <= j < r.value ==> timers[j].id != id
    ensures r.None? <==> forall j :: 0 <= j < |timers| ==> timers[j].id != id
  {
    if timers == [] then None
    else if timers[0].id == id then Some(0)
    else match Find(timers[1..], id)
      case Some(k) => Some(k + 1)
      case None => None
  }
}
