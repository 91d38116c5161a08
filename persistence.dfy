/**
 * What the timer slice hands to durable storage and what it gets back.
 * The storage itself (an asynchronous key-value store) and the JSON
 * encoding are outside the model: a save is the payload it writes, a load
 * is a function of what the store holds under the slice's key.
 */
module Persistence {
  import opened TimerTypes
  import opened TimerSpec

  /** The payload written under the storage key: timers and states, never the history. */
  datatype Stored = Stored(timers: seq<Timer>, timersState: map<nat, TimerState>)

  /**
   * What `loadTimers` returns. The decoded payload has no `history` field,
   * so `history` is None after reading a saved payload.
   */
  datatype Loaded = Loaded(timers: seq<Timer>, timersState: map<nat, TimerState>, history: Option<seq<Record>>)

  /**
   * The payload `persistTimers` writes for a slice: its timers and states,
   * which on their own still satisfy the slice invariant.
   */
  function Save(s: Slice): (r: Stored)
    ensures r.timers == s.timers && r.timersState == s.timersState
    ensures Inv(s) ==> Inv(Slice(r.timers, r.timersState, []))
  {
    Stored(s.timers, s.timersState)
  }

  /**
   * `loadTimers`: the saved payload when the key holds one, otherwise (no
   * entry, or a read that fails) the initial state.
   */
  function Load(stored: Option<Stored>): (r: Loaded)
    ensures r.history.Some? <==> stored.None?
    ensures stored.Some? ==> r.timers == stored.value.timers && r.timersState == stored.value.timersState
    ensures stored.None? ==> r == Loaded([], map[], Some([]))
  {
    match stored
    case Some(p) => Loaded(p.timers, p.timersState, None)
    case None => Loaded(Initial.timers, Initial.timersState, Some(Initial.history))
  }

  /**
   * Saving then loading gives back the timers and states of the slice, and
   * they still satisfy the slice invariant, but the history is not restored.
   */
  lemma SaveThenLoad(s: Slice)
    requires Inv(s)
    ensures var l := Load(Some(Save(s)));
      && l.timers == s.timers && l.timersState == s.timersState
      && l.history == None
      && Inv(Slice(l.timers, l.timersState, []))
  {
  }
}
